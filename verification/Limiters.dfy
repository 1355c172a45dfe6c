/**
 One rate limiter per key, made by the first call that needs it, under a lock that is taken only
 when a look under the read lock has failed; and a cleanup that forgets them all.
 */
module Limiters {
  import opened Common

  class Limiter {
    const rate: real
    const burst: int

    constructor (rate: real, burst: int)
      ensures this.rate == rate && this.burst == burst
    {
      this.rate := rate;
      this.burst := burst;
    }
  }

  /** The limiter as one caller at a time sees it. */
  class RateLimiter {
    const rate: real
    const burst: int
    var limiters: map<string, Limiter>

    /** No two keys share a limiter, and all are of the configured size. */
    ghost predicate Valid()
      reads this
    {
      && (forall k :: k in limiters ==> limiters[k].rate == rate && limiters[k].burst == burst)
      && forall k, l :: k in limiters && l in limiters && k != l ==> limiters[k] != limiters[l]
    }

    constructor (rate: real, burst: int)
      ensures Valid() && limiters == map[]
      ensures this.rate == (if rate <= 0.0 then 100.0 else rate) && this.burst == (if burst <= 0 then 50 else burst)
    {
      this.rate := if rate <= 0.0 then 100.0 else rate;
      this.burst := if burst <= 0 then 50 else burst;
      limiters := map[];
    }

    method GetLimiter(key: string) returns (limiter: Limiter)
      requires Valid()
      modifies this
      ensures Valid()
      ensures limiters == old(limiters)[key := limiter]
      ensures key in old(limiters) ==> limiter == old(limiters)[key]
      ensures key !in old(limiters) ==> fresh(limiter)
    {
      if key in limiters {
        return limiters[key];
      }
      limiter := new Limiter(rate, burst);
      limiters := limiters[key := limiter];
    }

    method CleanupExpired()
      requires Valid()
      modifies this
      ensures Valid()
      ensures limiters == if |old(limiters)| > 1000 then map[] else old(limiters)
    {
      if |limiters| > 1000 {
        limiters := map[];
      }
    }
  }

  /** Where one call of getLimiter stands; `epoch` counts the resets there have been before. */
  datatype Caller =
    | Idle
    | Missed(key: string)
    | Locked(key: string)
    | Making(key: string)
    | Got(key: string, limiter: nat, epoch: nat)

  /** For what key, and in what epoch, a limiter was made; limiters are numbered as they are made. */
  datatype Made = Made(key: string, epoch: nat)

  datatype State = State(
    limiters: map<string, nat>, made: seq<Made>, epoch: nat, holder: Option<int>, callers: map<int, Caller>)

  datatype Step =
    | Read(caller: int, key: string)
    | Acquire(caller: int)
    | Recheck(caller: int)
    | Store(caller: int)
    | Forget(caller: int)
    | Reset

  function At(s: State, c: int): Caller {
    if c in s.callers then s.callers[c] else Idle
  }

  function Move(s: State, c: int, at: Caller): State {
    s.(callers := s.callers[c := at])
  }

  /** One step; None if it cannot be taken. The read lock and the reset need the lock free. */
  function Apply(s: State, step: Step): Option<State> {
    match step
    case Read(c, key) =>
      if !At(s, c).Idle? || s.holder.Some? then None
      else if key in s.limiters then Some(Move(s, c, Got(key, s.limiters[key], s.epoch)))
      else Some(Move(s, c, Missed(key)))
    case Acquire(c) =>
      if !At(s, c).Missed? || s.holder.Some? then None
      else Some(Move(s, c, Locked(At(s, c).key)).(holder := Some(c)))
    case Recheck(c) =>
      if !At(s, c).Locked? then None
      else
        var key := At(s, c).key;
        if key in s.limiters then Some(Move(s, c, Got(key, s.limiters[key], s.epoch)).(holder := None))
        else Some(Move(s, c, Making(key)))
    case Store(c) =>
      if !At(s, c).Making? then None
      else
        var key, limiter := At(s, c).key, |s.made|;
        Some(Move(s, c, Got(key, limiter, s.epoch)).(
          limiters := s.limiters[key := limiter], made := s.made + [Made(key, s.epoch)], holder := None))
    case Forget(c) => if At(s, c).Got? then Some(Move(s, c, Idle)) else None
    case Reset =>
      if s.holder.Some? || |s.limiters| <= 1000 then None else Some(s.(limiters := map[], epoch := s.epoch + 1))
  }

  const START: State := State(map[], [], 0, None, map[])

  function Run(s: State, steps: seq<Step>): Option<State>
    decreases |steps|
  {
    if steps == [] then Some(s)
    else match Apply(s, steps[0])
         case None => None
         case Some(t) => Run(t, steps[1..])
  }

  ghost predicate Inv(s: State) {
    && LimitersAreThoseMade(s)
    && Distinct(s.made)
    && (forall c :: c in s.callers && s.callers[c].Got? ==>
          s.callers[c].limiter < |s.made| && s.made[s.callers[c].limiter] == Made(s.callers[c].key, s.callers[c].epoch))
    && (forall c :: c in s.callers && (s.callers[c].Locked? || s.callers[c].Making?) ==> s.holder == Some(c))
    && (forall c :: c in s.callers && s.callers[c].Making? ==> s.callers[c].key !in s.limiters)
    && (s.holder.Some? ==> At(s, s.holder.value).Locked? || At(s, s.holder.value).Making?)
  }

  /** The map holds exactly the limiters made since the last reset. */
  ghost predicate LimitersAreThoseMade(s: State) {
    && (forall k :: k in s.limiters ==> s.limiters[k] < |s.made| && s.made[s.limiters[k]] == Made(k, s.epoch))
    && (forall l :: 0 <= l < |s.made| ==>
          s.made[l].epoch <= s.epoch &&
          (s.made[l].epoch == s.epoch ==> s.made[l].key in s.limiters && s.limiters[s.made[l].key] == l))
  }

  lemma StepKeepsInv(s: State, step: Step)
    requires Inv(s) && Apply(s, step).Some?
    ensures Inv(Apply(s, step).value)
  {
    match step
    case Store(c) => StoreKeepsInv(s, c);
    case Reset => ResetKeepsInv(s);
    case _ => MoveKeepsInv(s, step);
  }

  lemma ResetKeepsInv(s: State)
    requires Inv(s) && Apply(s, Reset).Some?
    ensures Inv(Apply(s, Reset).value)
  {}

  /** The other steps leave map and limiters alone. */
  lemma MoveKeepsInv(s: State, step: Step)
    requires Inv(s) && Apply(s, step).Some? && !step.Store? && !step.Reset?
    ensures Inv(Apply(s, step).value)
  {
    var t := Apply(s, step).value;
    assert t.limiters == s.limiters && t.made == s.made && t.epoch == s.epoch;
  }

  lemma StoreKeepsInv(s: State, c: int)
    requires Inv(s) && At(s, c).Making?
    ensures Inv(Apply(s, Store(c)).value)
  {
    var t := Apply(s, Store(c)).value;
    var key := At(s, c).key;
    assert forall l :: 0 <= l < |s.made| ==> t.made[l] == s.made[l] && s.made[l] != Made(key, s.epoch);
    assert t.made[|s.made|] == Made(key, s.epoch);
  }

  lemma {:induction false} RunKeepsInv(s: State, steps: seq<Step>)
    requires Inv(s) && Run(s, steps).Some?
    ensures Inv(Run(s, steps).value)
    decreases |steps|
  {
    if steps == [] {
    } else {
      StepKeepsInv(s, steps[0]);
      RunKeepsInv(Apply(s, steps[0]).value, steps[1..]);
    }
  }

  /**
   However the steps of the calls fall, two of them hold one limiter exactly if they asked for one
   key and no reset came between them.
   */
  lemma SameLimiterIff(steps: seq<Step>, s: State, a: int, b: int)
    requires Run(START, steps) == Some(s) && At(s, a).Got? && At(s, b).Got?
    ensures At(s, a).limiter == At(s, b).limiter <==>
      At(s, a).key == At(s, b).key && At(s, a).epoch == At(s, b).epoch
  {
    assert Inv(START);
    RunKeepsInv(START, steps);
  }

  /** Between two resets an entry stays what it is, whatever steps are taken. */
  lemma {:induction false} EntriesStay(s: State, steps: seq<Step>, key: string)
    requires key in s.limiters && Inv(s)
    requires Run(s, steps).Some? && Run(s, steps).value.epoch == s.epoch
    ensures key in Run(s, steps).value.limiters && Run(s, steps).value.limiters[key] == s.limiters[key]
    decreases |steps|
  {
    if steps == [] {
    } else {
      var t := Apply(s, steps[0]).value;
      EpochsGrow(t, steps[1..]);
      StepKeepsInv(s, steps[0]);
      EntryStays(s, steps[0], key);
      EntriesStay(t, steps[1..], key);
    }
  }

  lemma EntryStays(s: State, step: Step, key: string)
    requires Inv(s) && key in s.limiters && Apply(s, step).Some?
    ensures var t := Apply(s, step).value;
      s.epoch <= t.epoch && (t.epoch == s.epoch ==> key in t.limiters && t.limiters[key] == s.limiters[key])
  {}

  lemma {:induction false} EpochsGrow(s: State, steps: seq<Step>)
    requires Run(s, steps).Some?
    ensures s.epoch <= Run(s, steps).value.epoch
    decreases |steps|
  {
    if steps == [] {
    } else {
      EpochsGrow(Apply(s, steps[0]).value, steps[1..]);
    }
  }

  /** One limiter at most is made for a key between two resets. */
  lemma MadeOnce(steps: seq<Step>, s: State, i: nat, j: nat)
    requires Run(START, steps) == Some(s) && i < j < |s.made|
    ensures s.made[i] != s.made[j]
  {
    assert Inv(START);
    RunKeepsInv(START, steps);
  }

  // ----- every call can come to its end ---------------------------------------------------

  lemma {:induction false} RunConcat(s: State, a: seq<Step>, b: seq<Step>)
    requires Run(s, a).Some?
    ensures Run(s, a + b) == Run(Run(s, a).value, b)
    decreases |a|
  {
    if a == [] {
      assert a + b == b;
    } else {
      RunConcat(Apply(s, a[0]).value, a[1..], b);
      Behead(a, b);
    }
  }

  lemma Then(s: State, step: Step, rest: seq<Step>)
    ensures Run(s, [step] + rest) == match Apply(s, step) case None => None case Some(t) => Run(t, rest)
  {
    assert ([step] + rest)[1..] == rest;
  }

  function Pending(at: Caller): nat {
    match at
    case Missed(_) => 3
    case Locked(_) => 2
    case Making(_) => 1
    case _ => 0
  }

  /** A call that is under way, by its own steps, when it does not have to wait for the lock. */
  lemma {:induction false} GoOn(s: State, c: int) returns (steps: seq<Step>)
    requires Inv(s) && !At(s, c).Idle? && (At(s, c).Missed? ==> s.holder.None?)
    ensures Run(s, steps).Some?
    ensures var t := Run(s, steps).value;
      && Inv(t) && At(t, c).Got? && At(t, c).key == At(s, c).key
      && (!At(s, c).Got? ==> t.holder.None?)
      && forall d :: d != c ==> At(t, d) == At(s, d)
    decreases Pending(At(s, c))
  {
    if At(s, c).Got? {
      steps := [];
    } else {
      var step := if At(s, c).Missed? then Acquire(c) else if At(s, c).Locked? then Recheck(c) else Store(c);
      StepKeepsInv(s, step);
      var t := Apply(s, step).value;
      var rest := GoOn(t, c);
      steps := [step] + rest;
      Then(s, step, rest);
    }
  }

  /** Whatever the others are doing, a call for a key can still come to hold a limiter for it. */
  lemma EveryCallCanReturn(s: State, c: int, key: string) returns (steps: seq<Step>)
    requires Inv(s) && (At(s, c).Idle? || At(s, c).key == key)
    ensures Run(s, steps).Some? && At(Run(s, steps).value, c).Got? && At(Run(s, steps).value, c).key == key
  {
    var first: seq<Step> := [];
    if s.holder.Some? {
      first := GoOn(s, s.holder.value);
    }
    var t := Run(s, first).value;
    if At(t, c).Idle? {
      var read := Read(c, key);
      StepKeepsInv(t, read);
      var u := Apply(t, read).value;
      var rest := GoOn(u, c);
      Then(t, read, rest);
      steps := first + ([read] + rest);
      RunConcat(s, first, [read] + rest);
    } else {
      var rest := GoOn(t, c);
      steps := first + rest;
      RunConcat(s, first, rest);
    }
  }

  /** While no reset comes between, the limiter a call gets is the one that is stored for its key. */
  lemma HeldIsStored(steps: seq<Step>, s: State, c: int)
    requires Run(START, steps) == Some(s) && At(s, c).Got? && At(s, c).epoch == s.epoch
    ensures At(s, c).key in s.limiters && s.limiters[At(s, c).key] == At(s, c).limiter
  {
    assert Inv(START);
    RunKeepsInv(START, steps);
    assert s.made[At(s, c).limiter] == Made(At(s, c).key, s.epoch);
  }
}
