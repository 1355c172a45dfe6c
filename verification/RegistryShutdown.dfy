/**
 The registry's background jobs against Shutdown, every step of one free to fall between two
 steps of another. Locks are held by whoever stands between taking and releasing them.
 */
module RegistryShutdown {
  import opened Common

  datatype Kind = Health | Cleanup | MinConns

  /** The order in which Shutdown cancels the jobs, and waits for them. */
  function Nth(k: nat): Kind {
    if k == 0 then Health else if k == 1 then Cleanup else MinConns
  }

  /** Where a job's goroutine stands. */
  datatype Place =
    | Select
    | WantRead
    | Reading
    | Visiting(todo: set<string>)
    | Inside(conn: string, todo: set<string>)
    | Done

  datatype Job = Job(kind: Kind, at: Place)

  datatype Shut =
    | NotCalled
    | Cancelling(k: nat)
    | Waiting(k: nat)
    | WantLock
    | Sweeping
    | Holding(conn: string)
    | Returned

  /**
   `bare` are the registered connections without a database; `closed` are the kinds whose done
   channel is closed; a channel closed twice panics.
   */
  datatype State = State(
    jobs: seq<Job>, shut: Shut, cancelled: set<Kind>, closed: set<Kind>, registry: set<string>, bare: set<string>,
    panicked: bool)

  datatype Step =
    | Tick(i: nat)
    | Finish(i: nat)
    | Enter(i: nat)
    | Copy(i: nat)
    | Lock(i: nat, conn: string)
    | Skip(i: nat, conn: string)
    | Unlock(i: nat)
    | GiveUp(i: nat)
    | Rest(i: nat)
    | Call
    | Cancel
    | Received
    | Acquire
    | Close(conn: string)
    | Forget(conn: string)
    | Return

  /** The minimum-connections job looks once before its loop, and so does not begin at the select. */
  function Start(kind: Kind): Job {
    Job(kind, if kind == MinConns then WantRead else Select)
  }

  function Started(kinds: seq<Kind>): seq<Job> {
    seq(|kinds|, i requires 0 <= i < |kinds| => Start(kinds[i]))
  }

  function Initial(kinds: seq<Kind>, registry: set<string>, bare: set<string>): State {
    State(Started(kinds), NotCalled, {}, {}, registry, bare, false)
  }

  ghost predicate BeingRead(s: State) {
    exists i :: 0 <= i < |s.jobs| && s.jobs[i].at == Reading
  }

  predicate WriteLocked(s: State) {
    s.shut.Sweeping? || s.shut.Holding?
  }

  ghost predicate ConnLocked(s: State, conn: string) {
    s.shut == Holding(conn) || exists i :: 0 <= i < |s.jobs| && s.jobs[i].at.Inside? && s.jobs[i].at.conn == conn
  }

  function Move(s: State, i: nat, at: Place): State
    requires i < |s.jobs|
  {
    s.(jobs := s.jobs[i := Job(s.jobs[i].kind, at)])
  }

  /** The step of a job; None if it cannot be taken now. */
  ghost function JobStep(s: State, step: Step, i: nat): Option<State>
    requires i < |s.jobs|
  {
    var job := s.jobs[i];
    match (step, job.at)
    case (Tick(_), Select) => Some(Move(s, i, WantRead))
    case (Finish(_), Select) =>
      if job.kind !in s.cancelled then None
      else if job.kind in s.closed then Some(s.(panicked := true))
      else Some(Move(s.(closed := s.closed + {job.kind}), i, Done))
    case (Enter(_), WantRead) => if WriteLocked(s) || s.shut.WantLock? then None else Some(Move(s, i, Reading))
    case (Copy(_), Reading) => Some(Move(s, i, Visiting(s.registry)))
    case (Lock(_, c), Visiting(todo)) =>
      if c !in todo || ConnLocked(s, c) then None else Some(Move(s, i, Inside(c, todo - {c})))
    case (Skip(_, c), Visiting(todo)) =>
      if c !in todo || job.kind != MinConns then None else Some(Move(s, i, Visiting(todo - {c})))
    case (Unlock(_), Inside(_, todo)) => Some(Move(s, i, Visiting(todo)))
    case (GiveUp(_), Inside(_, _)) => if job.kind != MinConns then None else Some(Move(s, i, Select))
    case (Rest(_), Visiting(todo)) => if todo == {} then Some(Move(s, i, Select)) else None
    case _ => None
  }

  ghost function ShutStep(s: State, step: Step): Option<State> {
    match (step, s.shut)
    case (Call, NotCalled) => Some(s.(shut := Cancelling(0)))
    case (Cancel, Cancelling(k)) =>
      if k < 3 then
        Some(s.(cancelled := s.cancelled + {Nth(k)}, shut := if k == 2 then Waiting(0) else Cancelling(k + 1)))
      else None
    case (Received, Waiting(k)) =>
      if k < 3 && Nth(k) in s.closed then Some(s.(shut := if k == 2 then WantLock else Waiting(k + 1)))
      else None
    case (Acquire, WantLock) => if BeingRead(s) then None else Some(s.(shut := Sweeping))
    case (Close(c), Sweeping) =>
      if c !in s.registry || c in s.bare || ConnLocked(s, c) then None else Some(s.(shut := Holding(c)))
    case (Forget(c), Sweeping) =>
      if c !in s.registry || c !in s.bare then None else Some(s.(registry := s.registry - {c}))
    case (Forget(c), Holding(d)) =>
      if c != d then None else Some(s.(registry := s.registry - {c}, shut := Sweeping))
    case (Return, Sweeping) => if s.registry == {} then Some(s.(shut := Returned)) else None
    case _ => None
  }

  predicate OfShutdown(step: Step) {
    step.Call? || step.Cancel? || step.Received? || step.Acquire? || step.Close? || step.Forget? || step.Return?
  }

  /** A panic ends the process. */
  ghost function Apply(s: State, step: Step): Option<State> {
    if s.panicked then None
    else if OfShutdown(step) then ShutStep(s, step)
    else if step.i < |s.jobs| then JobStep(s, step, step.i)
    else None
  }

  ghost function Run(s: State, steps: seq<Step>): Option<State>
    decreases |steps|
  {
    if steps == [] then Some(s)
    else match Apply(s, steps[0])
         case None => None
         case Some(t) => Run(t, steps[1..])
  }

  ghost predicate Reaches(s: State, t: State) {
    exists steps :: Run(s, steps) == Some(t)
  }

  ghost predicate Reachable(kinds: seq<Kind>, registry: set<string>, bare: set<string>, s: State) {
    Reaches(Initial(kinds, registry, bare), s)
  }

  ghost predicate NoneTwice(jobs: seq<Job>) {
    forall i, j :: 0 <= i < j < |jobs| ==> jobs[i].kind != jobs[j].kind
  }

  ghost predicate AllThere(jobs: seq<Job>) {
    forall k :: HasKind(jobs, k)
  }

  ghost predicate HasKind(jobs: seq<Job>, k: Kind) {
    exists i :: 0 <= i < |jobs| && jobs[i].kind == k
  }

  ghost predicate HasEnded(jobs: seq<Job>, k: Kind) {
    exists i :: 0 <= i < |jobs| && jobs[i].kind == k && jobs[i].at == Done
  }

  /** No two jobs of one kind have ended. */
  ghost predicate EndedOnce(jobs: seq<Job>) {
    forall i, j :: 0 <= i < j < |jobs| && jobs[i].at == Done && jobs[j].at == Done ==> jobs[i].kind != jobs[j].kind
  }

  /** How far Shutdown is: 0 to 3 cancelled, 3 to 6 done channels received. */
  function Passed(shut: Shut): nat {
    match shut
    case NotCalled => 0
    case Cancelling(k) => k
    case Waiting(k) => 3 + k
    case _ => 6
  }

  /** What holds in every reachable state, whatever jobs were started. */
  ghost predicate Inv(s: State) {
    && (s.shut.Cancelling? || s.shut.Waiting? ==> s.shut.k < 3)
    && (forall k :: 0 <= k < 3 && k < Passed(s.shut) ==> Nth(k) in s.cancelled)
    && (forall k :: 0 <= k < 3 && k < Passed(s.shut) - 3 ==> Nth(k) in s.closed)
    && s.closed <= s.cancelled
    && (s.shut.Holding? ==> s.shut.conn in s.registry)
    && (s.shut.Returned? ==> s.registry == {})
    && (forall k :: k in s.closed <==> HasEnded(s.jobs, k))
    && EndedOnce(s.jobs)
    && (WriteLocked(s) ==> !BeingRead(s))
    && (NoneTwice(s.jobs) ==> !s.panicked)
  }

  ghost predicate SameKinds(s: State, t: State) {
    |s.jobs| == |t.jobs| && forall i :: 0 <= i < |s.jobs| ==> s.jobs[i].kind == t.jobs[i].kind
  }

  lemma InitialInv(kinds: seq<Kind>, registry: set<string>, bare: set<string>)
    ensures Inv(Initial(kinds, registry, bare))
  {}

  lemma StepKeepsInv(s: State, step: Step)
    requires Inv(s) && Apply(s, step).Some?
    ensures Inv(Apply(s, step).value) && SameKinds(s, Apply(s, step).value)
  {
    if OfShutdown(step) {
      ShutStepKeepsInv(s, step);
    } else if step.Finish? {
      FinishKeepsInv(s, step.i);
    } else {
      JobStepKeepsInv(s, step, step.i);
    }
  }

  lemma ShutStepKeepsInv(s: State, step: Step)
    requires Inv(s) && !s.panicked && ShutStep(s, step).Some?
    ensures Inv(ShutStep(s, step).value) && SameKinds(s, ShutStep(s, step).value)
  {
    var t := ShutStep(s, step).value;
    assert t.jobs == s.jobs;
    assert BeingRead(t) == BeingRead(s);
  }

  lemma FinishKeepsInv(s: State, i: nat)
    requires Inv(s) && !s.panicked && i < |s.jobs| && JobStep(s, Finish(i), i).Some?
    ensures var t := JobStep(s, Finish(i), i).value; Inv(t) && SameKinds(s, t)
  {
    if s.jobs[i].kind in s.closed {
      PanicKeepsInv(s, i);
    } else {
      ClosingKeepsInv(s, i);
    }
  }

  lemma PanicKeepsInv(s: State, i: nat)
    requires Inv(s) && i < |s.jobs| && s.jobs[i].at != Done && s.jobs[i].kind in s.closed
    ensures Inv(s.(panicked := true))
  {
    var j :| 0 <= j < |s.jobs| && s.jobs[j].kind == s.jobs[i].kind && s.jobs[j].at == Done;
    assert !NoneTwice(s.jobs);
    assert BeingRead(s.(panicked := true)) <==> BeingRead(s);
  }

  lemma ClosingKeepsInv(s: State, i: nat)
    requires Inv(s) && i < |s.jobs| && s.jobs[i].at == Select
    requires s.jobs[i].kind in s.cancelled && s.jobs[i].kind !in s.closed
    ensures var t := Move(s.(closed := s.closed + {s.jobs[i].kind}), i, Done); Inv(t) && SameKinds(s, t)
  {
    var t := Move(s, i, Done);
    MoveKeepsKinds(s, i, Done);
    assert !HasEnded(s.jobs, s.jobs[i].kind);
    var u := Move(s.(closed := s.closed + {s.jobs[i].kind}), i, Done);
    assert u.jobs == t.jobs;
    assert BeingRead(u) <==> BeingRead(t);
  }

  lemma MoveKeepsKinds(s: State, i: nat, at: Place)
    requires i < |s.jobs| && s.jobs[i].at != Done
    ensures SameKinds(s, Move(s, i, at))
    ensures forall k :: HasEnded(Move(s, i, at).jobs, k) <==> HasEnded(s.jobs, k) || (at == Done && k == s.jobs[i].kind)
    ensures NoneTwice(Move(s, i, at).jobs) <==> NoneTwice(s.jobs)
    ensures at != Reading && BeingRead(Move(s, i, at)) ==> BeingRead(s)
  {
    var t := Move(s, i, at);
    assert t.jobs[i] == Job(s.jobs[i].kind, at);
    forall k ensures HasEnded(t.jobs, k) <==> HasEnded(s.jobs, k) || (at == Done && k == s.jobs[i].kind) {
      if HasEnded(s.jobs, k) {
        var j :| 0 <= j < |s.jobs| && s.jobs[j].kind == k && s.jobs[j].at == Done;
        assert t.jobs[j] == s.jobs[j];
      }
    }
  }

  /** A step that neither finishes a job nor belongs to Shutdown moves one job, from no end to no end. */
  lemma JobStepKeepsInv(s: State, step: Step, i: nat)
    requires Inv(s) && !s.panicked && i < |s.jobs| && !step.Finish? && JobStep(s, step, i).Some?
    ensures var t := JobStep(s, step, i).value; Inv(t) && SameKinds(s, t)
  {
    var t := JobStep(s, step, i).value;
    var at := t.jobs[i].at;
    assert t == Move(s, i, at) && at != Done && s.jobs[i].at != Done;
    MoveKeepsKinds(s, i, at);
  }

  lemma {:induction false} RunKeepsInv(s: State, steps: seq<Step>)
    requires Inv(s) && Run(s, steps).Some?
    ensures Inv(Run(s, steps).value) && SameKinds(s, Run(s, steps).value)
    decreases |steps|
  {
    if steps == [] {
    } else {
      StepKeepsInv(s, steps[0]);
      RunKeepsInv(Apply(s, steps[0]).value, steps[1..]);
    }
  }

  lemma ReachableInv(kinds: seq<Kind>, registry: set<string>, bare: set<string>, s: State)
    requires Reachable(kinds, registry, bare, s)
    ensures Inv(s) && SameKinds(Initial(kinds, registry, bare), s)
  {
    var s0 := Initial(kinds, registry, bare);
    var steps :| Run(s0, steps) == Some(s);
    InitialInv(kinds, registry, bare);
    RunKeepsInv(s0, steps);
  }

  /**
   When Shutdown has returned and no job was started twice, the map is empty, every job has
   ended, and nothing can happen any more.
   */
  lemma AfterShutdown(kinds: seq<Kind>, registry: set<string>, bare: set<string>, s: State, step: Step)
    requires Reachable(kinds, registry, bare, s) && s.shut.Returned?
    requires forall i, j :: 0 <= i < j < |kinds| ==> kinds[i] != kinds[j]
    ensures s.registry == {} && forall i :: 0 <= i < |s.jobs| ==> s.jobs[i].at == Done
    ensures Apply(s, step) == None
  {
    ReachableInv(kinds, registry, bare, s);
    AllClosedMeansAllDone(s);
  }

  lemma AllClosedMeansAllDone(s: State)
    requires Inv(s) && Passed(s.shut) == 6 && NoneTwice(s.jobs)
    ensures forall i :: 0 <= i < |s.jobs| ==> s.jobs[i].at == Done
  {
    forall i | 0 <= i < |s.jobs| ensures s.jobs[i].at == Done {
      var k := s.jobs[i].kind;
      assert k == Nth(0) || k == Nth(1) || k == Nth(2);
      assert HasEnded(s.jobs, k);
    }
  }

  /** While Shutdown sweeps, no job that was started once is left to use a connection. */
  lemma SweepIsAlone(kinds: seq<Kind>, registry: set<string>, bare: set<string>, s: State, i: nat)
    requires Reachable(kinds, registry, bare, s) && (WriteLocked(s) || s.shut.WantLock?)
    requires forall i, j :: 0 <= i < j < |kinds| ==> kinds[i] != kinds[j]
    requires i < |s.jobs|
    ensures s.jobs[i].at == Done
  {
    ReachableInv(kinds, registry, bare, s);
    AllClosedMeansAllDone(s);
  }

  /** What is left to do: every step but a tick lowers it. */
  function Rank(at: Place, registry: set<string>): nat {
    match at
    case Done => 0
    case Select => 1
    case Visiting(todo) => 2 + 2 * |todo|
    case Inside(_, todo) => 3 + 2 * |todo|
    case Reading => 3 + 2 * |registry|
    case WantRead => 4 + 2 * |registry|
  }

  function Ranks(jobs: seq<Job>, registry: set<string>): nat {
    if jobs == [] then 0 else Rank(jobs[0].at, registry) + Ranks(jobs[1..], registry)
  }

  function ShutRank(s: State): nat {
    match s.shut
    case NotCalled => 10 + 2 * |s.registry|
    case Cancelling(k) => (if k < 3 then 9 - k else 6) + 2 * |s.registry|
    case Waiting(k) => (if k < 3 then 6 - k else 3) + 2 * |s.registry|
    case WantLock => 3 + 2 * |s.registry|
    case Sweeping => 2 + 2 * |s.registry|
    case Holding(_) => 1 + 2 * |s.registry|
    case Returned => 0
  }

  function Left(s: State): nat {
    Ranks(s.jobs, s.registry) + ShutRank(s) + if s.panicked then 0 else 1
  }

  lemma {:induction false} RanksMove(jobs: seq<Job>, i: nat, job: Job, registry: set<string>)
    requires i < |jobs|
    ensures Ranks(jobs[i := job], registry) + Rank(jobs[i].at, registry) ==
      Ranks(jobs, registry) + Rank(job.at, registry)
  {
    if i == 0 {
      assert jobs[0 := job][1..] == jobs[1..];
    } else {
      RanksMove(jobs[1..], i - 1, job, registry);
      assert jobs[i := job][1..] == jobs[1..][i - 1 := job];
    }
  }

  lemma {:induction false} RanksShrink(jobs: seq<Job>, small: set<string>, big: set<string>)
    requires small <= big
    ensures Ranks(jobs, small) <= Ranks(jobs, big)
  {
    if jobs == [] {
    } else {
      RanksShrink(jobs[1..], small, big);
      SubsetSize(small, big);
    }
  }

  lemma StepsUseUp(s: State, step: Step)
    requires Inv(s) && !step.Tick? && Apply(s, step).Some?
    ensures Left(Apply(s, step).value) < Left(s)
  {
    var t := Apply(s, step).value;
    if OfShutdown(step) {
      ShutStepsUseUp(s, step);
    } else {
      JobStepsUseUp(s, step, step.i);
    }
  }

  lemma ShutStepsUseUp(s: State, step: Step)
    requires Inv(s) && !s.panicked && ShutStep(s, step).Some?
    ensures Left(ShutStep(s, step).value) < Left(s)
  {
    var t := ShutStep(s, step).value;
    assert t.jobs == s.jobs && t.registry <= s.registry;
    RanksShrink(s.jobs, t.registry, s.registry);
    SubsetSize(t.registry, s.registry);
    if step.Forget? {
      assert |s.registry - {step.conn}| == |s.registry| - 1;
    }
  }

  lemma JobStepsUseUp(s: State, step: Step, i: nat)
    requires !s.panicked && i < |s.jobs| && !step.Tick? && JobStep(s, step, i).Some?
    ensures Left(JobStep(s, step, i).value) < Left(s)
  {
    var t := JobStep(s, step, i).value;
    if !t.panicked {
      JobStepMovesOne(s, step, i);
      StepLowersRank(s, step, i);
      MoveUsesUp(s, t, i);
    }
  }

  lemma JobStepMovesOne(s: State, step: Step, i: nat)
    requires i < |s.jobs| && JobStep(s, step, i).Some? && !JobStep(s, step, i).value.panicked
    ensures var t := JobStep(s, step, i).value;
            |t.jobs| == |s.jobs| && t.jobs == s.jobs[i := t.jobs[i]] && t.shut == s.shut && t.registry == s.registry
  {}

  lemma MoveUsesUp(s: State, t: State, i: nat)
    requires i < |s.jobs| == |t.jobs| && !s.panicked && !t.panicked
    requires t.jobs == s.jobs[i := t.jobs[i]] && t.shut == s.shut && t.registry == s.registry
    requires Rank(t.jobs[i].at, s.registry) < Rank(s.jobs[i].at, s.registry)
    ensures Left(t) < Left(s)
  {
    RanksMove(s.jobs, i, t.jobs[i], s.registry);
  }

  lemma StepLowersRank(s: State, step: Step, i: nat)
    requires i < |s.jobs| && !step.Tick? && JobStep(s, step, i).Some?
    ensures var t := JobStep(s, step, i).value;
            t.panicked || Rank(t.jobs[i].at, s.registry) < Rank(s.jobs[i].at, s.registry)
  {
    if s.jobs[i].at.Visiting? && (step.Lock? || step.Skip?) {
      assert |s.jobs[i].at.todo - {step.conn}| == |s.jobs[i].at.todo| - 1;
    }
  }

  /** A run in which no ticker fires is bounded. */
  lemma {:induction false} WithoutTicksItEnds(s: State, steps: seq<Step>)
    requires Inv(s) && Run(s, steps).Some?
    requires forall i :: 0 <= i < |steps| ==> !steps[i].Tick?
    ensures |steps| + Left(Run(s, steps).value) <= Left(s)
    decreases |steps|
  {
    if steps == [] {
    } else {
      StepsUseUp(s, steps[0]);
      StepKeepsInv(s, steps[0]);
      WithoutTicksItEnds(Apply(s, steps[0]).value, steps[1..]);
    }
  }

  /** A step that a state offers, other than a tick, and that does no harm. */
  ghost predicate Offers(s: State, step: Step) {
    !step.Tick? && Apply(s, step).Some? && !Apply(s, step).value.panicked
  }

  /** With every job started, there is always something to do but tick until Shutdown returns. */
  lemma NeverStuck(s: State) returns (step: Step)
    requires Inv(s) && !s.panicked && AllThere(s.jobs) && !s.shut.Returned?
    ensures Offers(s, step)
  {
    match s.shut
    case NotCalled => step := Call;
    case Cancelling(k) => step := Cancel;
    case Waiting(k) => step := GoOnWaiting(s);
    case WantLock => step := GoOnLocking(s);
    case Sweeping => step := GoOnSweeping(s);
    case Holding(c) => step := Forget(c);
  }

  lemma GoOnWaiting(s: State) returns (step: Step)
    requires Inv(s) && !s.panicked && AllThere(s.jobs) && s.shut.Waiting?
    ensures Offers(s, step)
  {
    var kind := Nth(s.shut.k);
    if kind in s.closed {
      step := Received;
    } else {
      assert HasKind(s.jobs, kind);
      var i :| 0 <= i < |s.jobs| && s.jobs[i].kind == kind;
      step := AdvanceJob(s, i);
    }
  }

  lemma GoOnLocking(s: State) returns (step: Step)
    requires Inv(s) && !s.panicked && s.shut.WantLock?
    ensures Offers(s, step)
  {
    if BeingRead(s) {
      var i :| 0 <= i < |s.jobs| && s.jobs[i].at == Reading;
      step := Copy(i);
    } else {
      step := Acquire;
    }
  }

  lemma GoOnSweeping(s: State) returns (step: Step)
    requires Inv(s) && !s.panicked && s.shut.Sweeping?
    ensures Offers(s, step)
  {
    if s.registry == {} {
      step := Return;
    } else {
      var c :| c in s.registry;
      if c in s.bare {
        step := Forget(c);
      } else if ConnLocked(s, c) {
        step := Release(s, c);
      } else {
        step := Close(c);
      }
    }
  }

  /** Whoever holds a connection's lock can let it go. */
  lemma Release(s: State, c: string) returns (step: Step)
    requires !s.panicked && ConnLocked(s, c) && !s.shut.Holding?
    ensures Offers(s, step)
  {
    var i :| 0 <= i < |s.jobs| && s.jobs[i].at.Inside? && s.jobs[i].at.conn == c;
    step := Unlock(i);
  }

  /** Moving a job that Shutdown waits for, or whoever holds the lock it needs. */
  lemma AdvanceJob(s: State, i: nat) returns (step: Step)
    requires Inv(s) && !s.panicked && s.shut.Waiting? && i < |s.jobs| && s.jobs[i].kind !in s.closed
    ensures Offers(s, step)
  {
    assert s.jobs[i].at != Done by {
      assert !HasEnded(s.jobs, s.jobs[i].kind);
    }
    assert s.jobs[i].kind in s.cancelled by {
      assert s.jobs[i].kind == Nth(0) || s.jobs[i].kind == Nth(1) || s.jobs[i].kind == Nth(2);
    }
    match s.jobs[i].at
    case Select => step := Finish(i);
    case WantRead => step := Enter(i);
    case Reading => step := Copy(i);
    case Visiting(todo) => step := AdvanceVisit(s, i);
    case Inside(_, _) => step := Unlock(i);
  }

  lemma AdvanceVisit(s: State, i: nat) returns (step: Step)
    requires !s.panicked && s.shut.Waiting? && i < |s.jobs| && s.jobs[i].at.Visiting?
    ensures Offers(s, step)
  {
    var todo := s.jobs[i].at.todo;
    if todo == {} {
      step := Rest(i);
    } else {
      var c :| c in todo;
      if ConnLocked(s, c) {
        step := Release(s, c);
      } else {
        step := Lock(i, c);
      }
    }
  }

  lemma {:induction false} CanReturn(s: State) returns (steps: seq<Step>)
    requires Inv(s) && !s.panicked && AllThere(s.jobs)
    ensures Run(s, steps).Some? && Run(s, steps).value.shut.Returned?
    decreases Left(s)
  {
    if s.shut.Returned? {
      steps := [];
    } else {
      var step := NeverStuck(s);
      StepsUseUp(s, step);
      StepKeepsInv(s, step);
      var t := Apply(s, step).value;
      AllStayThere(s, t);
      var rest := CanReturn(t);
      steps := [step] + rest;
      assert steps[1..] == rest;
    }
  }

  lemma AllStayThere(s: State, t: State)
    requires SameKinds(s, t)
    ensures AllThere(s.jobs) <==> AllThere(t.jobs)
  {
    forall k ensures HasKind(s.jobs, k) <==> HasKind(t.jobs, k) {
      if HasKind(s.jobs, k) {
        var i :| 0 <= i < |s.jobs| && s.jobs[i].kind == k;
        assert t.jobs[i].kind == k;
      }
    }
  }

  ghost predicate MayReturn(s: State) {
    exists t :: Reaches(s, t) && t.shut.Returned?
  }

  /** From wherever a run has come, Shutdown can still return exactly if all three jobs were started. */
  lemma MayReturnIff(kinds: seq<Kind>, registry: set<string>, bare: set<string>, s: State)
    requires Reachable(kinds, registry, bare, s) && !s.panicked
    ensures MayReturn(s) <==> forall k: Kind :: k in kinds
  {
    var s0 := Initial(kinds, registry, bare);
    ReachableInv(kinds, registry, bare, s);
    AllStayThere(s0, s);
    KindsAreThere(kinds);
    if AllThere(s.jobs) {
      var steps := CanReturn(s);
      var t := Run(s, steps).value;
      assert Reaches(s, t);
    }
    if MayReturn(s) {
      var t :| Reaches(s, t) && t.shut.Returned?;
      var steps :| Run(s, steps) == Some(t);
      RunKeepsInv(s, steps);
      AllStayThere(s, t);
      ReturnedNeedsAll(t);
    }
  }

  lemma KindsAreThere(kinds: seq<Kind>)
    ensures AllThere(Started(kinds)) <==> forall k: Kind :: k in kinds
  {
    forall k ensures HasKind(Started(kinds), k) <==> k in kinds {
      if k in kinds {
        var i :| 0 <= i < |kinds| && kinds[i] == k;
        assert Started(kinds)[i].kind == k;
      }
    }
  }

  lemma ReturnedNeedsAll(t: State)
    requires Inv(t) && t.shut.Returned?
    ensures AllThere(t.jobs)
  {
    forall k: Kind ensures HasKind(t.jobs, k) {
      assert k == Nth(0) || k == Nth(1) || k == Nth(2);
      assert HasEnded(t.jobs, k);
    }
  }

  /** The set-up starts the health checks alone, so that Shutdown waits for ever. */
  lemma AsSetUpShutdownNeverReturns(registry: set<string>, bare: set<string>, s: State)
    requires Reachable([Health], registry, bare, s)
    ensures !MayReturn(s) && !s.shut.Returned?
  {
    ReachableInv([Health], registry, bare, s);
    assert NoneTwice(s.jobs);
    MayReturnIff([Health], registry, bare, s);
    assert Cleanup !in [Health];
    assert Run(s, []) == Some(s);
    assert Reaches(s, s);
  }

  /**
   With each job started exactly once, a run that goes on until nothing but a tick is left to do
   has made Shutdown return.
   */
  lemma QuietRunsReturn(kinds: seq<Kind>, registry: set<string>, bare: set<string>, s: State)
    requires Reachable(kinds, registry, bare, s)
    requires (forall k: Kind :: k in kinds) && forall i, j :: 0 <= i < j < |kinds| ==> kinds[i] != kinds[j]
    ensures !s.panicked
    ensures s.shut.Returned? <==> forall step :: Apply(s, step).Some? ==> step.Tick?
  {
    var s0 := Initial(kinds, registry, bare);
    ReachableInv(kinds, registry, bare, s);
    AllStayThere(s0, s);
    KindsAreThere(kinds);
    assert NoneTwice(s.jobs);
    if s.shut.Returned? {
      forall step ensures Apply(s, step) == None {
        AfterShutdown(kinds, registry, bare, s, step);
      }
    } else {
      var step := NeverStuck(s);
      assert Offers(s, step);
    }
  }

  lemma {:induction false} RunConcat(s: State, a: seq<Step>, b: seq<Step>)
    requires Run(s, a).Some?
    ensures Run(s, a + b) == Run(Run(s, a).value, b)
    decreases |a|
  {
    if a == [] {
      assert a + b == b;
    } else {
      RunConcat(Apply(s, a[0]).value, a[1..], b);
      assert (a + b)[0] == a[0] && (a + b)[1..] == a[1..] + b;
      assert a + b != [];
    }
  }

  lemma Then(s: State, step: Step, rest: seq<Step>)
    ensures Run(s, [step] + rest) == match Apply(s, step) case None => None case Some(t) => Run(t, rest)
  {
    assert ([step] + rest)[1..] == rest;
  }

  /** Before Shutdown is called a minimum-connections job can come to its select. */
  lemma {:induction false} Settle(s: State, i: nat) returns (steps: seq<Step>)
    requires !s.panicked && s.shut.NotCalled? && i < |s.jobs|
    requires var at := s.jobs[i].at;
             at.Select? || (s.jobs[i].kind == MinConns && !at.Done? && !at.Inside?)
    ensures Run(s, steps) == Some(Move(s, i, Select))
    decreases Rank(s.jobs[i].at, s.registry)
  {
    var at := s.jobs[i].at;
    if at.Select? {
      steps := [];
      assert s.jobs[i := s.jobs[i]] == s.jobs;
    } else {
      var step := match at
        case WantRead => Enter(i)
        case Reading => Copy(i)
        case Visiting(todo) => if todo == {} then Rest(i) else var c :| c in todo; Skip(i, c)
        case _ => Tick(i);
      StepLowersRank(s, step, i);
      var t := Apply(s, step).value;
      var rest := Settle(t, i);
      Then(s, step, rest);
      assert Move(t, i, Select).jobs == Move(s, i, Select).jobs;
      steps := [step] + rest;
    }
  }

  lemma CallAndCancel(s: State) returns (steps: seq<Step>)
    requires !s.panicked && s.shut.NotCalled? && s.cancelled == {}
    ensures Run(s, steps) == Some(s.(shut := Waiting(0), cancelled := {Health, Cleanup, MinConns}))
  {
    var t1 := s.(shut := Cancelling(0));
    var t2 := s.(shut := Cancelling(1), cancelled := {Health});
    var t3 := s.(shut := Cancelling(2), cancelled := {Health, Cleanup});
    var t4 := s.(shut := Waiting(0), cancelled := {Health, Cleanup, MinConns});
    assert t1.cancelled + {Nth(0)} == t2.cancelled && t2.cancelled + {Nth(1)} == t3.cancelled;
    assert t3.cancelled + {Nth(2)} == t4.cancelled;
    assert Apply(s, Call) == Some(t1) && Apply(t1, Cancel) == Some(t2);
    assert Apply(t2, Cancel) == Some(t3);
    assert Apply(t3, Cancel) == Some(t4);
    assert Run(t4, []) == Some(t4);
    Then(t3, Cancel, []);
    Then(t2, Cancel, [Cancel] + []);
    Then(t1, Cancel, [Cancel] + ([Cancel] + []));
    Then(s, Call, [Cancel] + ([Cancel] + ([Cancel] + [])));
    steps := [Call] + ([Cancel] + ([Cancel] + ([Cancel] + [])));
  }

  /** Two jobs of one kind at their selects, both cancelled, close one channel twice. */
  lemma CloseTwice(s: State, i: nat, j: nat) returns (steps: seq<Step>)
    requires !s.panicked && i < j < |s.jobs| && s.jobs[i].kind == s.jobs[j].kind && s.closed == {}
    requires s.jobs[i].at == Select && s.jobs[j].at == Select && s.jobs[i].kind in s.cancelled
    ensures Run(s, steps).Some? && Run(s, steps).value.panicked
  {
    var t := Apply(s, Finish(i)).value;
    assert t.jobs[j] == s.jobs[j] && t.closed == {s.jobs[i].kind};
    var u := Apply(t, Finish(j)).value;
    assert Run(u, []) == Some(u);
    Then(t, Finish(j), []);
    Then(s, Finish(i), [Finish(j)] + []);
    steps := [Finish(i)] + ([Finish(j)] + []);
  }

  ghost predicate MayPanic(kinds: seq<Kind>, registry: set<string>, bare: set<string>) {
    exists s :: Reachable(kinds, registry, bare, s) && s.panicked
  }

  lemma TwiceCanPanic(kinds: seq<Kind>, registry: set<string>, bare: set<string>, i: nat, j: nat)
    requires i < j < |kinds| && kinds[i] == kinds[j]
    ensures MayPanic(kinds, registry, bare)
  {
    var s0 := Initial(kinds, registry, bare);
    var a := Settle(s0, i);
    var s1 := Move(s0, i, Select);
    var b := Settle(s1, j);
    var s2 := Move(s1, j, Select);
    assert s2.jobs[i].at == Select && s2.jobs[j].at == Select;
    var c := CallAndCancel(s2);
    var s3 := Run(s2, c).value;
    var d := CloseTwice(s3, i, j);
    var end := Run(s3, d).value;
    RunConcat(s2, c, d);
    RunConcat(s1, b, c + d);
    RunConcat(s0, a, b + (c + d));
    assert Reaches(s0, end);
    assert Reachable(kinds, registry, bare, end);
  }

  /** Closing a done channel twice is possible exactly if some job was started twice. */
  lemma PanicsIff(kinds: seq<Kind>, registry: set<string>, bare: set<string>)
    ensures MayPanic(kinds, registry, bare) <==> exists i, j :: 0 <= i < j < |kinds| && kinds[i] == kinds[j]
  {
    if i, j :| 0 <= i < j < |kinds| && kinds[i] == kinds[j] {
      TwiceCanPanic(kinds, registry, bare, i, j);
    }
    if MayPanic(kinds, registry, bare) {
      var s :| Reachable(kinds, registry, bare, s) && s.panicked;
      ReachableInv(kinds, registry, bare, s);
      var i, j :| 0 <= i < j < |s.jobs| && s.jobs[i].kind == s.jobs[j].kind;
      assert kinds[i] == kinds[j];
    }
  }

  // ----- who holds which connection -------------------------------------------------------

  /** A connection's lock has one holder. */
  ghost predicate LocksHeldOnce(s: State) {
    && (forall i, j :: 0 <= i < j < |s.jobs| && s.jobs[i].at.Inside? && s.jobs[j].at.Inside? ==>
          s.jobs[i].at.conn != s.jobs[j].at.conn)
    && (s.shut.Holding? ==>
          forall i :: 0 <= i < |s.jobs| && s.jobs[i].at.Inside? ==> s.jobs[i].at.conn != s.shut.conn)
  }

  lemma StepKeepsLocks(s: State, step: Step)
    requires LocksHeldOnce(s) && Apply(s, step).Some?
    ensures LocksHeldOnce(Apply(s, step).value)
  {
    var t := Apply(s, step).value;
    if step.Lock? {
      assert t.jobs == s.jobs[step.i := t.jobs[step.i]] && !ConnLocked(s, step.conn);
    }
  }

  lemma {:induction false} LocksStayHeldOnce(s: State, steps: seq<Step>)
    requires LocksHeldOnce(s) && Run(s, steps).Some?
    ensures LocksHeldOnce(Run(s, steps).value)
    decreases |steps|
  {
    if steps == [] {
    } else {
      StepKeepsLocks(s, steps[0]);
      LocksStayHeldOnce(Apply(s, steps[0]).value, steps[1..]);
    }
  }

  /** In every interleaving no two jobs, and no job and Shutdown, are inside one connection. */
  lemma OneInside(kinds: seq<Kind>, registry: set<string>, bare: set<string>, s: State)
    requires Reachable(kinds, registry, bare, s)
    ensures LocksHeldOnce(s)
  {
    var steps :| Run(Initial(kinds, registry, bare), steps) == Some(s);
    LocksStayHeldOnce(Initial(kinds, registry, bare), steps);
  }

  /** A connection leaves the map only when Shutdown holds it, closed, or when it has no database to close. */
  lemma LeavesClosed(s: State, step: Step, c: string)
    requires Apply(s, step).Some? && c in s.registry && c !in Apply(s, step).value.registry
    ensures s.shut == Holding(c) || (s.shut.Sweeping? && c in s.bare)
  {}

  /** While Shutdown wants the registry's lock, or has it, no job comes to read the map. */
  lemma NoReaderGetsIn(s: State, step: Step, i: nat)
    requires s.shut.WantLock? || WriteLocked(s)
    requires Apply(s, step).Some? && i < |s.jobs| && s.jobs[i].at != Reading
    ensures i < |Apply(s, step).value.jobs| && Apply(s, step).value.jobs[i].at != Reading
  {}

  /** Of the jobs as started, the minimum-connections job looks at the map at once, and the others wait for a tick. */
  lemma FirstSteps(kinds: seq<Kind>, registry: set<string>, bare: set<string>, i: nat)
    requires i < |kinds|
    ensures var s := Initial(kinds, registry, bare);
      && (Apply(s, Enter(i)).Some? <==> kinds[i] == MinConns)
      && (Apply(s, Tick(i)).Some? <==> kinds[i] != MinConns)
  {}

  /** The minimum-connections job may skip any connection it has yet to visit, and give up inside one. */
  lemma MinConnsMayStopEarly(s: State, i: nat, c: string)
    requires !s.panicked && i < |s.jobs| && c in Todo(s.jobs[i].at)
    ensures s.jobs[i].at.Visiting? ==> (Apply(s, Skip(i, c)).Some? <==> s.jobs[i].kind == MinConns)
    ensures s.jobs[i].at.Inside? ==> (Apply(s, GiveUp(i)).Some? <==> s.jobs[i].kind == MinConns)
  {}

  /** What a job still has to visit. */
  function Todo(at: Place): set<string> {
    match at
    case Visiting(todo) => todo
    case Inside(_, todo) => todo
    case _ => {}
  }

  /** A connection a job has yet to visit is passed over only by the minimum-connections job. */
  lemma NoneIsPassedOver(s: State, step: Step, i: nat, c: string)
    requires i < |s.jobs| && c in Todo(s.jobs[i].at) && s.jobs[i].kind != MinConns && Apply(s, step).Some?
    ensures var t := Apply(s, step).value;
      && i < |t.jobs|
      && (c in Todo(t.jobs[i].at) || (t.jobs[i].at.Inside? && t.jobs[i].at.conn == c))
  {}

  /** When its ticker fires before Shutdown, a job can come to visit each connection nobody holds. */
  lemma EachCanBeVisited(s: State, i: nat, c: string) returns (steps: seq<Step>)
    requires !s.panicked && s.shut.NotCalled? && i < |s.jobs| && s.jobs[i].at == Select
    requires c in s.registry && !ConnLocked(s, c)
    ensures Run(s, steps) == Some(Move(s, i, Inside(c, s.registry - {c})))
  {
    var s1, s2, s3 := Move(s, i, WantRead), Move(s, i, Reading), Move(s, i, Visiting(s.registry));
    var s4 := Move(s, i, Inside(c, s.registry - {c}));
    assert Move(s1, i, Reading) == s2 && Move(s2, i, Visiting(s.registry)) == s3;
    assert Move(s3, i, Inside(c, s.registry - {c})) == s4;
    assert forall j :: 0 <= j < |s3.jobs| && s3.jobs[j].at.Inside? ==> s3.jobs[j] == s.jobs[j];
    assert !ConnLocked(s3, c);
    assert Apply(s, Tick(i)) == Some(s1) && Apply(s1, Enter(i)) == Some(s2);
    assert Apply(s2, Copy(i)) == Some(s3);
    assert Apply(s3, Lock(i, c)) == Some(s4);
    assert Run(s4, []) == Some(s4);
    Then(s3, Lock(i, c), []);
    Then(s2, Copy(i), [Lock(i, c)] + []);
    Then(s1, Enter(i), [Copy(i)] + ([Lock(i, c)] + []));
    Then(s, Tick(i), [Enter(i)] + ([Copy(i)] + ([Lock(i, c)] + [])));
    steps := [Tick(i)] + ([Enter(i)] + ([Copy(i)] + ([Lock(i, c)] + [])));
  }
}
