/**
 The cached readers of configurations, roles and statements against the writers that put a new
 value into storage and then invalidate the cache, every step of one free to fall between two
 steps of another.
 */
module LoadFill {
  import opened Common

  datatype Subject = Config(region: string) | Role(name: string) | Statement(name: string)

  /** The key builders. The unnamed configuration is cached under the name "default". */
  function CacheKey(x: Subject): string {
    match x
    case Config(region) => if region == "" then "config:default" else "config:" + region
    case Role(name) => "role:" + name
    case Statement(name) => "statement:" + name
  }

  /** Two subjects share a cache key only if they are the unnamed configuration and one named "default". */
  lemma KeysCollideIff(x: Subject, y: Subject)
    ensures CacheKey(x) == CacheKey(y) <==>
      x == y || (x.Config? && y.Config? && {x.region, y.region} == {"", "default"})
  {
    assert "config:default" == "config:" + "default";
    assert forall r: string ::
      ("config:" + r)[..7] == "config:" && ("config:" + r)[7..] == r && ("config:" + r)[0] == 'c';
    assert forall r: string :: ("role:" + r)[..5] == "role:" && ("role:" + r)[5..] == r && ("role:" + r)[0] == 'r';
    assert forall r: string :: ("statement:" + r)[10..] == r && ("statement:" + r)[0] == 's';
    if CacheKey(x) == CacheKey(y) {
      match (x, y)
      case (Config(a), Config(b)) =>
        var a', b' := if a == "" then "default" else a, if b == "" then "default" else b;
        assert ("config:" + a')[7..] == a' && ("config:" + b')[7..] == b';
      case (Role(a), Role(b)) => assert ("role:" + a)[5..] == a && ("role:" + b)[5..] == b;
      case (Statement(a), Statement(b)) => assert ("statement:" + a)[10..] == a && ("statement:" + b)[10..] == b;
      case _ => assert false;
    }
  }

  type Value = string

  /** A value together with where it came from: the subject it was stored under, and the moment. */
  datatype Loaded = Loaded(value: Value, origin: Subject, moment: nat)

  datatype Line = Line(loaded: Loaded, filledAt: int)

  datatype Reader =
    | Idle
    | Missed(subject: Subject)
    | Holding(subject: Subject, got: Option<Loaded>)
    | Answered(subject: Subject, got: Option<Loaded>, filledAt: int, servedAt: int)

  /** `history` holds every content the store has had, the present one last. */
  datatype State = State(
    history: seq<map<Subject, Value>>, cache: map<string, Line>, readers: map<int, Reader>,
    pending: map<int, Subject>, now: int, ttl: int)

  datatype Step =
    | Tick(elapsed: nat)
    | Lookup(reader: int, subject: Subject)
    | Load(reader: int)
    | LoadFails(reader: int)
    | Fill(reader: int)
    | Forget(key: string)
    | Put(writer: int, subject: Subject, value: Option<Value>)
    | Invalidate(writer: int)
    | Overwrite(subject: Subject, value: Option<Value>)

  ghost predicate WellFormed(s: State) {
    s.history != [] && s.ttl >= 0
  }

  function Store(s: State): map<Subject, Value>
    requires s.history != []
  {
    s.history[|s.history| - 1]
  }

  /** The store with one subject written, or removed. */
  function Written(s: State, x: Subject, v: Option<Value>): map<Subject, Value>
    requires s.history != []
  {
    if v.Some? then Store(s)[x := v.value] else Store(s) - {x}
  }

  function ReaderAt(s: State, p: int): Reader {
    if p in s.readers then s.readers[p] else Idle
  }

  predicate Enabled(s: State, step: Step) {
    match step
    case Load(p) => ReaderAt(s, p).Missed?
    case LoadFails(p) => ReaderAt(s, p).Missed?
    case Fill(p) => ReaderAt(s, p).Holding?
    case Put(w, _, _) => w !in s.pending
    case Invalidate(w) => w in s.pending
    case _ => true
  }

  function Apply(s: State, step: Step): State
    requires s.history != [] && Enabled(s, step)
  {
    match step
    case Tick(elapsed) => s.(now := s.now + elapsed)
    case Lookup(p, x) =>
      var k := CacheKey(x);
      if k in s.cache && s.now <= s.cache[k].filledAt + s.ttl then
        s.(readers := s.readers[p := Answered(x, Some(s.cache[k].loaded), s.cache[k].filledAt, s.now)])
      else s.(cache := s.cache - {k}, readers := s.readers[p := Missed(x)])
    case Load(p) =>
      var x := ReaderAt(s, p).subject;
      var got := if x in Store(s) then Some(Loaded(Store(s)[x], x, |s.history| - 1)) else None;
      s.(readers := s.readers[p := Holding(x, got)])
    case LoadFails(p) => s.(readers := s.readers[p := Idle])
    case Fill(p) =>
      var r := ReaderAt(s, p);
      s.(cache := if r.got.Some? then s.cache[CacheKey(r.subject) := Line(r.got.value, s.now)] else s.cache,
         readers := s.readers[p := Answered(r.subject, r.got, s.now, s.now)])
    case Forget(k) => s.(cache := s.cache - {k})
    case Put(w, x, v) => s.(history := s.history + [Written(s, x, v)], pending := s.pending[w := x])
    case Invalidate(w) =>
      s.(cache := s.cache - {CacheKey(s.pending[w])}, pending := s.pending - {w})
    case Overwrite(x, v) => s.(history := s.history + [Written(s, x, v)])
  }

  ghost predicate Possible(s: State, run: seq<Step>)
    requires s.history != []
    decreases |run|
  {
    run != [] ==> Enabled(s, run[0]) && Possible(Apply(s, run[0]), run[1..])
  }

  ghost function Run(s: State, run: seq<Step>): State
    requires s.history != [] && Possible(s, run)
    decreases |run|
  {
    if run == [] then s else Run(Apply(s, run[0]), run[1..])
  }

  // ----- every answer was once true, and is served in time --------------------------------

  /** The value was what storage held for its origin at its moment, and the origin has cache key `k`. */
  ghost predicate Genuine(s: State, l: Loaded, k: string) {
    l.moment < |s.history| && l.origin in s.history[l.moment] && s.history[l.moment][l.origin] == l.value
    && CacheKey(l.origin) == k
  }

  ghost predicate Safe(s: State) {
    && WellFormed(s)
    && (forall k :: k in s.cache ==> Genuine(s, s.cache[k].loaded, k) && s.cache[k].filledAt <= s.now)
    && (forall p :: p in s.readers ==>
          match s.readers[p]
          case Holding(x, Some(l)) => Genuine(s, l, CacheKey(x)) && l.origin == x
          case Answered(x, got, filledAt, servedAt) =>
            filledAt <= servedAt <= s.now && servedAt <= filledAt + s.ttl
            && (got.Some? ==> Genuine(s, got.value, CacheKey(x)))
          case _ => true)
  }

  lemma StepIsSafe(s: State, step: Step)
    requires Safe(s) && Enabled(s, step)
    ensures Safe(Apply(s, step))
  {
    if step.Put? || step.Overwrite? {
      MovingOnIsSafe(s, Apply(s, step));
    }
  }

  /** What was true once stays so when the store moves on. */
  lemma MovingOnIsSafe(s: State, t: State)
    requires Safe(s) && |s.history| < |t.history| && t.history[..|s.history|] == s.history
    requires t.cache == s.cache && t.readers == s.readers && t.now == s.now && t.ttl == s.ttl
    ensures Safe(t)
  {
    forall l: Loaded, k | Genuine(s, l, k) ensures Genuine(t, l, k) {
      assert t.history[l.moment] == t.history[..|s.history|][l.moment];
    }
  }

  /**
   In every interleaving each answer some reader got was the stored value, under that cache key, at
   some earlier moment, and a cached value is never served later than ttl after it was filled in.
   */
  lemma {:induction false} EveryRunIsSafe(s: State, run: seq<Step>)
    requires Safe(s) && Possible(s, run)
    ensures Safe(Run(s, run))
    decreases |run|
  {
    if run == [] {
    } else {
      StepIsSafe(s, run[0]);
      EveryRunIsSafe(Apply(s, run[0]), run[1..]);
    }
  }

  /** The key of `x` stands for no other stored subject: nothing is ever stored under its colliding name. */
  ghost predicate AloneInHistory(s: State, x: Subject) {
    forall i, y :: 0 <= i < |s.history| && y in s.history[i] && CacheKey(y) == CacheKey(x) ==> y == x
  }

  /** Read off for one reader: the answer is about the very subject asked for, if no other had its key. */
  lemma AnswerIsGenuine(s: State, run: seq<Step>, p: int)
    requires Safe(s) && Possible(s, run)
    requires var r := ReaderAt(Run(s, run), p);
      r.Answered? && r.got.Some? && AloneInHistory(Run(s, run), r.subject)
    ensures var t := Run(s, run); var r := ReaderAt(t, p);
      exists i :: 0 <= i < |t.history| && r.subject in t.history[i] && t.history[i][r.subject] == r.got.value.value
  {
    EveryRunIsSafe(s, run);
    var t := Run(s, run);
    var r := ReaderAt(t, p);
    var l := r.got.value;
    assert l.origin in t.history[l.moment] && CacheKey(l.origin) == CacheKey(r.subject);
    assert r.subject in t.history[l.moment];
  }

  /** A subject is alone in its key if no region named "default", and no unnamed one, was stored beside it. */
  lemma AloneIff(s: State, x: Subject)
    ensures AloneInHistory(s, x) <==>
      forall i :: 0 <= i < |s.history| ==>
        (x == Config("") ==> Config("default") !in s.history[i]) &&
        (x == Config("default") ==> Config("") !in s.history[i])
  {
    KeysCollideIff(Config(""), Config("default"));
    forall y | CacheKey(y) == CacheKey(x) && y != x
      ensures (x == Config("") && y == Config("default")) || (x == Config("default") && y == Config(""))
    {
      KeysCollideIff(y, x);
      assert {y.region, x.region} == {"", "default"};
      assert y.region in {"", "default"} && x.region in {"", "default"};
    }
  }

  // ----- when the cache agrees with the store ---------------------------------------------

  /** What storage holds for a subject now. */
  function Current(s: State, x: Subject): Option<Value>
    requires s.history != []
  {
    if x in Store(s) then Some(Store(s)[x]) else None
  }

  ghost predicate AwaitsInvalidation(s: State, k: string) {
    exists w :: w in s.pending && CacheKey(s.pending[w]) == k
  }

  ghost predicate UpToDate(s: State, l: Loaded)
    requires s.history != []
  {
    Current(s, l.origin) == Some(l.value)
  }

  /**
   A cached value is the stored one unless a writer has yet to invalidate its key; and the same of
   a value a reader holds and is about to cache.
   */
  ghost predicate Agrees(s: State) {
    && Safe(s)
    && (forall k :: k in s.cache ==> UpToDate(s, s.cache[k].loaded) || AwaitsInvalidation(s, k))
    && (forall p :: p in s.readers ==> HoldsNothingStale(s, p))
  }

  ghost predicate HoldsNothingStale(s: State, p: int)
    requires s.history != [] && p in s.readers
  {
    var r := s.readers[p];
    r.Holding? && r.got.Some? ==> UpToDate(s, r.got.value) || AwaitsInvalidation(s, CacheKey(r.subject))
  }

  /**
   No invalidation passes while a reader still holds an outdated value of that key, unless another
   writer is to invalidate the key again; and no overwrite changes a value that is cached or held,
   unless a writer is to invalidate it.
   */
  ghost predicate Undisturbed(s: State, step: Step)
    requires s.history != []
  {
    match step
    case Invalidate(w) =>
      w in s.pending ==>
        var k := CacheKey(s.pending[w]);
        forall p :: HoldsOutdated(s, p, k) ==> PendingBeside(s, k, w)
    case Overwrite(x, v) =>
      && (forall k :: k in s.cache && s.cache[k].loaded.origin == x && v != Some(s.cache[k].loaded.value) ==>
            AwaitsInvalidation(s, k))
      && (forall p :: HoldsOtherThan(s, p, x, v) ==> AwaitsInvalidation(s, CacheKey(x)))
    case _ => true
  }

  ghost predicate HoldsOtherThan(s: State, p: int, x: Subject, v: Option<Value>) {
    && p in s.readers && s.readers[p].Holding? && s.readers[p].got.Some?
    && s.readers[p].got.value.origin == x && v != Some(s.readers[p].got.value.value)
  }

  ghost predicate HoldsOutdated(s: State, p: int, k: string)
    requires s.history != []
  {
    && p in s.readers && s.readers[p].Holding? && s.readers[p].got.Some?
    && CacheKey(s.readers[p].subject) == k && !UpToDate(s, s.readers[p].got.value)
  }

  ghost predicate PendingBeside(s: State, k: string, w: int) {
    exists v :: v in s.pending && v != w && CacheKey(s.pending[v]) == k
  }

  ghost predicate AllUndisturbed(s: State, run: seq<Step>)
    requires s.history != [] && Possible(s, run)
    decreases |run|
  {
    run != [] ==> Undisturbed(s, run[0]) && AllUndisturbed(Apply(s, run[0]), run[1..])
  }

  /** After an invalidation a key awaits another exactly if another writer is pending on it. */
  lemma AwaitsAfterInvalidate(s: State, w: int, k: string)
    requires w in s.pending && s.history != []
    ensures AwaitsInvalidation(Apply(s, Invalidate(w)), k) <==> PendingBeside(s, k, w)
  {
    var t := Apply(s, Invalidate(w));
    if AwaitsInvalidation(t, k) {
      var v :| v in t.pending && CacheKey(t.pending[v]) == k;
      assert v in s.pending && v != w;
    }
    if PendingBeside(s, k, w) {
      var v :| v in s.pending && v != w && CacheKey(s.pending[v]) == k;
      assert v in t.pending;
    }
  }

  /** An invalidation keeps the agreement exactly if it leaves no reader with an outdated value. */
  lemma InvalidateAgreesIff(s: State, w: int)
    requires Agrees(s) && w in s.pending
    ensures Agrees(Apply(s, Invalidate(w))) <==> Undisturbed(s, Invalidate(w))
  {
    StepIsSafe(s, Invalidate(w));
    var t := Apply(s, Invalidate(w));
    assert Store(t) == Store(s) && t.readers == s.readers;
    forall k ensures AwaitsInvalidation(t, k) <==> PendingBeside(s, k, w) {
      AwaitsAfterInvalidate(s, w, k);
    }
    forall k | k in t.cache && !UpToDate(t, t.cache[k].loaded) ensures AwaitsInvalidation(t, k) {
      assert AwaitsInvalidation(s, k);
      var v :| v in s.pending && CacheKey(s.pending[v]) == k;
      assert v != w;
    }
    var done := CacheKey(s.pending[w]);
    forall p | p in s.readers
      ensures HoldsNothingStale(t, p) <==> !HoldsOutdated(s, p, done) || PendingBeside(s, done, w)
    {
      assert HoldsNothingStale(s, p);
      if s.readers[p].Holding? && HoldsOutdated(s, p, CacheKey(s.readers[p].subject)) {
        var k := CacheKey(s.readers[p].subject);
        var v :| v in s.pending && CacheKey(s.pending[v]) == k;
        assert k != done ==> v != w;
      }
    }
    assert Undisturbed(s, Invalidate(w)) <==>
      forall p :: HoldsOutdated(s, p, done) ==> PendingBeside(s, done, w);
    if Undisturbed(s, Invalidate(w)) {
      forall p | p in t.readers ensures HoldsNothingStale(t, p) {
        assert p in s.readers;
      }
    } else {
      var p :| HoldsOutdated(s, p, done) && !PendingBeside(s, done, w);
      assert !HoldsNothingStale(t, p);
    }
  }

  lemma PutAgrees(s: State, w: int, x: Subject, v: Option<Value>)
    requires Agrees(s) && w !in s.pending
    ensures Agrees(Apply(s, Put(w, x, v)))
  {
    StepIsSafe(s, Put(w, x, v));
    var t := Apply(s, Put(w, x, v));
    forall y | y != x ensures Current(t, y) == Current(s, y) {}
    assert w in t.pending && AwaitsInvalidation(t, CacheKey(x));
    forall k | AwaitsInvalidation(s, k) ensures AwaitsInvalidation(t, k) {
      var u :| u in s.pending && CacheKey(s.pending[u]) == k;
      assert u in t.pending && t.pending[u] == s.pending[u];
    }
    forall k | k in t.cache && !UpToDate(t, t.cache[k].loaded) ensures AwaitsInvalidation(t, k) {
      assert t.cache[k].loaded.origin == x || AwaitsInvalidation(s, k);
    }
    forall p | p in t.readers ensures HoldsNothingStale(t, p) {
      assert HoldsNothingStale(s, p);
    }
  }

  /** An overwrite keeps the agreement exactly if each cached or held value it changes awaits invalidation. */
  lemma OverwriteAgreesIff(s: State, x: Subject, v: Option<Value>)
    requires Agrees(s)
    ensures Agrees(Apply(s, Overwrite(x, v))) <==> Undisturbed(s, Overwrite(x, v))
  {
    StepIsSafe(s, Overwrite(x, v));
    var t := Apply(s, Overwrite(x, v));
    assert Store(t) == Written(s, x, v) && t.readers == s.readers && t.cache == s.cache;
    forall y ensures Current(t, y) == if y == x then v else Current(s, y) {}
    forall k ensures AwaitsInvalidation(t, k) <==> AwaitsInvalidation(s, k) {
      assert t.pending == s.pending;
    }
    forall k | k in s.cache
      ensures UpToDate(t, s.cache[k].loaded) || AwaitsInvalidation(t, k) <==>
        (s.cache[k].loaded.origin == x && v != Some(s.cache[k].loaded.value) ==> AwaitsInvalidation(s, k))
    {
    }
    forall p | p in s.readers
      ensures HoldsNothingStale(t, p) <==> (HoldsOtherThan(s, p, x, v) ==> AwaitsInvalidation(s, CacheKey(x)))
    {
      assert HoldsNothingStale(s, p);
    }
  }

  /** Steps that leave store and pending writers alone may only take lines away or copy held values. */
  lemma CacheStepAgrees(s: State, t: State)
    requires Agrees(s) && Safe(t) && t.history == s.history && t.pending == s.pending
    requires forall k :: k in t.cache ==>
      (k in s.cache && t.cache[k] == s.cache[k]) || UpToDate(s, t.cache[k].loaded) || AwaitsInvalidation(s, k)
    requires forall p :: p in t.readers && t.readers[p].Holding? && t.readers[p].got.Some? ==>
      UpToDate(s, t.readers[p].got.value) || (p in s.readers && t.readers[p] == s.readers[p])
    ensures Agrees(t)
  {
    forall k | k in t.cache && !UpToDate(t, t.cache[k].loaded) ensures AwaitsInvalidation(t, k) {
      assert AwaitsInvalidation(s, k);
    }
    forall p | p in t.readers ensures HoldsNothingStale(t, p) {
      assert p in s.readers ==> HoldsNothingStale(s, p);
    }
  }

  lemma FillAgrees(s: State, p: int)
    requires Agrees(s) && Enabled(s, Fill(p))
    ensures Agrees(Apply(s, Fill(p)))
  {
    StepIsSafe(s, Fill(p));
    assert HoldsNothingStale(s, p);
    CacheStepAgrees(s, Apply(s, Fill(p)));
  }

  /** Of all steps only an invalidation and an overwrite can end the agreement, exactly when they disturb. */
  lemma StepAgreesIff(s: State, step: Step)
    requires Agrees(s) && Enabled(s, step)
    ensures Agrees(Apply(s, step)) <==> Undisturbed(s, step)
  {
    match step
    case Invalidate(w) => InvalidateAgreesIff(s, w);
    case Put(w, x, v) => PutAgrees(s, w, x, v);
    case Overwrite(x, v) => OverwriteAgreesIff(s, x, v);
    case Fill(p) => FillAgrees(s, p);
    case _ =>
      StepIsSafe(s, step);
      CacheStepAgrees(s, Apply(s, step));
  }

  /**
   If no invalidation passes a reader that holds an outdated value, and no overwrite changes a
   cached or held one, then whenever no writer is between its put and its invalidation every
   cached value is the stored one.
   */
  lemma {:induction false} UndisturbedRunsAgree(s: State, run: seq<Step>)
    requires Agrees(s) && Possible(s, run) && AllUndisturbed(s, run)
    ensures Agrees(Run(s, run))
    ensures var t := Run(s, run);
      t.pending == map[] ==> forall k :: k in t.cache ==>
        UpToDate(t, t.cache[k].loaded) && CacheKey(t.cache[k].loaded.origin) == k
    decreases |run|
  {
    if run == [] {
    } else {
      StepAgreesIff(s, run[0]);
      UndisturbedRunsAgree(Apply(s, run[0]), run[1..]);
    }
  }

  /** And a disturbing invalidation leaves a reader whose fill makes a stale line that nobody is to remove. */
  lemma DisturbedGoesStale(s: State, w: int) returns (p: int)
    requires Agrees(s) && w in s.pending && !Undisturbed(s, Invalidate(w))
    ensures var t := Apply(s, Invalidate(w));
      && Enabled(t, Fill(p))
      && var u := Apply(t, Fill(p));
      && u.history != [] && ReaderAt(t, p).Holding?
      && var k := CacheKey(ReaderAt(t, p).subject);
      && k in u.cache && !UpToDate(u, u.cache[k].loaded) && !AwaitsInvalidation(u, k)
  {
    var done := CacheKey(s.pending[w]);
    p :| HoldsOutdated(s, p, done) && !PendingBeside(s, done, w);
    var t := Apply(s, Invalidate(w));
    AwaitsAfterInvalidate(s, w, done);
    var u := Apply(t, Fill(p));
    assert u.pending == t.pending && Store(u) == Store(s);
    assert AwaitsInvalidation(u, done) <==> AwaitsInvalidation(t, done);
  }

  // ----- what one step may change ---------------------------------------------------------

  /** A line that is still served at this time. */
  predicate Live(s: State, k: string) {
    k in s.cache && s.now - s.cache[k].filledAt <= s.ttl
  }

  /**
   A step takes a line out of the cache only if it is an invalidation or the loss of that very key,
   or a lookup that finds it too old; and only the fill of a reader of that key puts another line
   in its place, its own value as of now.
   */
  lemma LinesStay(s: State, step: Step, k: string)
    requires s.history != [] && Enabled(s, step) && k in s.cache
    requires !(step.Forget? && step.key == k)
    requires !(step.Invalidate? && CacheKey(s.pending[step.writer]) == k)
    requires !(step.Lookup? && CacheKey(step.subject) == k && !Live(s, k))
    ensures var t := Apply(s, step);
      k in t.cache &&
      if step.Fill? && ReaderAt(s, step.reader).got.Some? && CacheKey(ReaderAt(s, step.reader).subject) == k
      then t.cache[k] == Line(ReaderAt(s, step.reader).got.value, s.now)
      else t.cache[k] == s.cache[k]
  {}

  /** A step moves one reader, if any, and time only when it is the passing of time. */
  lemma OthersStay(s: State, step: Step, p: int)
    requires s.history != [] && Enabled(s, step)
    requires !((step.Lookup? || step.Load? || step.LoadFails? || step.Fill?) && step.reader == p)
    ensures ReaderAt(Apply(s, step), p) == ReaderAt(s, p)
    ensures Apply(s, step).now == s.now + if step.Tick? then step.elapsed else 0
    ensures Apply(s, step).ttl == s.ttl
  {}

  /** The steps of a reader: a line that is live is the answer; otherwise what is stored is loaded, and handed on. */
  lemma ReaderSteps(s: State, p: int, x: Subject)
    requires s.history != []
    ensures ReaderAt(Apply(s, Lookup(p, x)), p) ==
      if Live(s, CacheKey(x))
      then Answered(x, Some(s.cache[CacheKey(x)].loaded), s.cache[CacheKey(x)].filledAt, s.now)
      else Missed(x)
    ensures ReaderAt(s, p) == Missed(x) ==>
      var r := ReaderAt(Apply(s, Load(p)), p);
      && r.Holding? && r.subject == x && (r.got.Some? <==> x in Store(s))
      && (r.got.Some? ==> r.got.value == Loaded(Store(s)[x], x, |s.history| - 1))
    ensures ReaderAt(s, p) == Missed(x) ==> ReaderAt(Apply(s, LoadFails(p)), p) == Idle
    ensures ReaderAt(s, p).Holding? ==>
      ReaderAt(Apply(s, Fill(p)), p) == Answered(ReaderAt(s, p).subject, ReaderAt(s, p).got, s.now, s.now)
  {}

  /** What a write leaves stored: its value under its subject, or nothing under it, and everything else as before. */
  lemma WritersStore(s: State, w: int, x: Subject, v: Option<Value>)
    requires s.history != [] && w !in s.pending
    ensures forall t :: t == Apply(s, Put(w, x, v)) || t == Apply(s, Overwrite(x, v)) ==>
      t.history != [] && Current(t, x) == v && (forall y :: y != x ==> Current(t, y) == Current(s, y))
      && t.history[..|t.history| - 1] == s.history && t.cache == s.cache
    ensures Apply(s, Put(w, x, v)).pending == s.pending[w := x]
    ensures Apply(s, Overwrite(x, v)).pending == s.pending
  {}

  // ----- handlers one at a time -----------------------------------------------------------

  /**
   A whole read, a whole write, the passing of time, the loss of a line; and a write that does not
   invalidate, as restoring a backup and migrating a role on its read make them.
   */
  datatype Handler =
    | Read(reader: int, subject: Subject, loads: bool)
    | Write(writer: int, subject: Subject, value: Option<Value>)
    | BareWrite(subject: Subject, value: Option<Value>)
    | Wait(elapsed: nat)
    | Lose(key: string)

  /** Nobody is inside a read or a write. */
  ghost predicate Still(s: State) {
    s.history != [] && s.pending == map[] && forall p :: p in s.readers ==> s.readers[p].Idle? || s.readers[p].Answered?
  }

  /** And cached is stored. */
  ghost predicate Quiet(s: State) {
    Agrees(s) && Still(s)
  }

  function Serve(s: State, h: Handler): State
    requires s.history != [] && s.pending == map[]
  {
    match h
    case Read(p, x, loads) =>
      var s1 := Apply(s, Lookup(p, x));
      if !ReaderAt(s1, p).Missed? then s1
      else if !loads then Apply(s1, LoadFails(p))
      else Apply(Apply(s1, Load(p)), Fill(p))
    case Write(w, x, v) => Apply(Apply(s, Put(w, x, v)), Invalidate(w))
    case BareWrite(x, v) => Apply(s, Overwrite(x, v))
    case Wait(elapsed) => Apply(s, Tick(elapsed))
    case Lose(k) => Apply(s, Forget(k))
  }

  lemma ServeKeepsStill(s: State, h: Handler)
    requires Still(s)
    ensures Still(Serve(s, h))
  {
    if h.Write? {
      assert s.pending[h.writer := h.subject] - {h.writer} == map[];
    }
  }

  /** The handler is no bare write that changes a cached value. */
  ghost predicate Harmless(s: State, h: Handler) {
    h.BareWrite? ==>
      forall k :: k in s.cache && s.cache[k].loaded.origin == h.subject ==> h.value == Some(s.cache[k].loaded.value)
  }

  /** A whole handler keeps cached equal to stored exactly if it is harmless. */
  lemma ServeAgreesIff(s: State, h: Handler)
    requires Quiet(s)
    ensures Quiet(Serve(s, h)) <==> Harmless(s, h)
  {
    ServeKeepsStill(s, h);
    match h
    case Read(p, x, loads) => ReadAgrees(s, p, x, loads);
    case Write(w, x, v) =>
      StepAgreesIff(s, Put(w, x, v));
      StepAgreesIff(Apply(s, Put(w, x, v)), Invalidate(w));
    case BareWrite(x, v) =>
      StepAgreesIff(s, Overwrite(x, v));
      assert forall k :: !AwaitsInvalidation(s, k);
      assert forall p :: !HoldsOtherThan(s, p, x, v);
    case Wait(elapsed) => StepAgreesIff(s, Tick(elapsed));
    case Lose(k) => StepAgreesIff(s, Forget(k));
  }

  /** A whole read answers with the live line of its key, or else with what is stored, which it then caches. */
  lemma ReadAnswers(s: State, p: int, x: Subject)
    requires Still(s)
    ensures var t := Serve(s, Read(p, x, true));
      var r := ReaderAt(t, p);
      && r.Answered? && r.subject == x && t.history == s.history
      && (Live(s, CacheKey(x)) ==> r.got == Some(s.cache[CacheKey(x)].loaded) && t.cache == s.cache)
      && (!Live(s, CacheKey(x)) ==>
            && (if r.got.None? then Current(s, x) == None else Current(s, x) == Some(r.got.value.value))
            && t.cache ==
               if r.got.None? then s.cache - {CacheKey(x)} else s.cache[CacheKey(x) := Line(r.got.value, s.now)])
  {
    var k := CacheKey(x);
    if x in Store(s) {
      var line := Line(Loaded(Store(s)[x], x, |s.history| - 1), s.now);
      assert (s.cache - {k})[k := line] == s.cache[k := line];
    }
  }

  /** A whole write stores its value, and leaves every line but that of its key. */
  lemma WriteLeaves(s: State, w: int, x: Subject, v: Option<Value>)
    requires Still(s)
    ensures var t := Serve(s, Write(w, x, v));
      && t.history != [] && Current(t, x) == v && (forall y :: y != x ==> Current(t, y) == Current(s, y))
      && t.cache == s.cache - {CacheKey(x)}
      && t.readers == s.readers && t.now == s.now && t.ttl == s.ttl
  {}

  lemma ReadAgrees(s: State, p: int, x: Subject, loads: bool)
    requires Quiet(s)
    ensures Agrees(Serve(s, Read(p, x, loads)))
  {
    StepAgreesIff(s, Lookup(p, x));
    var s1 := Apply(s, Lookup(p, x));
    if ReaderAt(s1, p).Missed? {
      if loads {
        StepAgreesIff(s1, Load(p));
        StepAgreesIff(Apply(s1, Load(p)), Fill(p));
      } else {
        StepAgreesIff(s1, LoadFails(p));
      }
    }
  }

  ghost function ServeAll(s: State, hs: seq<Handler>): (t: State)
    requires Still(s)
    ensures Still(t)
    decreases |hs|
  {
    if hs == [] then s
    else
      ServeKeepsStill(s, hs[0]);
      ServeAll(Serve(s, hs[0]), hs[1..])
  }

  /** Cached is stored after each of the handlers. */
  ghost predicate AlwaysQuiet(s: State, hs: seq<Handler>)
    requires Still(s)
    decreases |hs|
  {
    Quiet(s) && (hs != [] ==> Still(Serve(s, hs[0])) && AlwaysQuiet(Serve(s, hs[0]), hs[1..]))
  }

  ghost predicate AllHarmless(s: State, hs: seq<Handler>)
    requires Still(s)
    decreases |hs|
  {
    hs != [] ==> Harmless(s, hs[0]) && Still(Serve(s, hs[0])) && AllHarmless(Serve(s, hs[0]), hs[1..])
  }

  /** After every handler of a sequence cached is stored exactly if no bare write among them changes a cached value. */
  lemma {:induction false} HandlersAgreeIff(s: State, hs: seq<Handler>)
    requires Quiet(s)
    ensures AlwaysQuiet(s, hs) <==> AllHarmless(s, hs)
    ensures AlwaysQuiet(s, hs) ==> Quiet(ServeAll(s, hs))
    decreases |hs|
  {
    if hs == [] {
      assert ServeAll(s, hs) == s;
    } else {
      ServeAgreesIff(s, hs[0]);
      if Harmless(s, hs[0]) {
        HandlersAgreeIff(Serve(s, hs[0]), hs[1..]);
      }
    }
  }

  /** No configuration is stored under the name that shares the cache key of `x`. */
  ghost predicate AloneInStore(s: State, x: Subject)
    requires s.history != []
  {
    && (x == Config("") ==> Config("default") !in Store(s))
    && (x == Config("default") ==> Config("") !in Store(s))
  }

  /** After any sequence of harmless handlers, what is cached for a subject is what is stored for it. */
  lemma AtomicHandlersAgree(s: State, hs: seq<Handler>, x: Subject)
    requires Quiet(s) && AllHarmless(s, hs) && AloneInStore(ServeAll(s, hs), x)
    ensures var t := ServeAll(s, hs);
      Quiet(t) && (CacheKey(x) in t.cache ==> Current(t, x) == Some(t.cache[CacheKey(x)].loaded.value))
  {
    HandlersAgreeIff(s, hs);
    var t := ServeAll(s, hs);
    if CacheKey(x) in t.cache {
      KeysCollideIff(x, t.cache[CacheKey(x)].loaded.origin);
      assert !AwaitsInvalidation(t, CacheKey(x));
    }
  }

  /** The exception is real: with a region named "default", a read of one is answered with the other. */
  lemma DefaultRegionAnswersForUnnamed(s: State, p: int, v: Value, w: Value)
    requires Quiet(s) && CacheKey(Config("")) !in s.cache && v != w
    requires Current(s, Config("default")) == Some(v) && Current(s, Config("")) == Some(w)
    ensures var t := Serve(Serve(s, Read(p, Config("default"), true)), Read(p, Config(""), true));
      var r := ReaderAt(t, p);
      r.Answered? && r.subject == Config("") && r.got.Some? && r.got.value.value == v
  {
    assert "config:" + "default" == "config:default";
    var s1 := Serve(s, Read(p, Config("default"), true));
    assert CacheKey(Config("default")) == CacheKey(Config(""));
    assert s1.cache[CacheKey(Config(""))].loaded.value == v;
  }

  /**
   And the condition is needed, from every state: a write that does fall between load and fill,
   invalidation and all, leaves the old value cached with nobody left to remove it.
   */
  lemma DisturbedFillGoesStale(s: State, p: int, w: int, v: Value)
    requires WellFormed(s) && w !in s.pending
    requires ReaderAt(s, p).Holding? && ReaderAt(s, p).got.Some? && ReaderAt(s, p).got.value.value != v
    ensures var x := ReaderAt(s, p).subject;
      var run := [Put(w, x, Some(v)), Invalidate(w), Fill(p)];
      && Possible(s, run)
      && var t := Run(s, run);
      && t.history != [] && t.pending == s.pending && Current(t, x) == Some(v)
      && CacheKey(x) in t.cache && t.cache[CacheKey(x)].loaded.value != v
      && ReaderAt(Apply(t, Lookup(p, x)), p) == Answered(x, Some(t.cache[CacheKey(x)].loaded), t.now, t.now)
  {
    var x := ReaderAt(s, p).subject;
    var run := [Put(w, x, Some(v)), Invalidate(w), Fill(p)];
    var s1 := Apply(s, run[0]);
    var s2 := Apply(s1, run[1]);
    var s3 := Apply(s2, run[2]);
    ThreeSteps(s, run[0], s1, run[1], s2, run[2], s3);
    assert s3.pending == s.pending;
  }

  lemma ThreeSteps(s: State, a: Step, s1: State, b: Step, s2: State, c: Step, s3: State)
    requires s.history != [] && Enabled(s, a) && s1 == Apply(s, a)
    requires s1.history != [] && Enabled(s1, b) && s2 == Apply(s1, b)
    requires s2.history != [] && Enabled(s2, c) && s3 == Apply(s2, c)
    ensures Possible(s, [a, b, c]) && Run(s, [a, b, c]) == s3
  {
    TwoSteps(s1, b, s2, c, s3);
    OneStep(s, a, [b, c]);
    assert [a] + [b, c] == [a, b, c];
  }

  lemma TwoSteps(s: State, a: Step, s1: State, b: Step, s2: State)
    requires s.history != [] && Enabled(s, a) && s1 == Apply(s, a)
    requires s1.history != [] && Enabled(s1, b) && s2 == Apply(s1, b)
    ensures Possible(s, [a, b]) && Run(s, [a, b]) == s2
  {
    OneStep(s1, b, []);
    assert [b] + [] == [b] && [a] + [b] == [a, b];
    OneStep(s, a, [b]);
  }

  lemma OneStep(s: State, step: Step, rest: seq<Step>)
    requires s.history != [] && Enabled(s, step)
    ensures Possible(s, [step] + rest) <==> Possible(Apply(s, step), rest)
    ensures Possible(Apply(s, step), rest) ==> Run(s, [step] + rest) == Run(Apply(s, step), rest)
  {
    assert ([step] + rest)[0] == step && ([step] + rest)[1..] == rest;
  }
}
