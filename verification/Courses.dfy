/**
 The whole course of a retry loop, read off its events: which tries there are, why each is followed
 by another or is the last, and how long the waits between them are.
 */
module Courses {
  import opened Common
  import opened Backoff
  import opened Retry
  import S = Statements

  /** At instant `z` of a trip that began at `n` there is a look at the context and, if that goes on, the operation. */
  ghost predicate Tried(w: World, n: nat, op: nat -> Trip, events: seq<Event>, z: nat) {
    && n <= z < n + |events|
    && events[z - n] == Polled(w.context(z))
    && (w.context(z).None? ==>
          var go := op(z + 1).events;
          z + 1 + |go| <= n + |events| && events[z + 1 - n..z + 1 + |go| - n] == go)
  }

  /** The try at `z`, of that number, fails with an error worth another, which follows a whole wait later. */
  ghost predicate WentOn(
    w: World, n: nat, op: nat -> Trip, worth: Error -> bool, cfg: Config, events: seq<Event>, z: nat, next: nat,
    number: nat)
    requires number >= 1
  {
    && w.context(z).None?
    && op(z + 1).err.Some? && worth(op(z + 1).err.value)
    && next == z + 2 + |op(z + 1).events|
    && n < next <= n + |events|
    && events[next - 1 - n] == Waited(Jittered(Interval(cfg, number), w.dice(next - 1)), None)
    && w.interrupted(next - 1).None?
  }

  /** The try at `z` is the last: the context had ended, no other was needed or allowed, or the wait was cut short. */
  ghost predicate Stopped(
    w: World, n: nat, op: nat -> Trip, worth: Error -> bool, cfg: Config, t: Trip, z: nat, number: nat, max: nat)
    requires number >= 1
  {
    if w.context(z).Some? then t.err == w.context(z) && n + |t.events| == z + 1
    else
      var go, end := op(z + 1), z + 1 + |op(z + 1).events|;
      if go.err.None? || !worth(go.err.value) || number == max then t.err == go.err && n + |t.events| == end
      else
        && w.interrupted(end).Some? && t.err == w.interrupted(end)
        && n + |t.events| == end + 1 && n <= end
        && t.events[end - n] == Waited(Jittered(Interval(cfg, number), w.dice(end)), t.err)
  }

  /** The tries begin at these instants, the first of them with number `first`. */
  ghost predicate Course(
    w: World, n: nat, op: nat -> Trip, worth: Error -> bool, cfg: Config, first: nat, max: nat, t: Trip,
    starts: seq<nat>)
    requires first >= 1
  {
    && 1 <= |starts| <= max - first + 1 && starts[0] == n
    && (forall i :: 0 <= i < |starts| ==> Tried(w, n, op, t.events, starts[i]))
    && (forall i :: 0 <= i < |starts| - 1 ==>
          WentOn(w, n, op, worth, cfg, t.events, starts[i], starts[i + 1], first + i))
    && Stopped(w, n, op, worth, cfg, t, starts[|starts| - 1], first + |starts| - 1, max)
  }

  /** The trips with their tries. */
  ghost function Runs(
    w: World, n: nat, op: nat -> Trip, worth: Error -> bool, cfg: Config, first: nat, max: nat): iset<(Trip, seq<nat>)>
    requires first >= 1
  {
    iset r: (Trip, seq<nat>) | Course(w, n, op, worth, cfg, first, max, r.0, r.1)
  }

  /** Every trip of a retry loop is such a course. */
  lemma {:induction false} LoopedIsACourse(
    w: World, n: nat, op: nat -> Trip, worth: Error -> bool, cfg: Config, max: nat, attempt: nat)
    returns (t: Trip, starts: seq<nat>)
    requires 1 <= attempt <= max
    ensures t == Looped(w, n, op, worth, cfg, max, attempt)
    ensures (t, starts) in Runs(w, n, op, worth, cfg, attempt, max)
    decreases max - attempt
  {
    t := Looped(w, n, op, worth, cfg, max, attempt);
    if StopsHere(w, n, op, worth, cfg, max, attempt) {
      starts := [n];
      StopsAtOnce(w, n, op, worth, cfg, max, attempt);
    } else {
      var m := n + 1 + |op(n + 1).events|;
      var rest, later := LoopedIsACourse(w, m + 1, op, worth, cfg, max, attempt + 1);
      starts := [n] + later;
      GoesOn(w, n, op, worth, cfg, max, attempt, m, rest, later);
    }
  }

  lemma GoesOn(
    w: World, n: nat, op: nat -> Trip, worth: Error -> bool, cfg: Config, max: nat, attempt: nat, m: nat, rest: Trip,
    later: seq<nat>)
    requires 1 <= attempt < max && m == n + 1 + |op(n + 1).events|
    requires !StopsHere(w, n, op, worth, cfg, max, attempt)
    requires rest == Looped(w, m + 1, op, worth, cfg, max, attempt + 1)
    requires (rest, later) in Runs(w, m + 1, op, worth, cfg, attempt + 1, max)
    ensures (Looped(w, n, op, worth, cfg, max, attempt), [n] + later) in Runs(w, n, op, worth, cfg, attempt, max)
  {
    TriesAgain(w, n, op, worth, cfg, max, attempt);
    OneTryBefore(w, n, op, worth, cfg, max, attempt, m, rest, later);
  }

  /** No other try follows the one at `n`. */
  ghost predicate StopsHere(
    w: World, n: nat, op: nat -> Trip, worth: Error -> bool, cfg: Config, max: nat, attempt: nat)
  {
    || w.context(n).Some? || Ends(op(n + 1), worth, attempt == max)
    || w.interrupted(n + 1 + |op(n + 1).events|).Some?
  }

  lemma TriesAgain(
    w: World, n: nat, op: nat -> Trip, worth: Error -> bool, cfg: Config, max: nat, attempt: nat)
    requires 1 <= attempt <= max && !StopsHere(w, n, op, worth, cfg, max, attempt)
    ensures var m := n + 1 + |op(n + 1).events|;
      && attempt < max
      && Looped(w, n, op, worth, cfg, max, attempt) ==
         Before(op(n + 1), WaitAt(w, m, cfg, attempt), Looped(w, m + 1, op, worth, cfg, max, attempt + 1))
  {}

  lemma StopsAtOnce(
    w: World, n: nat, op: nat -> Trip, worth: Error -> bool, cfg: Config, max: nat, attempt: nat)
    requires 1 <= attempt <= max && StopsHere(w, n, op, worth, cfg, max, attempt)
    ensures (Looped(w, n, op, worth, cfg, max, attempt), [n]) in Runs(w, n, op, worth, cfg, attempt, max)
  {
    var t := Looped(w, n, op, worth, cfg, max, attempt);
    var go := op(n + 1);
    if w.context(n).None? {
      assert t.events[1..1 + |go.events|] == go.events;
    }
    assert Tried(w, n, op, t.events, n);
    assert Stopped(w, n, op, worth, cfg, t, n, attempt, max);
  }

  lemma OneTryBefore(
    w: World, n: nat, op: nat -> Trip, worth: Error -> bool, cfg: Config, max: nat, attempt: nat, m: nat, rest: Trip,
    later: seq<nat>)
    requires 1 <= attempt < max && m == n + 1 + |op(n + 1).events|
    requires !StopsHere(w, n, op, worth, cfg, max, attempt)
    requires (rest, later) in Runs(w, m + 1, op, worth, cfg, attempt + 1, max)
    ensures (Before(op(n + 1), WaitAt(w, m, cfg, attempt), rest), [n] + later)
      in Runs(w, n, op, worth, cfg, attempt, max)
  {
    var go := op(n + 1);
    var wait := WaitAt(w, m, cfg, attempt);
    var t := Before(go, wait, rest);
    var starts := [n] + later;
    var front := [Polled(None)] + go.events + [wait];
    assert t.events == front + rest.events && |front| == m + 1 - n;
    FirstTry(w, n, op, worth, cfg, attempt, rest);
    AllTried(w, n, op, front, rest.events, later);
    AllWentOn(w, n, op, worth, cfg, front, rest.events, attempt, later);
    assert starts[|starts| - 1] == later[|later| - 1];
    StoppedLater(w, n, op, worth, cfg, t, front, rest, later[|later| - 1], attempt + |later|, max);
  }

  lemma AllTried(w: World, n: nat, op: nat -> Trip, front: seq<Event>, events: seq<Event>, later: seq<nat>)
    requires Tried(w, n, op, front + events, n)
    requires forall i :: 0 <= i < |later| ==> Tried(w, n + |front|, op, events, later[i])
    ensures var starts := [n] + later; forall i :: 0 <= i < |starts| ==> Tried(w, n, op, front + events, starts[i])
  {
    forall i | 0 <= i < |later| ensures Tried(w, n, op, front + events, later[i]) {
      TriedLater(w, n, op, front, events, later[i]);
    }
  }

  lemma AllWentOn(
    w: World, n: nat, op: nat -> Trip, worth: Error -> bool, cfg: Config, front: seq<Event>, events: seq<Event>,
    attempt: nat, later: seq<nat>)
    requires attempt >= 1 && later != []
    requires WentOn(w, n, op, worth, cfg, front + events, n, later[0], attempt)
    requires forall i :: 0 <= i < |later| - 1 ==>
      WentOn(w, n + |front|, op, worth, cfg, events, later[i], later[i + 1], attempt + 1 + i)
    ensures var starts := [n] + later;
      forall i :: 0 <= i < |starts| - 1 ==>
        WentOn(w, n, op, worth, cfg, front + events, starts[i], starts[i + 1], attempt + i)
  {
    var starts := [n] + later;
    forall i | 0 <= i < |starts| - 1
      ensures WentOn(w, n, op, worth, cfg, front + events, starts[i], starts[i + 1], attempt + i)
    {
      if i > 0 {
        assert starts[i] == later[i - 1] && starts[i + 1] == later[i];
        WentOnLater(w, n, op, worth, cfg, front, events, later[i - 1], later[i], attempt + 1 + (i - 1));
      }
    }
  }

  lemma FirstTry(w: World, n: nat, op: nat -> Trip, worth: Error -> bool, cfg: Config, attempt: nat, rest: Trip)
    requires attempt >= 1
    requires w.context(n).None? && op(n + 1).err.Some? && worth(op(n + 1).err.value)
    requires w.interrupted(n + 1 + |op(n + 1).events|).None?
    ensures var m := n + 1 + |op(n + 1).events|;
      var t := Before(op(n + 1), WaitAt(w, m, cfg, attempt), rest);
      Tried(w, n, op, t.events, n) && WentOn(w, n, op, worth, cfg, t.events, n, m + 1, attempt)
  {
    var go := op(n + 1);
    var t := Before(go, WaitAt(w, n + 1 + |go.events|, cfg, attempt), rest);
    assert t.events[1..1 + |go.events|] == go.events;
  }

  lemma WentOnLater(
    w: World, n: nat, op: nat -> Trip, worth: Error -> bool, cfg: Config, front: seq<Event>, events: seq<Event>, z: nat,
    next: nat, number: nat)
    requires number >= 1 && WentOn(w, n + |front|, op, worth, cfg, events, z, next, number)
    ensures WentOn(w, n, op, worth, cfg, front + events, z, next, number)
  {
    assert (front + events)[next - 1 - n] == events[next - 1 - (n + |front|)];
  }

  lemma StoppedLater(
    w: World, n: nat, op: nat -> Trip, worth: Error -> bool, cfg: Config, t: Trip, front: seq<Event>, rest: Trip,
    z: nat, number: nat, max: nat)
    requires number >= 1 && t.events == front + rest.events && t.err == rest.err
    requires Stopped(w, n + |front|, op, worth, cfg, rest, z, number, max)
    ensures Stopped(w, n, op, worth, cfg, t, z, number, max)
  {
    var end := z + 1 + |op(z + 1).events|;
    if end - n < |t.events| && end >= n + |front| {
      assert t.events[end - n] == rest.events[end - (n + |front|)];
    }
  }

  lemma TriedLater(w: World, n: nat, op: nat -> Trip, front: seq<Event>, events: seq<Event>, z: nat)
    requires Tried(w, n + |front|, op, events, z)
    ensures Tried(w, n, op, front + events, z)
  {
    var all, k := front + events, n + |front|;
    assert all[z - n] == events[z - k];
    if w.context(z).None? {
      var go := op(z + 1).events;
      assert all[z + 1 - n..z + 1 + |go| - n] == events[z + 1 - k..z + 1 + |go| - k];
    }
  }

  /** A connection's own retries: goes at the script, each but the last failed with a message worth another. */
  lemma MultipleIsACourse(w: World, n: nat, sql: string, q: Config) returns (starts: seq<nat>)
    requires Effective(sql, q)
    ensures var op := OnceOp(w, S.Script(S.Statements(sql)));
      (Multiple(w, n, sql, true, q), starts) in Runs(w, n, op, RetryableByText, q, 1, q.maxAttempts)
  {
    var t;
    t, starts := LoopedIsACourse(w, n, OnceOp(w, S.Script(S.Statements(sql))), RetryableByText, q, q.maxAttempts, 1);
  }

  /** The outer loop: connections, each but the last lost to an error of a kind worth another. */
  lemma WholeIsACourse(w: World, n: nat, cfg: Config, sql: string, q: Config) returns (starts: seq<nat>)
    ensures var most := if cfg.maxAttempts <= 0 then 3 else cfg.maxAttempts;
      (Whole(w, n, cfg, sql, q), starts) in Runs(w, n, ConnectOp(w, sql, q), RetryableByKind, cfg, 1, most)
  {
    var t;
    t, starts := LoopedIsACourse(w, n, ConnectOp(w, sql, q), RetryableByKind, cfg, Attempts(cfg), 1);
  }

  /** One go at a script: each statement at its instant, up to the first that fails, which is the answer. */
  lemma GoIs(w: World, n: nat, script: seq<string>)
    ensures var t := OnceOp(w, script)(n);
      && |t.events| <= |script|
      && (forall i :: 0 <= i < |t.events| ==> t.events[i] == Sent(Sending(script[i], w.reply(n + i))))
      && (forall i :: 0 <= i < |t.events| - 1 ==> AnswerTo(t.events[i]).None?)
      && (t.err.None? ==> |t.events| == |script|)
      && (t.err.Some? ==> t.events != [])
      && (t.events != [] ==> t.err == w.reply(n + |t.events| - 1))
  {
    SendAllIs(w, n, script);
  }

  /** One try of the outer loop: a connection, and the connection's own retries behind it if there is one. */
  lemma TryIs(w: World, n: nat, sql: string, q: Config)
    ensures var t := ConnectOp(w, sql, q)(n);
      if w.connecting(n).Some? then t.events == [Connected(w.connecting(n))] && t.err == w.connecting(n)
      else
        var sent := Multiple(w, n + 1, sql, true, q);
        t.events == [Connected(None)] + sent.events && t.err == sent.err
  {}

  /** Without a connection the script is refused; without text, or without a go allowed, there is nothing to send. */
  lemma NothingToSend(w: World, n: nat, sql: string, connected: bool, q: Config)
    requires !connected || !Effective(sql, q)
    ensures var t := Multiple(w, n, sql, connected, q);
      t.events == [] && t.err == if connected then None else Some(Plain("not connected"))
  {}

  /** Sending a script: each statement at its instant, up to the first that fails. */
  lemma {:induction false} SendAllIs(w: World, n: nat, script: seq<string>)
    ensures var round := SendAll(w, n, script);
      && |round| <= |script|
      && (forall i :: 0 <= i < |round| ==> round[i] == Sending(script[i], w.reply(n + i)))
      && (forall i :: 0 <= i < |round| - 1 ==> round[i].reply.None?)
      && (|round| < |script| ==> round != [] && round[|round| - 1].reply.Some?)
    decreases |script|
  {
    if script != [] && w.reply(n).None? {
      SendAllIs(w, n + 1, script[1..]);
      var rest := SendAll(w, n + 1, script[1..]);
      var round := [Sending(script[0], None)] + rest;
      forall i | 1 <= i < |round| ensures round[i] == Sending(script[i], w.reply(n + i)) {
        assert round[i] == rest[i - 1] && script[i] == script[1..][i - 1] && n + 1 + (i - 1) == n + i;
      }
      forall i | 0 <= i < |round| - 1 ensures round[i].reply.None? {
        assert i > 0 ==> round[i] == rest[i - 1];
      }
    }
  }

  // ----- which errors are worth another try -----------------------------------------------

  ghost predicate Joins(a: string, part: string, b: string, s: string) {
    s == a + part + b
  }

  lemma ContainsIff(s: string, part: string)
    ensures Contains(s, part) <==> exists a, b :: Joins(a, part, b, s)
  {
    if Contains(s, part) {
      var i :| 0 <= i <= |s| && part <= s[i..];
      assert Joins(s[..i], part, s[i + |part|..], s);
    }
    if a, b :| Joins(a, part, b, s) {
      assert s[|a|..] == part + b;
    }
  }

  /** The message of an error contains one of these. */
  ghost predicate Mentions(e: Error, words: seq<string>) {
    exists k, a, b :: 0 <= k < |words| && Joins(a, words[k], b, e.Message())
  }

  /** A connection looks for one of fifteen indicators in the message; the outer loop goes by the kind first. */
  lemma WorthAnotherTry(e: Error)
    ensures e.Message() == if e.NotConnected? then "not connected" else e.text
    ensures RetryableByText(e) <==> Mentions(e,
      ["ECONNREFUSED", "ECONNRESET", "ETIMEDOUT", "ENETUNREACH", "EHOSTUNREACH", "connection refused",
       "connection reset", "timeout", "temporary failure", "server declined", "unable to connect", "deadlock",
       "lock contention", "resource unavailable", "table is busy"])
    ensures match e
      case NotConnected => RetryableByKind(e)
      case Marked(transient, _) => RetryableByKind(e) <==> transient
      case Address(temporary, timeout, _) => RetryableByKind(e) <==> temporary || timeout
      case Plain(_) => RetryableByKind(e) <==> RetryableByText(e)
  {
    var text := e.Message();
    forall k | 0 <= k < |INDICATORS|
      ensures Contains(e.Message(), INDICATORS[k]) <==> exists a, b :: Joins(a, INDICATORS[k], b, e.Message())
    {
      ContainsIff(e.Message(), INDICATORS[k]);
    }
    if e.Plain? {
      PredicatesAgreeOnPlain(e.text);
    }
  }
}
