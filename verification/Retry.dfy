/**
 The two retry loops around a script: a connection's own, which starts the script again after a
 transient error, and the outer one, which connects again and starts all over. Both are one
 algorithm; here it is a function of what the outside answers, and its properties are proved.
 */
module Retry {
  import opened Common
  import opened Text
  import opened Backoff
  import S = Statements

  /** Errors, as far as the loops tell them apart. */
  datatype Error =
    | Plain(text: string)
    | NotConnected
    | Marked(transient: bool, text: string)
    | Address(temporary: bool, timeout: bool, text: string)
  {
    function Message(): string {
      match this
      case Plain(text) => text
      case NotConnected => "not connected"
      case Marked(_, text) => text
      case Address(_, _, text) => text
    }
  }

  predicate Contains(s: string, part: string) {
    exists i :: 0 <= i <= |s| && part <= s[i..]
  }

  const INDICATORS: seq<string> := [
    "ECONNREFUSED", "ECONNRESET", "ETIMEDOUT", "ENETUNREACH", "EHOSTUNREACH",
    "connection refused", "connection reset", "timeout", "temporary failure",
    "server declined", "unable to connect", "deadlock", "lock contention",
    "resource unavailable", "table is busy"
  ]

  predicate Indicated(text: string, indicators: seq<string>) {
    exists k :: 0 <= k < |indicators| && Contains(text, indicators[k])
  }

  /** The connection's own predicate looks at the message only. */
  predicate RetryableByText(e: Error) {
    Indicated(e.Message(), INDICATORS)
  }

  /** The outer loop's predicate looks at the kind of error first, and knows one more indicator. */
  predicate RetryableByKind(e: Error) {
    match e
    case NotConnected => true
    case Marked(transient, _) => transient
    case Address(temporary, timeout, _) => temporary || timeout
    case Plain(text) => Indicated(text, INDICATORS + ["transaction was deadlocked"])
  }

  lemma ContainsPart(s: string, part: string, k: nat, inner: string)
    requires Contains(s, part) && k <= |part| && inner <= part[k..]
    ensures Contains(s, inner)
  {
    var i :| 0 <= i <= |s| && part <= s[i..];
    assert s[i..][..|part|] == part;
    assert part[k..][..|inner|] == s[i + k..][..|inner|];
    assert inner <= s[i + k..];
  }

  /** On plain messages the two predicates agree; the extra indicator adds nothing. */
  lemma PredicatesAgreeOnPlain(text: string)
    ensures RetryableByText(Plain(text)) <==> RetryableByKind(Plain(text))
  {
    var more := INDICATORS + ["transaction was deadlocked"];
    if Indicated(text, INDICATORS) {
      var k :| 0 <= k < |INDICATORS| && Contains(text, INDICATORS[k]);
      assert more[k] == INDICATORS[k];
    }
    if Indicated(text, more) {
      var k :| 0 <= k < |more| && Contains(text, more[k]);
      if k < |INDICATORS| {
        assert more[k] == INDICATORS[k];
      } else {
        assert "deadlock" <= "transaction was deadlocked"[16..];
        ContainsPart(text, "transaction was deadlocked", 16, "deadlock");
        assert INDICATORS[11] == "deadlock";
      }
    }
  }

  /** One statement sent, and the driver's answer; None is success. */
  datatype Sending = Sending(statement: string, reply: Option<Error>)

  /** One go at the script: it is sent in order, and only a failure cuts it short. */
  ghost predicate IsRound(script: seq<string>, round: seq<Sending>) {
    && |round| <= |script|
    && (forall i :: 0 <= i < |round| ==> round[i].statement == script[i])
    && (forall i :: 0 <= i < |round| - 1 ==> round[i].reply.None?)
    && (|round| < |script| ==> round != [] && round[|round| - 1].reply.Some?)
  }

  ghost predicate Complete(script: seq<string>, round: seq<Sending>) {
    IsRound(script, round) && (round == [] || round[|round| - 1].reply.None?)
  }

  ghost predicate FailedWith(round: seq<Sending>, e: Error) {
    round != [] && round[|round| - 1].reply == Some(e)
  }

  /** An error that one of the two loops takes as worth another try. */
  predicate Transient(e: Error) {
    RetryableByText(e) || RetryableByKind(e)
  }

  ghost predicate FailedTransiently(transient: Error -> bool, round: seq<Sending>) {
    round != [] && round[|round| - 1].reply.Some? && transient(round[|round| - 1].reply.value)
  }

  /** Goes at a script: each but the last failed with an error worth another try. */
  ghost predicate Rounds(transient: Error -> bool, script: seq<string>, rounds: seq<seq<Sending>>) {
    && (forall i :: 0 <= i < |rounds| ==> IsRound(script, rounds[i]))
    && (forall i :: 0 <= i < |rounds| - 1 ==> FailedTransiently(transient, rounds[i]))
  }

  /** What was sent, without the answers. */
  function Texts(trace: seq<Sending>): (texts: seq<string>)
    ensures |texts| == |trace|
    ensures forall i :: 0 <= i < |trace| ==> texts[i] == trace[i].statement
  {
    seq(|trace|, i requires 0 <= i < |trace| => trace[i].statement)
  }

  function Prefixes(script: seq<string>, lengths: seq<nat>): seq<string>
    requires forall i :: 0 <= i < |lengths| ==> lengths[i] <= |script|
  {
    if lengths == [] then [] else script[..lengths[0]] + Prefixes(script, lengths[1..])
  }

  /** The statements sent are prefixes of the script, one after the other. */
  lemma {:induction false} SentArePrefixes(
    transient: Error -> bool, script: seq<string>, rounds: seq<seq<Sending>>) returns (lengths: seq<nat>)
    requires Rounds(transient, script, rounds)
    ensures |lengths| == |rounds| && forall i :: 0 <= i < |rounds| ==> lengths[i] == |rounds[i]| <= |script|
    ensures Texts(Flat(rounds)) == Prefixes(script, lengths)
  {
    if rounds == [] {
      lengths := [];
    } else {
      assert Rounds(transient, script, rounds[1..]);
      var rest := SentArePrefixes(transient, script, rounds[1..]);
      lengths := [|rounds[0]|] + rest;
      assert lengths[1..] == rest;
      RoundIsPrefix(script, rounds[0]);
      TextsConcat(rounds[0], Flat(rounds[1..]));
    }
  }

  lemma RoundIsPrefix(script: seq<string>, round: seq<Sending>)
    requires IsRound(script, round)
    ensures Texts(round) == script[..|round|]
  {}

  lemma TextsConcat(a: seq<Sending>, b: seq<Sending>)
    ensures Texts(a + b) == Texts(a) + Texts(b)
  {}

  /** A script that ended well is the last thing sent, whole and without a failure. */
  lemma CompleteIsSentLast(script: seq<string>, before: seq<seq<Sending>>, last: seq<Sending>)
    requires Complete(script, last)
    ensures Flat(before + [last]) == Flat(before) + Succeeding(script)
  {
    FlatOne(before, last);
    CompleteRound(script, last);
  }

  function Succeeding(script: seq<string>): seq<Sending> {
    seq(|script|, i requires 0 <= i < |script| => Sending(script[i], None))
  }

  lemma CompleteRound(script: seq<string>, round: seq<Sending>)
    requires Complete(script, round)
    ensures round == Succeeding(script)
  {
    assert |round| == |script|;
  }

  /** Where no statement fails, the script is sent once. */
  lemma WithoutFailureOneRound(transient: Error -> bool, script: seq<string>, rounds: seq<seq<Sending>>)
    requires Rounds(transient, script, rounds)
    requires forall k :: 0 <= k < |Flat(rounds)| ==> Flat(rounds)[k].reply.None?
    ensures |rounds| <= 1
    ensures |rounds| == 1 ==> Texts(Flat(rounds)) == script
  {
    if |rounds| > 0 {
      var first, rest := rounds[0], Flat(rounds[1..]);
      assert IsRound(script, first);
      assert Flat(rounds) == first + rest;
      var n := |first| - 1;
      assert first != [] ==> Flat(rounds)[n] == first[n];
      assert |rounds| > 1 ==> FailedTransiently(transient, first);
      assert |rounds| == 1 ==> Flat(rounds) == first;
    }
  }

  /** What the database, the network, the context and the dice answer at each instant. */
  datatype World = World(
    context: nat -> Option<Error>,
    connecting: nat -> Option<Error>,
    reply: nat -> Option<Error>,
    interrupted: nat -> Option<Error>,
    dice: nat -> real)

  ghost predicate FairDice(w: World) {
    forall n: nat :: 0.0 <= w.dice(n) < 1.0
  }

  /** One exchange with the outside, which takes one instant. */
  datatype Event =
    | Polled(answer: Option<Error>)
    | Connected(answer: Option<Error>)
    | Sent(sending: Sending)
    | Waited(length: real, answer: Option<Error>)

  function AnswerTo(e: Event): Option<Error> {
    if e.Sent? then e.sending.reply else e.answer
  }

  /**
   What a loop does from some instant on: the events, in order, and the error returned. The goes
   at the script, the number of tries and the waits between them are read off on the way.
   */
  datatype Trip = Trip(
    events: seq<Event>, err: Option<Error>, rounds: seq<seq<Sending>>, tries: nat, waits: seq<real>)

  /** The statements sent from instant `n` on: all of them, or up to the first failure. */
  function SendAll(w: World, n: nat, script: seq<string>): seq<Sending>
    decreases |script|
  {
    if script == [] then []
    else
      var s := Sending(script[0], w.reply(n));
      if s.reply.Some? then [s] else [s] + SendAll(w, n + 1, script[1..])
  }

  /** nil exactly if no statement failed; otherwise the error of the last one sent. */
  function AnswerOf(round: seq<Sending>): Option<Error> {
    if round == [] then None else round[|round| - 1].reply
  }

  function Sents(round: seq<Sending>): (events: seq<Event>)
    ensures |events| == |round|
    ensures forall i :: 0 <= i < |round| ==> events[i] == Sent(round[i])
  {
    seq(|round|, i requires 0 <= i < |round| => Sent(round[i]))
  }

  function Once(w: World, n: nat, script: seq<string>): Trip {
    var round := SendAll(w, n, script);
    Trip(Sents(round), AnswerOf(round), [round], 1, [])
  }

  /** The context had ended before the try. */
  function Refused(done: Option<Error>): Trip {
    Trip([Polled(done)], done, [], 0, [])
  }

  /** The try is the last. */
  function Final(go: Trip): Trip {
    Trip([Polled(None)] + go.events, go.err, go.rounds, 1, [])
  }

  /** The wait after the try was cut short. */
  function CutShort(go: Trip, wait: Event): Trip
    requires wait.Waited?
  {
    Trip([Polled(None)] + go.events + [wait], wait.answer, go.rounds, 1, [wait.length])
  }

  /** The try, the wait, and what comes after. */
  function Before(go: Trip, wait: Event, rest: Trip): Trip
    requires wait.Waited?
  {
    Trip(
      [Polled(None)] + go.events + [wait] + rest.events, rest.err, go.rounds + rest.rounds, 1 + rest.tries,
      [wait.length] + rest.waits)
  }

  function WaitAt(w: World, n: nat, cfg: Config, attempt: nat): (wait: Event)
    requires attempt >= 1
    ensures wait.Waited?
  {
    Waited(Jittered(Interval(cfg, attempt), w.dice(n)), w.interrupted(n))
  }

  /** A try after which there is no other. */
  predicate Ends(go: Trip, worth: Error -> bool, last: bool) {
    go.err.None? || !worth(go.err.value) || last
  }

  /**
   The algorithm both loops share, from try number `attempt` on: look whether the context has
   ended, do the operation, and wait before the next try if its error is worth one.
   */
  function Looped(
    w: World, n: nat, op: nat -> Trip, worth: Error -> bool, cfg: Config, max: nat, attempt: nat): (t: Trip)
    requires 1 <= attempt <= max
    decreases max - attempt
  {
    if w.context(n).Some? then Refused(w.context(n))
    else
      var go := op(n + 1);
      if Ends(go, worth, attempt == max) then Final(go)
      else
        var m := n + 1 + |go.events|;
        var wait := WaitAt(w, m, cfg, attempt);
        if wait.answer.Some? then CutShort(go, wait)
        else Before(go, wait, Looped(w, m + 1, op, worth, cfg, max, attempt + 1))
  }

  function OnceOp(w: World, script: seq<string>): nat -> Trip {
    (n: nat) => Once(w, n, script)
  }

  /** A connection's own retries; `q` has no default for the number of tries. */
  function Multiple(w: World, n: nat, sql: string, connected: bool, q: Config): Trip {
    if !connected then Trip([], Some(Plain("not connected")), [], 0, [])
    else if Trim(sql) == "" || q.maxAttempts <= 0 then Trip([], None, [], 0, [])
    else Looped(w, n, OnceOp(w, S.Script(S.Statements(sql))), RetryableByText, q, q.maxAttempts, 1)
  }

  /** One try of the outer loop: connect, and send the script. */
  function ConnectAndSend(w: World, n: nat, sql: string, q: Config): Trip {
    var err := w.connecting(n);
    if err.Some? then Trip([Connected(err)], err, [], 1, [])
    else
      var sent := Multiple(w, n + 1, sql, true, q);
      sent.(events := [Connected(None)] + sent.events)
  }

  function ConnectOp(w: World, sql: string, q: Config): nat -> Trip {
    (n: nat) => ConnectAndSend(w, n, sql, q)
  }

  /** executeSQL: up to `cfg.maxAttempts` connections, each with its own retries. */
  function Whole(w: World, n: nat, cfg: Config, sql: string, q: Config): Trip {
    Looped(w, n, ConnectOp(w, sql, q), RetryableByKind, cfg, Attempts(cfg), 1)
  }

  // ----- what is sent ---------------------------------------------------------------------

  function SentIn(events: seq<Event>): seq<Sending> {
    if events == [] then []
    else (if events[0].Sent? then [events[0].sending] else []) + SentIn(events[1..])
  }

  lemma {:induction false} SentInConcat(a: seq<Event>, b: seq<Event>)
    ensures SentIn(a + b) == SentIn(a) + SentIn(b)
  {
    if a == [] {
      assert a + b == b;
    } else {
      SentInConcat(a[1..], b);
      Behead(a, b);
      Regroup(if a[0].Sent? then [a[0].sending] else [], SentIn(a[1..]), SentIn(b));
    }
  }

  lemma SentInOne(e: Event)
    ensures SentIn([e]) == if e.Sent? then [e.sending] else []
  {
    assert [e][1..] == [];
  }

  lemma {:induction false} SentInSents(round: seq<Sending>)
    ensures SentIn(Sents(round)) == round
  {
    if round == [] {
    } else {
      SentInSents(round[1..]);
      assert Sents(round)[1..] == Sents(round[1..]);
      assert [round[0]] + round[1..] == round;
    }
  }

  /** Events without a statement in them do not end in one. */
  lemma NothingSent(events: seq<Event>)
    requires events != [] && SentIn(events) == []
    ensures !events[|events| - 1].Sent?
  {
    var n := |events| - 1;
    SentInConcat(events[..n], [events[n]]);
    SentInOne(events[n]);
    assert events[..n] + [events[n]] == events;
  }

  lemma {:induction false} SendAllIsRound(w: World, n: nat, script: seq<string>)
    ensures IsRound(script, SendAll(w, n, script))
    decreases |script|
  {
    if script != [] && w.reply(n).None? {
      SendAllIsRound(w, n + 1, script[1..]);
      var rest := SendAll(w, n + 1, script[1..]);
      var round := [Sending(script[0], None)] + rest;
      assert forall i :: 1 <= i < |round| ==> round[i] == rest[i - 1];
    }
  }

  /**
   The answer after some goes at the script. nil comes after a complete go; an error is the answer
   to the very last event, and where that was no statement the last go had failed transiently.
   */
  ghost predicate Answers(transient: Error -> bool, script: seq<string>, t: Trip) {
    match t.err
    case None => t.rounds != [] ==> Complete(script, t.rounds[|t.rounds| - 1])
    case Some(e) =>
      && t.events != []
      && AnswerTo(t.events[|t.events| - 1]) == Some(e)
      && (t.rounds != [] ==>
            var last := t.rounds[|t.rounds| - 1];
            if t.events[|t.events| - 1].Sent? then FailedWith(last, e) else FailedTransiently(transient, last))
  }

  /**
   All that is sent are goes at the script, at most `most` of them. `effective` says that an
   answer of nil takes one.
   */
  ghost predicate Good(
    transient: Error -> bool, t: Trip, script: seq<string>, most: nat, effective: bool)
  {
    && Rounds(transient, script, t.rounds)
    && Answers(transient, script, t)
    && SentIn(t.events) == Flat(t.rounds)
    && |t.rounds| <= most
    && (t.rounds != [] ==> effective)
    && (t.err.None? && effective ==> t.rounds != [])
  }

  ghost function Trips(transient: Error -> bool, script: seq<string>, most: nat, effective: bool): iset<Trip> {
    iset t: Trip | Good(transient, t, script, most, effective)
  }

  lemma OnceIsGood(transient: Error -> bool, w: World, n: nat, script: seq<string>)
    ensures Once(w, n, script) in Trips(transient, script, 1, true)
  {
    var round := SendAll(w, n, script);
    SendAllIsRound(w, n, script);
    SentInSents(round);
    FlatSingle(round);
  }

  /** A failed try, the wait, and what comes after. */
  lemma BeforeIsGood(
    transient: Error -> bool, go: Trip, e: Error, wait: Event, rest: Trip, script: seq<string>, most: nat,
    more: nat, effective: bool)
    requires go in Trips(transient, script, most, effective) && go.err == Some(e)
    requires transient(e)
    requires rest in Trips(transient, script, more, effective) && wait.Waited?
    ensures Before(go, wait, rest) in Trips(transient, script, most + more, effective)
  {
    var t := Before(go, wait, rest);
    MoreRounds(transient, script, go.rounds, rest.rounds);
    TurnSends(go.events, wait);
    SentInConcat([Polled(None)] + go.events + [wait], rest.events);
    BeforeAnswers(transient, go, e, wait, rest, script);
  }

  lemma BeforeAnswers(transient: Error -> bool, go: Trip, e: Error, wait: Event, rest: Trip, script: seq<string>)
    requires Answers(transient, script, go) && go.err == Some(e) && transient(e)
    requires Answers(transient, script, rest) && wait.Waited? && SentIn(rest.events) == Flat(rest.rounds)
    requires rest.err.None? && go.rounds != [] ==> rest.rounds != []
    ensures Answers(transient, script, Before(go, wait, rest))
  {
    var t := Before(go, wait, rest);
    assert rest.rounds != [] ==> t.rounds[|t.rounds| - 1] == rest.rounds[|rest.rounds| - 1];
    assert rest.rounds == [] ==> t.rounds == go.rounds;
    if rest.err.Some? {
      assert t.events[|t.events| - 1] == rest.events[|rest.events| - 1];
      if rest.rounds == [] {
        NothingSent(rest.events);
      }
    }
  }

  lemma TurnSends(events: seq<Event>, wait: Event)
    requires wait.Waited?
    ensures SentIn([Polled(None)] + events + [wait]) == SentIn(events)
    ensures SentIn([Polled(None)] + events) == SentIn(events)
  {
    SentInConcat([Polled(None)] + events, [wait]);
    SentInConcat([Polled(None)], events);
    SentInOne(Polled(None));
    SentInOne(wait);
    assert [] + SentIn(events) == SentIn(events) && SentIn(events) + [] == SentIn(events);
  }

  lemma FinalIsGood(
    transient: Error -> bool, go: Trip, script: seq<string>, most: nat, more: nat, effective: bool)
    requires go in Trips(transient, script, most, effective) && most <= more
    ensures Final(go) in Trips(transient, script, more, effective)
  {
    TurnSends(go.events, Waited(0.0, None));
  }

  lemma CutShortIsGood(
    transient: Error -> bool, go: Trip, e: Error, wait: Event, script: seq<string>, most: nat, more: nat,
    effective: bool)
    requires go in Trips(transient, script, most, effective) && go.err == Some(e) && most <= more
    requires transient(e)
    requires wait.Waited? && wait.answer.Some?
    ensures CutShort(go, wait) in Trips(transient, script, more, effective)
  {
    TurnSends(go.events, wait);
  }

  lemma RefusedIsGood(transient: Error -> bool, done: Option<Error>, script: seq<string>, most: nat, effective: bool)
    requires done.Some?
    ensures Refused(done) in Trips(transient, script, most, effective)
  {
    SentInOne(Polled(done));
  }

  /**
   What it takes for a family of sets of trips to hold every loop: with the trips of the operation
   in the first set, each way a turn can end leads from one set into the next.
   */
  ghost predicate Closed(ok: nat -> iset<Trip>, worth: Error -> bool, k: nat)
    requires k >= 1
  {
    && (forall done: Option<Error> :: done.Some? ==> Refused(done) in ok(k))
    && (forall go: Trip :: go in ok(1) ==> Final(go) in ok(k))
    && (forall go: Trip, wait: Event :: go in ok(1) && !Ends(go, worth, false) && wait.Waited? ==>
          (wait.answer.Some? ==> CutShort(go, wait) in ok(k)) &&
          (k > 1 ==> forall rest: Trip :: rest in ok(k - 1) ==> Before(go, wait, rest) in ok(k)))
  }

  /** The induction over the tries of a loop. */
  lemma {:induction false} LoopedStaysIn(
    w: World, n: nat, op: nat -> Trip, worth: Error -> bool, cfg: Config, max: nat, attempt: nat,
    ok: nat -> iset<Trip>)
    requires 1 <= attempt <= max
    requires forall m: nat :: op(m) in ok(1)
    requires forall k: nat :: k >= 1 ==> Closed(ok, worth, k)
    ensures Looped(w, n, op, worth, cfg, max, attempt) in ok(max - attempt + 1)
    decreases max - attempt
  {
    var go := op(n + 1);
    var m := n + 1 + |go.events|;
    var wait := WaitAt(w, m, cfg, attempt);
    if w.context(n).None? && !Ends(go, worth, attempt == max) && wait.answer.None? {
      LoopedStaysIn(w, m + 1, op, worth, cfg, max, attempt + 1, ok);
      TurnStaysIn(go, wait, Looped(w, m + 1, op, worth, cfg, max, attempt + 1), worth, ok, max - attempt + 1);
    } else {
      EndStaysIn(go, wait, w.context(n), worth, ok, max - attempt + 1);
    }
  }

  lemma TurnStaysIn(go: Trip, wait: Event, rest: Trip, worth: Error -> bool, ok: nat -> iset<Trip>, k: nat)
    requires k > 1 && go in ok(1) && !Ends(go, worth, false) && wait.Waited? && rest in ok(k - 1)
    requires forall i: nat :: i >= 1 ==> Closed(ok, worth, i)
    ensures Before(go, wait, rest) in ok(k)
  {
    assert Closed(ok, worth, k);
  }

  lemma EndStaysIn(
    go: Trip, wait: Event, done: Option<Error>, worth: Error -> bool, ok: nat -> iset<Trip>, k: nat)
    requires k >= 1 && go in ok(1) && wait.Waited?
    requires forall i: nat :: i >= 1 ==> Closed(ok, worth, i)
    ensures done.Some? ==> Refused(done) in ok(k)
    ensures Final(go) in ok(k)
    ensures !Ends(go, worth, false) && wait.answer.Some? ==> CutShort(go, wait) in ok(k)
  {
    assert Closed(ok, worth, k);
  }

  lemma LoopedIsGood(
    transient: Error -> bool, w: World, n: nat, op: nat -> Trip, worth: Error -> bool, cfg: Config, max: nat,
    script: seq<string>, most: nat, effective: bool)
    requires 1 <= max
    requires forall m: nat :: op(m) in Trips(transient, script, most, effective)
    requires forall e :: worth(e) ==> transient(e)
    ensures Looped(w, n, op, worth, cfg, max, 1) in Trips(transient, script, Times(max, most), effective)
  {
    ghost var ok := (k: nat) => Trips(transient, script, Times(k, most), effective);
    assert Times(1, most) == Times(0, most) + most;
    forall k: nat | k >= 1 ensures Closed(ok, worth, k) {
      TurnsAreClosed(transient, worth, script, most, effective, ok, k);
    }
    LoopedStaysIn(w, n, op, worth, cfg, max, 1, ok);
  }

  lemma TurnsAreClosed(
    transient: Error -> bool, worth: Error -> bool, script: seq<string>, most: nat, effective: bool,
    ok: nat -> iset<Trip>, k: nat)
    requires k >= 1 && forall e :: worth(e) ==> transient(e)
    requires forall i: nat :: ok(i) == Trips(transient, script, Times(i, most), effective)
    ensures Closed(ok, worth, k)
  {
    AtLeastOnce(k, most);
    var now := Times(k, most);
    assert Times(1, most) == Times(0, most) + most && ok(1) == Trips(transient, script, most, effective);
    forall done: Option<Error> | done.Some? ensures Refused(done) in ok(k) {
      RefusedIsGood(transient, done, script, now, effective);
    }
    forall go: Trip | go in ok(1) ensures Final(go) in ok(k) {
      FinalIsGood(transient, go, script, most, now, effective);
    }
    forall go: Trip, wait: Event | go in ok(1) && !Ends(go, worth, false) && wait.Waited? && wait.answer.Some?
      ensures CutShort(go, wait) in ok(k)
    {
      CutShortIsGood(transient, go, go.err.value, wait, script, most, now, effective);
    }
    if k > 1 {
      forall go: Trip, wait: Event, rest: Trip |
        go in ok(1) && !Ends(go, worth, false) && wait.Waited? && rest in ok(k - 1)
        ensures Before(go, wait, rest) in ok(k)
      {
        BeforeIsGood(transient, go, go.err.value, wait, rest, script, most, Times(k - 1, most), effective);
      }
    }
  }

  lemma AtLeastOnce(n: nat, each: nat)
    requires n >= 1
    ensures each <= Times(n, each)
  {
    TimesGrows(1, n, each);
    assert Times(1, each) == Times(0, each) + each;
  }

  // ----- why a loop stops -----------------------------------------------------------------

  /** The answer is that of an ended context. */
  ghost predicate ByContext(t: Trip) {
    && t.err.Some? && t.events != []
    && var last := t.events[|t.events| - 1];
    && (last.Polled? || last.Waited?) && last.answer == t.err
  }

  /** The last thing done was the operation, at instant `m`, and the answer is its answer. */
  ghost predicate ByTry(op: nat -> Trip, n: nat, t: Trip, m: nat) {
    && n < m && m + |op(m).events| == n + |t.events|
    && t.events[m - n..] == op(m).events && t.err == op(m).err
  }

  /** A loop ends only for an ended context, or after a try that succeeded, was not worth another, or was the last. */
  ghost predicate Justified(op: nat -> Trip, worth: Error -> bool, n: nat, t: Trip, max: nat) {
    || ByContext(t)
    || ((t.err.None? || !worth(t.err.value) || t.tries == max) && exists m: nat :: ByTry(op, n, t, m))
  }

  lemma {:induction false} LoopedIsJustified(
    w: World, n: nat, op: nat -> Trip, worth: Error -> bool, cfg: Config, max: nat, attempt: nat)
    requires 1 <= attempt <= max
    ensures var t := Looped(w, n, op, worth, cfg, max, attempt);
      t.tries <= max - attempt + 1 && Justified(op, worth, n, t, max - attempt + 1)
    decreases max - attempt
  {
    var t := Looped(w, n, op, worth, cfg, max, attempt);
    var go := op(n + 1);
    var m := n + 1 + |go.events|;
    if w.context(n).None? {
      if Ends(go, worth, attempt == max) {
        FinalIsJustified(op, worth, n, max - attempt + 1);
      } else if WaitAt(w, m, cfg, attempt).answer.None? {
        LoopedIsJustified(w, m + 1, op, worth, cfg, max, attempt + 1);
        var rest := Looped(w, m + 1, op, worth, cfg, max, attempt + 1);
        LaterIsJustified(op, worth, n, go, WaitAt(w, m, cfg, attempt), rest, max - attempt);
      }
    }
  }

  lemma FinalIsJustified(op: nat -> Trip, worth: Error -> bool, n: nat, max: nat)
    requires Ends(op(n + 1), worth, max == 1)
    ensures Justified(op, worth, n, Final(op(n + 1)), max)
  {
    var t := Final(op(n + 1));
    assert t.events[1..] == op(n + 1).events;
    assert ByTry(op, n, t, n + 1);
  }

  lemma LaterIsJustified(
    op: nat -> Trip, worth: Error -> bool, n: nat, go: Trip, wait: Event, rest: Trip, max: nat)
    requires wait.Waited? && Justified(op, worth, n + 2 + |go.events|, rest, max)
    ensures Justified(op, worth, n, Before(go, wait, rest), max + 1)
  {
    var t := Before(go, wait, rest);
    var m := n + 2 + |go.events|;
    if ByContext(rest) {
      assert t.events[|t.events| - 1] == rest.events[|rest.events| - 1];
    } else {
      var k: nat :| ByTry(op, m, rest, k);
      assert t.events[k - n..] == rest.events[k - m..];
      assert ByTry(op, n, t, k);
    }
  }

  // ----- how long a loop waits ------------------------------------------------------------

  /** One wait after each failed try but the last, and one more when it was cut short. */
  lemma {:induction false} LoopedWaits(
    w: World, n: nat, op: nat -> Trip, worth: Error -> bool, cfg: Config, max: nat, attempt: nat)
    requires 1 <= attempt <= max && FairDice(w)
    ensures var t := Looped(w, n, op, worth, cfg, max, attempt);
      && t.tries - 1 <= |t.waits| <= t.tries && |t.waits| <= max - attempt
      && forall k :: 0 <= k < |t.waits| ==> IsWait(cfg, attempt + k, t.waits[k])
    decreases max - attempt
  {
    var go := op(n + 1);
    var m := n + 1 + |go.events|;
    if w.context(n).None? && !Ends(go, worth, attempt == max) {
      var wait := WaitAt(w, m, cfg, attempt);
      WaitIsFair(w, m, cfg, attempt);
      if wait.answer.None? {
        LoopedWaits(w, m + 1, op, worth, cfg, max, attempt + 1);
        FirstWait(cfg, attempt, wait.length, Looped(w, m + 1, op, worth, cfg, max, attempt + 1).waits);
      }
    }
  }

  lemma WaitIsFair(w: World, n: nat, cfg: Config, attempt: nat)
    requires attempt >= 1 && FairDice(w)
    ensures IsWait(cfg, attempt, WaitAt(w, n, cfg, attempt).length)
  {}

  lemma FirstWait(cfg: Config, attempt: nat, wait: real, rest: seq<real>)
    requires attempt >= 1 && IsWait(cfg, attempt, wait)
    requires forall k :: 0 <= k < |rest| ==> IsWait(cfg, attempt + 1 + k, rest[k])
    ensures forall k :: 0 <= k < |[wait] + rest| ==> IsWait(cfg, attempt + k, ([wait] + rest)[k])
  {
    forall k | 0 <= k < |[wait] + rest| ensures IsWait(cfg, attempt + k, ([wait] + rest)[k]) {
      if k > 0 {
        assert attempt + 1 + (k - 1) == attempt + k;
        assert IsWait(cfg, attempt + 1 + (k - 1), rest[k - 1]);
      }
    }
  }

  // ----- the two loops --------------------------------------------------------------------

  /** A script that is sent at all: some text, and at least one go allowed. */
  predicate Effective(sql: string, q: Config) {
    q.maxAttempts > 0 && Trim(sql) != ""
  }

  /** Attempts times retries. */
  function Most(cfg: Config, q: Config): nat {
    Times(Attempts(cfg), AtLeastZero(q.maxAttempts))
  }

  function AtLeastZero(n: int): nat {
    if n <= 0 then 0 else n
  }

  /** A connection's own retries: as many goes as allowed, each but the last failed transiently. */
  lemma MultipleIsGood(w: World, n: nat, sql: string, q: Config)
    ensures var script := S.Script(S.Statements(sql));
      Multiple(w, n, sql, true, q) in Trips(Transient, script, AtLeastZero(q.maxAttempts), Effective(sql, q))
  {
    var script := S.Script(S.Statements(sql));
    if Effective(sql, q) {
      var op := OnceOp(w, script);
      forall m: nat ensures op(m) in Trips(Transient, script, 1, true) {
        OnceIsGood(Transient, w, m, script);
      }
      LoopedIsGood(Transient, w, n, op, RetryableByText, q, q.maxAttempts, script, 1, true);
      ProductIsTimes(q.maxAttempts, 1);
    }
  }

  /** Its answer is the context's, or its last go's: a success, an error not worth another, or the last allowed. */
  lemma MultipleIsJustified(w: World, n: nat, sql: string, q: Config)
    requires Effective(sql, q)
    ensures var op, t := OnceOp(w, S.Script(S.Statements(sql))), Multiple(w, n, sql, true, q);
      t.tries <= q.maxAttempts && Justified(op, RetryableByText, n, t, q.maxAttempts)
  {
    LoopedIsJustified(w, n, OnceOp(w, S.Script(S.Statements(sql))), RetryableByText, q, q.maxAttempts, 1);
  }

  lemma ConnectAndSendIsGood(w: World, n: nat, sql: string, q: Config)
    ensures var script := S.Script(S.Statements(sql));
      ConnectAndSend(w, n, sql, q) in Trips(Transient, script, AtLeastZero(q.maxAttempts), Effective(sql, q))
  {
    var script, most := S.Script(S.Statements(sql)), AtLeastZero(q.maxAttempts);
    if w.connecting(n).None? {
      MultipleIsGood(w, n + 1, sql, q);
      ConnectedIsGood(Transient, Multiple(w, n + 1, sql, true, q), script, most, Effective(sql, q));
    } else {
      UnconnectedIsGood(Transient, w.connecting(n), script, most, Effective(sql, q));
    }
  }

  lemma ConnectedIsGood(
    transient: Error -> bool, sent: Trip, script: seq<string>, most: nat, effective: bool)
    requires sent in Trips(transient, script, most, effective)
    ensures sent.(events := [Connected(None)] + sent.events) in Trips(transient, script, most, effective)
  {
    SentInConcat([Connected(None)], sent.events);
    SentInOne(Connected(None));
    assert [] + SentIn(sent.events) == SentIn(sent.events);
  }

  lemma UnconnectedIsGood(
    transient: Error -> bool, err: Option<Error>, script: seq<string>, most: nat, effective: bool)
    requires err.Some?
    ensures Trip([Connected(err)], err, [], 1, []) in Trips(transient, script, most, effective)
  {
    SentInOne(Connected(err));
  }

  /** A try without a connection sends nothing, and answers with the connection's error. */
  lemma UnconnectedSendsNothing(w: World, n: nat, sql: string, q: Config)
    requires w.connecting(n).Some?
    ensures SentIn(ConnectAndSend(w, n, sql, q).events) == []
    ensures ConnectAndSend(w, n, sql, q).err == w.connecting(n)
  {
    SentInOne(Connected(w.connecting(n)));
  }

  /**
   All of one executeSQL. What is sent are goes at the script, at most attempts times retries of
   them, each but the last failed transiently; the answer is that of the last event, and nil
   comes after a complete go.
   */
  lemma WholeIsGood(w: World, n: nat, cfg: Config, sql: string, q: Config)
    ensures var script := S.Script(S.Statements(sql));
      Whole(w, n, cfg, sql, q) in Trips(Transient, script, Most(cfg, q), Effective(sql, q))
  {
    var script := S.Script(S.Statements(sql));
    var op, most := ConnectOp(w, sql, q), AtLeastZero(q.maxAttempts);
    forall m: nat ensures op(m) in Trips(Transient, script, most, Effective(sql, q)) {
      ConnectAndSendIsGood(w, m, sql, q);
    }
    LoopedIsGood(Transient, w, n, op, RetryableByKind, cfg, Attempts(cfg), script, most, Effective(sql, q));
  }

  /** It stops early only for an ended context, or after a try that succeeded or failed for good. */
  lemma WholeIsJustified(w: World, n: nat, cfg: Config, sql: string, q: Config)
    ensures var op, t := ConnectOp(w, sql, q), Whole(w, n, cfg, sql, q);
      t.tries <= Attempts(cfg) && Justified(op, RetryableByKind, n, t, Attempts(cfg))
    ensures w.context(n).Some? ==> Whole(w, n, cfg, sql, q).events == [Polled(w.context(n))]
  {
    LoopedIsJustified(w, n, ConnectOp(w, sql, q), RetryableByKind, cfg, Attempts(cfg), 1);
  }

  lemma WholeWaits(w: World, n: nat, cfg: Config, sql: string, q: Config)
    requires FairDice(w)
    ensures var t := Whole(w, n, cfg, sql, q);
      t.tries - 1 <= |t.waits| <= t.tries && |t.waits| <= Attempts(cfg) - 1 && AreWaits(cfg, t.waits)
  {
    LoopedWaits(w, n, ConnectOp(w, sql, q), RetryableByKind, cfg, Attempts(cfg), 1);
    var t := Whole(w, n, cfg, sql, q);
    assert forall k :: 0 <= k < |t.waits| ==> IsWait(cfg, 1 + k, t.waits[k]);
  }

  /**
   The statements of one call are at most attempts times retries prefixes of the script, of which
   the last is all of it when the answer is nil.
   */
  lemma WhatIsSent(w: World, n: nat, cfg: Config, sql: string, q: Config) returns (lengths: seq<nat>)
    ensures var script, t := S.Script(S.Statements(sql)), Whole(w, n, cfg, sql, q);
      && |lengths| == |t.rounds| <= Attempts(cfg) * AtLeastZero(q.maxAttempts)
      && (forall i :: 0 <= i < |lengths| ==> lengths[i] <= |script|)
      && Texts(SentIn(t.events)) == Prefixes(script, lengths)
      && (t.err.None? && Effective(sql, q) ==>
            lengths != [] && lengths[|lengths| - 1] == |script| &&
            SentIn(t.events) == Flat(t.rounds[..|t.rounds| - 1]) + Succeeding(script))
  {
    WholeIsGood(w, n, cfg, sql, q);
    ProductIsTimes(Attempts(cfg), AtLeastZero(q.maxAttempts));
    lengths := WhatATripSends(
      Transient, S.Script(S.Statements(sql)), Whole(w, n, cfg, sql, q), Most(cfg, q), Effective(sql, q));
  }

  lemma WhatATripSends(
    transient: Error -> bool, script: seq<string>, t: Trip, most: nat, effective: bool) returns (lengths: seq<nat>)
    requires Good(transient, t, script, most, effective)
    ensures |lengths| == |t.rounds| <= most && forall i :: 0 <= i < |lengths| ==> lengths[i] <= |script|
    ensures Texts(SentIn(t.events)) == Prefixes(script, lengths)
    ensures t.err.None? && effective ==>
      lengths != [] && lengths[|lengths| - 1] == |script| &&
      SentIn(t.events) == Flat(t.rounds[..|t.rounds| - 1]) + Succeeding(script)
  {
    lengths := SentArePrefixes(transient, script, t.rounds);
    if t.err.None? && effective {
      var last := |t.rounds| - 1;
      CompleteIsSentLast(script, t.rounds[..last], t.rounds[last]);
      assert t.rounds[..last] + [t.rounds[last]] == t.rounds;
    }
  }

  lemma MoreRounds(transient: Error -> bool, script: seq<string>, before: seq<seq<Sending>>, more: seq<seq<Sending>>)
    requires Rounds(transient, script, before) && Rounds(transient, script, more)
    requires before != [] ==> FailedTransiently(transient, before[|before| - 1])
    ensures Rounds(transient, script, before + more)
    ensures Flat(before + more) == Flat(before) + Flat(more)
  {
    FlatConcat(before, more);
  }

  lemma {:induction false} TimesGrows(n: nat, m: nat, each: nat)
    requires n <= m
    ensures Times(n, each) <= Times(m, each)
  {
    if n == m {
    } else {
      TimesGrows(n, m - 1, each);
    }
  }
}
