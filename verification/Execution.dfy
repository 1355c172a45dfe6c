/** The retry loops as they run, against the account of them in `Retry`. */
module Execution {
  import opened Common
  import opened Text
  import opened Backoff
  import opened Retry
  import S = Statements

  /** The outside; every exchange with it is written down, and answered by the world at that instant. */
  class Database {
    const world: World
    var log: seq<Event>

    constructor (world: World)
      ensures this.world == world && log == []
    {
      this.world, log := world, [];
    }

    method Exec(statement: string) returns (err: Option<Error>)
      modifies this
      ensures err == world.reply(|old(log)|) && log == old(log) + [Sent(Sending(statement, err))]
    {
      err := world.reply(|log|);
      log := log + [Sent(Sending(statement, err))];
    }

    /** Whether the context has ended. */
    method Poll() returns (err: Option<Error>)
      modifies this
      ensures err == world.context(|old(log)|) && log == old(log) + [Polled(err)]
    {
      err := world.context(|log|);
      log := log + [Polled(err)];
    }

    method Connect() returns (err: Option<Error>)
      modifies this
      ensures err == world.connecting(|old(log)|) && log == old(log) + [Connected(err)]
    {
      err := world.connecting(|log|);
      log := log + [Connected(err)];
    }

    /** A wait of random length after a failed attempt, which a cancelled context cuts short. */
    method Sleep(cfg: Config, attempt: nat) returns (length: real, stopped: Option<Error>)
      requires attempt >= 1
      modifies this
      ensures Waited(length, stopped) == WaitAt(world, |old(log)|, cfg, attempt)
      ensures log == old(log) + [Waited(length, stopped)]
    {
      length := Jittered(Interval(cfg, attempt), world.dice(|log|));
      stopped := world.interrupted(|log|);
      log := log + [Waited(length, stopped)];
    }

    /** The script once; it ends at the first failure. */
    method ExecuteMultipleStatementsOnce(sql: string) returns (err: Option<Error>)
      modifies this
      ensures var t := Once(world, |old(log)|, S.Script(S.Statements(sql)));
        log == old(log) + t.events && err == t.err
    {
      var statements := S.ParseSQLStatements(sql);
      ghost var goal := AfterSending(world, log, S.Script(statements));
      assert statements[0..] == statements;
      for k := 0 to |statements|
        invariant AfterSending(world, log, S.Script(statements[k..])) == goal
      {
        S.ScriptStep(statements, k);
        var stmt := Trim(statements[k]);
        if stmt == "" {
          continue;
        }
        stmt := S.WithoutSemicolon(stmt);
        stmt := Trim(stmt);
        assert stmt == S.Sent(statements[k]);
        if stmt == "" {
          continue;
        }
        SendFirst(world, log, stmt, S.Script(statements[k + 1..]));
        err := Exec(stmt);
        if err.Some? {
          return;
        }
      }
      err := None;
    }

    /** The connection's own retries. */
    method ExecuteMultipleStatements(sql: string, connected: bool, q: Config) returns (err: Option<Error>)
      modifies this
      ensures var t := Multiple(world, |old(log)|, sql, connected, q);
        log == old(log) + t.events && err == t.err
    {
      if !connected {
        return Some(Plain("not connected"));
      }
      if Trim(sql) == "" {
        return None;
      }
      ghost var op := OnceOp(world, S.Script(S.Statements(sql)));
      ghost var slept: seq<real> := [];
      ghost var goal := Forecast(world, op, RetryableByText, q, q.maxAttempts, 1, Outcome(log, [], None));
      MultipleFromTheStart(world, sql, q, log);
      err := None;
      var attempt := 1;
      while attempt <= q.maxAttempts
        invariant 1 <= attempt
        invariant Forecast(world, op, RetryableByText, q, q.maxAttempts, attempt, Outcome(log, slept, err)) == goal
      {
        var ended;
        err, ended, slept := RetryTurn(sql, q, attempt, slept, err);
        if ended {
          return;
        }
        attempt := attempt + 1;
      }
    }

    /** One turn of that loop; `ended` says that its answer is final. */
    method RetryTurn(sql: string, q: Config, attempt: int, ghost slept: seq<real>, ghost was: Option<Error>)
      returns (err: Option<Error>, ended: bool, ghost waits: seq<real>)
      requires 1 <= attempt <= q.maxAttempts
      modifies this
      ensures var op := OnceOp(world, S.Script(S.Statements(sql)));
        Foreseen(
          op, RetryableByText, q, q.maxAttempts, attempt, Outcome(old(log), slept, was),
          Outcome(log, waits, err), ended)
    {
      ghost var op := OnceOp(world, S.Script(S.Statements(sql)));
      ghost var before := Outcome(log, slept, was);
      ghost var go := op(|log| + 1);
      waits := slept;
      var done := Poll();
      if done.Some? {
        RefusedStep(world, op, RetryableByText, q, q.maxAttempts, attempt, before);
        return done, true, waits;
      }
      err := ExecuteMultipleStatementsOnce(sql);
      assert log == before.log + [Polled(None)] + go.events && err == go.err;
      if Ends(go, RetryableByText, attempt == q.maxAttempts) {
        FinalStep(world, op, RetryableByText, q, q.maxAttempts, attempt, before);
      } else {
        TurnStep(world, op, RetryableByText, q, q.maxAttempts, attempt, before);
      }
      ended := err.None? || !RetryableByText(err.value);
      if !ended && attempt < q.maxAttempts {
        var length, stopped := Sleep(q, attempt);
        waits := waits + [length];
        if stopped.Some? {
          err, ended := stopped, true;
        }
      }
    }

    /** A turn leads where its loop was bound to go. */
    ghost predicate Foreseen(
      op: nat -> Trip, worth: Error -> bool, cfg: Config, max: int, attempt: int, before: Outcome, after: Outcome,
      ended: bool)
      requires attempt >= 1
    {
      Forecast(world, op, worth, cfg, max, attempt, before) ==
      if ended then after else Forecast(world, op, worth, cfg, max, attempt + 1, after)
    }

    /** What one try of the outer loop does: connect, and send the script. */
    method ConnectAndExecute(sql: string, q: Config) returns (err: Option<Error>)
      modifies this
      ensures var t := ConnectAndSend(world, |old(log)|, sql, q);
        log == old(log) + t.events && err == t.err
    {
      ghost var before := log;
      err := Connect();
      if err.None? {
        err := ExecuteMultipleStatements(sql, true, q);
        Regroup(before, [Connected(None)], Multiple(world, |before| + 1, sql, true, q).events);
      }
    }

    /** executeSQL: retry.Do around connection and script. `slept` are the waits it asked for. */
    method ExecuteSQL(cfg: Config, sql: string, q: Config) returns (err: Option<Error>, slept: seq<real>)
      modifies this
      ensures var t := Whole(world, |old(log)|, cfg, sql, q);
        log == old(log) + t.events && err == t.err && slept == t.waits
    {
      ghost var op := ConnectOp(world, sql, q);
      var maxAttempts := Attempts(cfg);
      ghost var goal := Forecast(world, op, RetryableByKind, cfg, maxAttempts, 1, Outcome(log, [], None));
      FromTheStart(world, cfg, sql, q, log);
      err, slept := None, [];
      var attempt := 1;
      while attempt <= maxAttempts
        invariant 1 <= attempt
        invariant Forecast(world, op, RetryableByKind, cfg, maxAttempts, attempt, Outcome(log, slept, err)) == goal
      {
        var ended;
        err, ended, slept := ConnectTurn(cfg, sql, q, attempt, slept, err);
        if ended {
          return;
        }
        attempt := attempt + 1;
      }
    }

    /** One turn of the outer loop. */
    method ConnectTurn(
      cfg: Config, sql: string, q: Config, attempt: int, slept: seq<real>, ghost was: Option<Error>)
      returns (err: Option<Error>, ended: bool, waits: seq<real>)
      requires 1 <= attempt <= Attempts(cfg)
      modifies this
      ensures Foreseen(
        ConnectOp(world, sql, q), RetryableByKind, cfg, Attempts(cfg), attempt, Outcome(old(log), slept, was),
        Outcome(log, waits, err), ended)
    {
      ghost var op := ConnectOp(world, sql, q);
      ghost var before := Outcome(log, slept, was);
      ghost var go := op(|log| + 1);
      waits := slept;
      var done := Poll();
      if done.Some? {
        RefusedStep(world, op, RetryableByKind, cfg, Attempts(cfg), attempt, before);
        return done, true, waits;
      }
      err := ConnectAndExecute(sql, q);
      assert log == before.log + [Polled(None)] + go.events && err == go.err;
      if Ends(go, RetryableByKind, attempt == Attempts(cfg)) {
        FinalStep(world, op, RetryableByKind, cfg, Attempts(cfg), attempt, before);
      } else {
        TurnStep(world, op, RetryableByKind, cfg, Attempts(cfg), attempt, before);
      }
      ended := err.None? || !RetryableByKind(err.value);
      if !ended && attempt < Attempts(cfg) {
        var length, stopped := Sleep(cfg, attempt);
        waits := waits + [length];
        if stopped.Some? {
          err, ended := stopped, true;
        }
      }
    }
  }

  lemma SentsCons(s: Sending, rest: seq<Sending>)
    ensures Sents([s] + rest) == [Sent(s)] + Sents(rest)
  {}

  /** The log, the waits and the error a loop returns with. */
  datatype Outcome = Outcome(log: seq<Event>, slept: seq<real>, err: Option<Error>)

  /** What sending the rest of a script will have done. */
  function AfterSending(w: World, log: seq<Event>, script: seq<string>): Outcome {
    var round := SendAll(w, |log|, script);
    Outcome(log + Sents(round), [], AnswerOf(round))
  }

  /** The first statement that is left, sent. */
  lemma SendFirst(w: World, log: seq<Event>, stmt: string, rest: seq<string>)
    ensures var s := Sending(stmt, w.reply(|log|));
      AfterSending(w, log, [stmt] + rest) ==
      if s.reply.Some? then Outcome(log + [Sent(s)], [], s.reply) else AfterSending(w, log + [Sent(s)], rest)
  {
    var s := Sending(stmt, w.reply(|log|));
    assert ([stmt] + rest)[0] == stmt && ([stmt] + rest)[1..] == rest;
    if s.reply.Some? {
      assert Sents([s]) == [Sent(s)];
    } else {
      var left := SendAll(w, |log| + 1, rest);
      SentsCons(s, left);
      Regroup(log, [Sent(s)], Sents(left));
    }
  }

  /** What a loop that has come to try number `attempt` will have done in the end. */
  function Forecast(
    w: World, op: nat -> Trip, worth: Error -> bool, cfg: Config, max: int, attempt: int, now: Outcome): Outcome
    requires attempt >= 1
  {
    if attempt <= max then
      var rest := Looped(w, |now.log|, op, worth, cfg, max, attempt);
      Outcome(now.log + rest.events, now.slept + rest.waits, rest.err)
    else now
  }

  lemma MultipleFromTheStart(w: World, sql: string, q: Config, log: seq<Event>)
    requires Trim(sql) != ""
    ensures var t := Multiple(w, |log|, sql, true, q);
      var op := OnceOp(w, S.Script(S.Statements(sql)));
      Forecast(w, op, RetryableByText, q, q.maxAttempts, 1, Outcome(log, [], None)) ==
      Outcome(log + t.events, t.waits, t.err)
  {
    var t := Multiple(w, |log|, sql, true, q);
    assert [] + t.waits == t.waits && log + [] == log;
  }

  lemma FromTheStart(w: World, cfg: Config, sql: string, q: Config, log: seq<Event>)
    ensures var t := Whole(w, |log|, cfg, sql, q);
      Forecast(w, ConnectOp(w, sql, q), RetryableByKind, cfg, Attempts(cfg), 1, Outcome(log, [], None)) ==
      Outcome(log + t.events, t.waits, t.err)
  {
    var t := Whole(w, |log|, cfg, sql, q);
    assert [] + t.waits == t.waits;
  }

  lemma RefusedStep(
    w: World, op: nat -> Trip, worth: Error -> bool, cfg: Config, max: int, attempt: int, now: Outcome)
    requires 1 <= attempt <= max && w.context(|now.log|).Some?
    ensures var done := w.context(|now.log|);
      Forecast(w, op, worth, cfg, max, attempt, now) == Outcome(now.log + [Polled(done)], now.slept, done)
  {
    assert now.slept + [] == now.slept;
  }

  /** A try that is the last. */
  lemma FinalStep(
    w: World, op: nat -> Trip, worth: Error -> bool, cfg: Config, max: int, attempt: int, now: Outcome)
    requires 1 <= attempt <= max && w.context(|now.log|).None?
    requires Ends(op(|now.log| + 1), worth, attempt == max)
    ensures var go := op(|now.log| + 1);
      Forecast(w, op, worth, cfg, max, attempt, now) ==
      Outcome(now.log + [Polled(None)] + go.events, now.slept, go.err)
  {
    Regroup(now.log, [Polled(None)], op(|now.log| + 1).events);
    assert now.slept + [] == now.slept;
  }

  /** A failed try and a wait, when there is another try. */
  lemma TurnStep(
    w: World, op: nat -> Trip, worth: Error -> bool, cfg: Config, max: int, attempt: int, now: Outcome)
    requires 1 <= attempt < max && w.context(|now.log|).None?
    requires !Ends(op(|now.log| + 1), worth, false)
    ensures var go := op(|now.log| + 1);
      var tried := now.log + [Polled(None)] + go.events;
      var wait := WaitAt(w, |tried|, cfg, attempt);
      var next := Outcome(tried + [wait], now.slept + [wait.length], if wait.answer.Some? then wait.answer else go.err);
      Forecast(w, op, worth, cfg, max, attempt, now) ==
      if wait.answer.Some? then next else Forecast(w, op, worth, cfg, max, attempt + 1, next)
  {
    var go := op(|now.log| + 1);
    var tried := now.log + [Polled(None)] + go.events;
    var wait := WaitAt(w, |tried|, cfg, attempt);
    assert |tried| == |now.log| + 1 + |go.events|;
    var turn := [Polled(None)] + go.events + [wait];
    assert now.log + turn == tried + [wait];
    if wait.answer.None? {
      var rest := Looped(w, |tried| + 1, op, worth, cfg, max, attempt + 1);
      Regroup(now.log, turn, rest.events);
      Regroup(now.slept, [wait.length], rest.waits);
    }
  }
}
