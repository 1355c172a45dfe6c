/**
 What each request answers, and exactly what it leaves: which check fails first, which records and
 users are there afterwards, and the fields of every record that was written.
 */
module Outcomes {
  import opened Common
  import opened Vault
  import Leftovers
  import Revocation

  /** A check of a handler, and the error it is answered with when it does not pass. */
  datatype Check = Check(passes: bool, error: Error)

  /** The answer of a handler that makes these checks in this order. */
  ghost predicate Verdict(checks: seq<Check>, out: Outcome) {
    match out
    case Done => forall i :: 0 <= i < |checks| ==> checks[i].passes
    case Refused(e) => exists i :: FirstFailing(checks, i) && checks[i].error == e
  }

  ghost predicate FirstFailing(checks: seq<Check>, i: int) {
    0 <= i < |checks| && !checks[i].passes && forall j :: 0 <= j < i ==> checks[j].passes
  }

  // ----- creation -------------------------------------------------------------------------

  /** What a draw makes for a role: a lease that ends the role's default lifetime from now. */
  ghost predicate MadeBy(r: Record, roleName: string, role: Role, region: string, d: Draw) {
    && r.expiresAt == d.clock.expiry + role.defaultTTL
    && r.lastRenewed == 0
    && r.id.createdAt == d.clock.created
    && r.id.username == d.username && r.id.roleName == roleName && r.id.region == region
    && r.id.leaseId == "teradata/creds/" + roleName + "/" + d.username
  }

  /** The checks before a name is drawn. */
  ghost function Admission(s: State, roles: map<string, Role>, roleName: string, env: Env): seq<Check> {
    var most := if roleName in roles then roles[roleName].maxCredentials else 0;
    [Check(env.roleOk, RoleFailed),
     Check(roleName in roles, RoleMissing),
     Check(most <= 0 || env.countOk, CountFailed),
     Check(most <= 0 || |Holders(s.store, roleName)| < most, QuotaExceeded),
     Check(env.configOk, ConfigFailed),
     Check(env.preflightOk, Preflight)]
  }

  /** The calls of one creation. */
  ghost function Attempt(env: Env): seq<Check> {
    [Check(env.nameOk, InvalidName), Check(env.createOk, CreateFailed), Check(env.statementOk, StatementFailed),
     Check(env.putOk, PutFailed)]
  }

  /** A creation: one record and one user more, or no record; only a DROP USER that works takes the user back. */
  lemma CreationIs(
    s: State, roles: map<string, Role>, roleName: string, region: string, d: Draw)
    ensures var (t, out) := Create(s, roles, roleName, region, d);
      && Verdict(Admission(s, roles, roleName, d.env) + Attempt(d.env), out)
      && (out == Done ==>
            && t.users == s.users + {d.username}
            && d.username in t.store && t.store == s.store[d.username := t.store[d.username]]
            && MadeBy(t.store[d.username], roleName, roles[roleName], region, d))
      && (out != Done ==> t.store == s.store)
      && (out == Refused(PutFailed) ==> t.users == s.users + {d.username})
      && (out == Refused(StatementFailed) ==>
            t.users == if d.env.dropOk then s.users - {d.username} else s.users + {d.username})
      && (out != Done && out != Refused(PutFailed) && out != Refused(StatementFailed) ==> t.users == s.users)
  {
    var checks := Admission(s, roles, roleName, d.env) + Attempt(d.env);
    var (t, out) := Create(s, roles, roleName, region, d);
    if out != Done {
      var i := if !d.env.roleOk then 0 else if roleName !in roles then 1 else
        if !checks[2].passes then 2 else if !checks[3].passes then 3 else if !d.env.configOk then 4 else
        if !d.env.preflightOk then 5 else if !d.env.nameOk then 6 else if !d.env.createOk then 7 else
        if !d.env.statementOk then 8 else 9;
      assert FirstFailing(checks, i);
    }
  }

  // ----- batch creation -------------------------------------------------------------------

  /** Of the first `k` rounds the first `n` are complete, and no more in a row. */
  ghost predicate CompleteUpTo(draws: seq<Draw>, k: nat, n: nat)
    requires k <= |draws|
  {
    && n <= k && (forall i :: 0 <= i < n ==> Leftovers.Succeeds(draws[i]))
    && (n < k ==> !Leftovers.Succeeds(draws[n]))
  }

  /** The usernames of the first `n` draws. */
  function Names(draws: seq<Draw>, n: nat): set<string>
    requires n <= |draws|
  {
    set i | 0 <= i < n :: draws[i].username
  }

  /** None of the first `n` draws after number `i` is under its name. */
  ghost predicate IsLast(draws: seq<Draw>, n: nat, i: nat)
    requires i < n <= |draws|
  {
    forall j :: i < j < n ==> draws[j].username != draws[i].username
  }

  /** The records after `n` complete rounds: those made by the last round under each name drawn, and the old ones. */
  ghost predicate Stocked(
    s: State, t: State, roleName: string, role: Role, region: string, draws: seq<Draw>, n: nat)
    requires n <= |draws|
  {
    && t.store.Keys == s.store.Keys + Names(draws, n)
    && (forall u :: u in s.store && u !in Names(draws, n) ==> t.store[u] == s.store[u])
    && (forall i :: 0 <= i < n && IsLast(draws, n, i) ==>
          MadeBy(t.store[draws[i].username], roleName, role, region, draws[i]))
  }

  /** The users a round leaves that is not complete. */
  ghost predicate BrokenOff(users: set<string>, after: set<string>, d: Draw) {
    after ==
    if !d.env.nameOk || !d.env.createOk then users
    else if !d.env.statementOk && d.env.dropOk then users - {d.username}
    else users + {d.username}
  }

  lemma OneRound(s: State, roleName: string, role: Role, region: string, d: Draw)
    ensures var (t, out) := CreateOne(s, roleName, role, region, d);
      && (out == Done <==> Leftovers.Succeeds(d))
      && Verdict(Attempt(d.env), out)
      && (out == Done ==>
            && t.users == s.users + {d.username}
            && d.username in t.store && t.store == s.store[d.username := t.store[d.username]]
            && MadeBy(t.store[d.username], roleName, role, region, d))
      && (out != Done ==> t.store == s.store && BrokenOff(s.users, t.users, d))
  {
    var checks := Attempt(d.env);
    var (t, out) := CreateOne(s, roleName, role, region, d);
    if out != Done {
      var i := if !d.env.nameOk then 0 else if !d.env.createOk then 1 else if !d.env.statementOk then 2 else 3;
      assert FirstFailing(checks, i);
    }
  }

  lemma StockedStep(
    s: State, t: State, t': State, roleName: string, role: Role, region: string, draws: seq<Draw>, n: nat)
    requires n < |draws| && Stocked(s, t, roleName, role, region, draws, n)
    requires var d := draws[n];
      && d.username in t'.store && t'.store == t.store[d.username := t'.store[d.username]]
      && MadeBy(t'.store[d.username], roleName, role, region, d)
    ensures Stocked(s, t', roleName, role, region, draws, n + 1)
    ensures Names(draws, n + 1) == Names(draws, n) + {draws[n].username}
  {
    NamesStep(draws, n);
    forall i | 0 <= i < n + 1 && IsLast(draws, n + 1, i)
      ensures MadeBy(t'.store[draws[i].username], roleName, role, region, draws[i])
    {
      if i < n {
        assert draws[n].username != draws[i].username && IsLast(draws, n, i);
        assert draws[i].username in Names(draws, n);
      }
    }
  }

  lemma NamesStep(draws: seq<Draw>, n: nat)
    requires n < |draws|
    ensures Names(draws, n + 1) == Names(draws, n) + {draws[n].username}
  {}

  /** How a batch stands after `n` complete rounds. */
  ghost predicate AllDone(
    s: State, t: State, out: Outcome, roleName: string, role: Role, region: string, draws: seq<Draw>, n: nat)
    requires n <= |draws|
  {
    out == Done && Stocked(s, t, roleName, role, region, draws, n) && t.users == s.users + Names(draws, n)
  }

  /** How it stands when round number `n`, the first that is not complete, was reached. */
  ghost predicate BrokenOffAt(
    s: State, t: State, out: Outcome, roleName: string, role: Role, region: string, draws: seq<Draw>, n: nat)
    requires n < |draws|
  {
    && out != Done && Verdict(Attempt(draws[n].env), out)
    && Stocked(s, t, roleName, role, region, draws, n) && BrokenOff(s.users + Names(draws, n), t.users, draws[n])
  }

  /** How it stands after `k` rounds of which the first `n` are complete. */
  ghost predicate RoundsDone(
    s: State, t: State, out: Outcome, roleName: string, role: Role, region: string, draws: seq<Draw>, k: nat, n: nat)
    requires k <= |draws|
  {
    && CompleteUpTo(draws, k, n)
    && if n == k then AllDone(s, t, out, roleName, role, region, draws, n)
       else BrokenOffAt(s, t, out, roleName, role, region, draws, n)
  }

  lemma StockMore(s: State, t: State, roleName: string, role: Role, region: string, draws: seq<Draw>, n: nat)
    requires n < |draws| && AllDone(s, t, Done, roleName, role, region, draws, n) && Leftovers.Succeeds(draws[n])
    ensures var (t', out) := CreateOne(t, roleName, role, region, draws[n]);
      AllDone(s, t', out, roleName, role, region, draws, n + 1)
  {
    var t' := CreateOne(t, roleName, role, region, draws[n]).0;
    OneRound(t, roleName, role, region, draws[n]);
    StockedStep(s, t, t', roleName, role, region, draws, n);
  }

  lemma StockBroken(s: State, t: State, roleName: string, role: Role, region: string, draws: seq<Draw>, n: nat)
    requires n < |draws| && AllDone(s, t, Done, roleName, role, region, draws, n) && !Leftovers.Succeeds(draws[n])
    ensures var (t', out) := CreateOne(t, roleName, role, region, draws[n]);
      BrokenOffAt(s, t', out, roleName, role, region, draws, n)
  {
    var t' := CreateOne(t, roleName, role, region, draws[n]).0;
    OneRound(t, roleName, role, region, draws[n]);
    SameStock(s, t, t', roleName, role, region, draws, n);
  }

  lemma SameStock(
    s: State, t: State, t': State, roleName: string, role: Role, region: string, draws: seq<Draw>, n: nat)
    requires n <= |draws| && Stocked(s, t, roleName, role, region, draws, n) && t'.store == t.store
    ensures Stocked(s, t', roleName, role, region, draws, n)
  {}

  ghost function Rounds(
    s: State, roleName: string, role: Role, region: string, draws: seq<Draw>, k: nat, n: nat): iset<(State, Outcome)>
    requires k <= |draws|
  {
    iset r: (State, Outcome) | RoundsDone(s, r.0, r.1, roleName, role, region, draws, k, n)
  }

  lemma NoRound(s: State, roleName: string, role: Role, region: string, draws: seq<Draw>)
    ensures CreateFirst(s, roleName, role, region, draws, 0) in Rounds(s, roleName, role, region, draws, 0, 0)
  {
    assert Names(draws, 0) == {};
    assert AllDone(s, s, Done, roleName, role, region, draws, 0);
  }

  lemma NextRound(s: State, roleName: string, role: Role, region: string, draws: seq<Draw>, k: nat)
    requires k < |draws|
    ensures var (t, out) := CreateFirst(s, roleName, role, region, draws, k);
      CreateFirst(s, roleName, role, region, draws, k + 1) ==
      if out.Refused? then (t, out) else CreateOne(t, roleName, role, region, draws[k])
  {}

  lemma RoundMore(s: State, t: State, roleName: string, role: Role, region: string, draws: seq<Draw>, k: nat)
    requires k < |draws| && (t, Done) in Rounds(s, roleName, role, region, draws, k, k)
    ensures var n := if Leftovers.Succeeds(draws[k]) then k + 1 else k;
      CreateOne(t, roleName, role, region, draws[k]) in Rounds(s, roleName, role, region, draws, k + 1, n)
  {
    if Leftovers.Succeeds(draws[k]) {
      StockMore(s, t, roleName, role, region, draws, k);
    } else {
      StockBroken(s, t, roleName, role, region, draws, k);
    }
  }

  lemma RoundNotTried(
    s: State, t: State, out: Outcome, roleName: string, role: Role, region: string, draws: seq<Draw>, k: nat, n: nat)
    requires n < k < |draws| && (t, out) in Rounds(s, roleName, role, region, draws, k, n)
    ensures out != Done && (t, out) in Rounds(s, roleName, role, region, draws, k + 1, n)
  {}

  lemma RoundsEndWell(
    s: State, t: State, out: Outcome, roleName: string, role: Role, region: string, draws: seq<Draw>, k: nat, n: nat)
    requires k <= |draws| && (t, out) in Rounds(s, roleName, role, region, draws, k, n)
    ensures n <= k && (n == k ==> out == Done)
  {}

  /** The rounds of a batch: those before the first failure are done, and that failure is the answer. */
  lemma {:induction false} RoundsAre(
    s: State, roleName: string, role: Role, region: string, draws: seq<Draw>, k: nat) returns (n: nat)
    requires k <= |draws|
    ensures CreateFirst(s, roleName, role, region, draws, k) in Rounds(s, roleName, role, region, draws, k, n)
  {
    if k == 0 {
      n := 0;
      NoRound(s, roleName, role, region, draws);
    } else {
      n := RoundsAre(s, roleName, role, region, draws, k - 1);
      var (t, out) := CreateFirst(s, roleName, role, region, draws, k - 1);
      NextRound(s, roleName, role, region, draws, k - 1);
      RoundsEndWell(s, t, out, roleName, role, region, draws, k - 1, n);
      if n < k - 1 {
        RoundNotTried(s, t, out, roleName, role, region, draws, k - 1, n);
      } else {
        n := if Leftovers.Succeeds(draws[k - 1]) then k else k - 1;
        RoundMore(s, t, roleName, role, region, draws, k - 1);
      }
    }
  }

  /** A batch tries the number asked for, from one to a hundred, or what the quota leaves if that is less. */
  lemma BatchIs(
    s: State, roles: map<string, Role>, roleName: string, region: string, count: int, env: Env, draws: seq<Draw>)
    returns (n: nat)
    requires |draws| >= 100
    ensures var (t, out) := CreateBatch(s, roles, roleName, region, count, env, draws);
      if Admitted(s, roles, roleName, env) then
        && roleName in roles
        && var k := Asked(roles[roleName], |Holders(s.store, roleName)|, count);
        && 1 <= k <= 100 && RoundsDone(s, t, out, roleName, roles[roleName], region, draws, k, n)
      else t == s && out != Done && Verdict(Admission(s, roles, roleName, env), out)
  {
    AdmissionIs(s, roles, roleName, env);
    n := 0;
    if CreateRefusal(s, roles, roleName, env) == None {
      n := RoundsAre(s, roleName, roles[roleName], region, draws, BatchSize(s, roleName, roles[roleName], count));
    }
  }

  /** No check before the names fails. */
  ghost predicate Admitted(s: State, roles: map<string, Role>, roleName: string, env: Env) {
    forall i :: !FirstFailing(Admission(s, roles, roleName, env), i)
  }

  /** The number of rounds for a role that holds so many credentials. */
  ghost function Asked(role: Role, held: nat, count: int): int {
    var asked := if count < 1 then 1 else if count > 100 then 100 else count;
    if role.maxCredentials > 0 && role.maxCredentials - held < asked then role.maxCredentials - held else asked
  }

  lemma AdmissionIs(s: State, roles: map<string, Role>, roleName: string, env: Env)
    ensures var checks := Admission(s, roles, roleName, env);
      match CreateRefusal(s, roles, roleName, env)
      case Some(e) => Verdict(checks, Refused(e)) && !Admitted(s, roles, roleName, env)
      case None => roleName in roles && Admitted(s, roles, roleName, env)
  {
    var checks := Admission(s, roles, roleName, env);
    if CreateRefusal(s, roles, roleName, env).Some? {
      var i := if !env.roleOk then 0 else if roleName !in roles then 1 else
        if !checks[2].passes then 2 else if !checks[3].passes then 3 else if !env.configOk then 4 else 5;
      assert FirstFailing(checks, i);
    } else {
      assert forall i :: 0 <= i < |checks| ==> checks[i].passes;
    }
  }

  /** With successes only and fresh names, the role holds as many credentials more. */
  lemma BatchCreatesWhatIsAskedFor(
    s: State, roles: map<string, Role>, roleName: string, region: string, count: int, env: Env, draws: seq<Draw>)
    requires |draws| >= 100 && (forall i :: 0 <= i < 100 ==> Leftovers.Succeeds(draws[i]))
    requires forall i, j :: 0 <= i < j < 100 ==> draws[i].username != draws[j].username
    requires forall i :: 0 <= i < 100 ==> draws[i].username !in s.store
    requires Admitted(s, roles, roleName, env)
    ensures var (t, out) := CreateBatch(s, roles, roleName, region, count, env, draws);
      && roleName in roles
      && var held, most := |Holders(s.store, roleName)|, roles[roleName].maxCredentials;
         var asked := if count < 1 then 1 else if count > 100 then 100 else count;
      && out == Done
      && |Holders(t.store, roleName)| == held + if most > 0 && most - held < asked then most - held else asked
  {
    var n := BatchIs(s, roles, roleName, region, count, env, draws);
    var t := CreateBatch(s, roles, roleName, region, count, env, draws).0;
    NewHolders(s, t, roleName, roles[roleName], region, draws, n);
  }

  lemma NewHolders(s: State, t: State, roleName: string, role: Role, region: string, draws: seq<Draw>, n: nat)
    requires n <= |draws| && Stocked(s, t, roleName, role, region, draws, n)
    requires forall i, j :: 0 <= i < j < n ==> draws[i].username != draws[j].username
    requires forall i :: 0 <= i < n ==> draws[i].username !in s.store
    ensures |Holders(t.store, roleName)| == |Holders(s.store, roleName)| + n
  {
    NamesCount(draws, n);
    var before, after, drawn := Holders(s.store, roleName), Holders(t.store, roleName), Names(draws, n);
    forall u | u in drawn ensures u in after {
      DrawnIsHeld(s, t, roleName, role, region, draws, n, u);
    }
    Union(before, after, drawn);
  }

  lemma Union(before: set<string>, after: set<string>, drawn: set<string>)
    requires before !! drawn && drawn <= after && forall u :: u !in drawn ==> (u in after <==> u in before)
    ensures |after| == |before| + |drawn|
  {
    assert after == before + drawn;
  }

  lemma DrawnIsHeld(
    s: State, t: State, roleName: string, role: Role, region: string, draws: seq<Draw>, n: nat, u: string)
    requires n <= |draws| && Stocked(s, t, roleName, role, region, draws, n)
    requires forall i, j :: 0 <= i < j < n ==> draws[i].username != draws[j].username
    requires u in Names(draws, n)
    ensures u in Holders(t.store, roleName)
  {
    var i :| 0 <= i < n && draws[i].username == u;
    assert IsLast(draws, n, i);
  }

  lemma {:induction false} NamesCount(draws: seq<Draw>, n: nat)
    requires n <= |draws| && forall i, j :: 0 <= i < j < n ==> draws[i].username != draws[j].username
    ensures |Names(draws, n)| == n
  {
    if n == 0 {
      assert Names(draws, 0) == {};
    } else {
      NamesCount(draws, n - 1);
      NamesStep(draws, n - 1);
      assert draws[n - 1].username !in Names(draws, n - 1);
    }
  }

  // ----- renewal --------------------------------------------------------------------------

  /** The record, renewed at `now` for the lifetime `ttl`. */
  ghost predicate RenewedTo(before: Record, after: Record, ttl: int, now: int) {
    after.id == before.id && after.lastRenewed == now && after.expiresAt == now + ttl
  }

  ghost function Renewal(s: State, roles: map<string, Role>, u: string, getOk: bool, env: Env): seq<Check> {
    [Check(env.nameOk, InvalidName), Check(getOk, LoadFailed), Check(u in s.store, NotFound),
     Check(env.roleOk, RoleFailed), Check(u in s.store && s.store[u].id.roleName in roles, RoleMissing),
     Check(env.configOk, ConfigFailed), Check(env.preflightOk, Preflight), Check(env.connectOk, ConnectFailed),
     Check(env.alterOk, AlterFailed), Check(env.statementOk, StatementFailed), Check(env.putOk, PutFailed)]
  }

  /** A renewal changes one record, in its two times, or nothing. */
  lemma RenewalIs(s: State, roles: map<string, Role>, u: string, now: int, getOk: bool, env: Env)
    ensures var (t, out) := Renew(s, roles, u, now, getOk, env);
      && Verdict(Renewal(s, roles, u, getOk, env), out)
      && (out != Done ==> t == s)
      && (out == Done ==>
            && u in t.store && t == State(s.store[u := t.store[u]], s.users)
            && RenewedTo(s.store[u], t.store[u], roles[s.store[u].id.roleName].defaultTTL, now))
  {
    if Renew(s, roles, u, now, getOk, env).1 != Done {
      var i := if !env.nameOk then 0 else if !getOk then 1 else if u !in s.store then 2 else if !env.roleOk then 3 else
        if s.store[u].id.roleName !in roles then 4 else if !env.configOk then 5 else if !env.preflightOk then 6 else
        if !env.connectOk then 7 else if !env.alterOk then 8 else if !env.statementOk then 9 else 10;
      assert FirstFailing(Renewal(s, roles, u, getOk, env), i);
    }
  }

  /** The checks of one turn of a batch renewal; whether the name is stored does not change on the way. */
  ghost function RenewalTurn(s: State, u: string, turn: Turn): seq<Check> {
    [Check(turn.getOk, LoadFailed), Check(u in s.store, NotFound), Check(turn.env.preflightOk, Preflight),
     Check(turn.env.alterOk, AlterFailed), Check(turn.env.statementOk, StatementFailed),
     Check(turn.env.putOk, PutFailed)]
  }

  /** Result number `i` is the last success under its name. */
  ghost predicate LastDone(rs: seq<Result>, i: nat)
    requires i < |rs|
  {
    rs[i].outcome == Done && forall j :: i < j < |rs| && rs[j].outcome == Done ==> rs[j].username != rs[i].username
  }

  ghost predicate EverDone(rs: seq<Result>, u: string) {
    exists i :: 0 <= i < |rs| && rs[i] == Result(u, Done)
  }

  /** What some turns of a batch renewal answer and leave. */
  ghost predicate RenewedInTurn(s: State, t: State, ttl: int, names: seq<string>, turns: seq<Turn>, rs: seq<Result>)
    requires |rs| <= |names| <= |turns|
  {
    && RenewalsAnswered(s, names, turns, rs)
    && t.users == s.users && Rewritten(s.store, t.store, ttl, turns, rs)
  }

  ghost predicate RenewalsAnswered(s: State, names: seq<string>, turns: seq<Turn>, rs: seq<Result>)
    requires |rs| <= |names| <= |turns|
  {
    forall i :: 0 <= i < |rs| ==>
      rs[i].username == names[i] && Verdict(RenewalTurn(s, names[i], turns[i]), rs[i].outcome)
  }

  /** Each record is as the last turn that renewed it made it. */
  ghost predicate Rewritten(
    before: map<string, Record>, after: map<string, Record>, ttl: int, turns: seq<Turn>, rs: seq<Result>)
    requires |rs| <= |turns|
  {
    && after.Keys == before.Keys
    && (forall i :: 0 <= i < |rs| && rs[i].outcome == Done ==> rs[i].username in before)
    && forall u :: u in before ==> AsLastRenewed(u, before[u], after[u], ttl, turns, rs)
  }

  ghost predicate AsLastRenewed(u: string, before: Record, after: Record, ttl: int, turns: seq<Turn>, rs: seq<Result>)
    requires |rs| <= |turns|
  {
    && after.id == before.id
    && (!EverDone(rs, u) ==> after == before)
    && forall i :: 0 <= i < |rs| && rs[i].username == u && LastDone(rs, i) ==>
         RenewedTo(before, after, ttl, turns[i].now)
  }

  lemma RenewalTurnIs(s: State, ttl: int, u: string, turn: Turn)
    ensures var (t, out) := RenewItem(s, ttl, u, turn);
      && Verdict(RenewalTurn(s, u, turn), out)
      && (out != Done ==> t == s)
      && (out == Done ==>
            && u in s.store && u in t.store && t == State(s.store[u := t.store[u]], s.users)
            && RenewedTo(s.store[u], t.store[u], ttl, turn.now))
  {
    if RenewItem(s, ttl, u, turn).1 != Done {
      var i := if !turn.getOk then 0 else if u !in s.store then 1 else if !turn.env.preflightOk then 2 else
        if !turn.env.alterOk then 3 else if !turn.env.statementOk then 4 else 5;
      assert FirstFailing(RenewalTurn(s, u, turn), i);
    }
  }

  lemma {:induction false} RenewalTurnsAre(s: State, ttl: int, names: seq<string>, turns: seq<Turn>, k: nat)
    requires k <= |names| <= |turns|
    ensures var (t, rs) := RenewFirst(s, ttl, names, turns, k);
      |rs| == k && RenewedInTurn(s, t, ttl, names, turns, rs)
  {
    if k == 0 {
      assert RenewFirst(s, ttl, names, turns, 0) == (s, []);
    } else {
      RenewalTurnsAre(s, ttl, names, turns, k - 1);
      var (t, rs) := RenewFirst(s, ttl, names, turns, k - 1);
      var (t', out) := RenewItem(t, ttl, names[k - 1], turns[k - 1]);
      RenewalTurnIs(t, ttl, names[k - 1], turns[k - 1]);
      OneTurnMore(s, t, t', ttl, names, turns, rs, out);
    }
  }

  lemma OneTurnMore(
    s: State, t: State, t': State, ttl: int, names: seq<string>, turns: seq<Turn>, rs: seq<Result>, out: Outcome)
    requires |rs| < |names| <= |turns| && RenewedInTurn(s, t, ttl, names, turns, rs)
    requires var u := names[|rs|];
      && Verdict(RenewalTurn(t, u, turns[|rs|]), out)
      && (out != Done ==> t' == t)
      && (out == Done ==>
            && u in t.store && u in t'.store && t' == State(t.store[u := t'.store[u]], t.users)
            && RenewedTo(t.store[u], t'.store[u], ttl, turns[|rs|].now))
    ensures RenewedInTurn(s, t', ttl, names, turns, rs + [Result(names[|rs|], out)])
  {
    var u := names[|rs|];
    assert RenewalTurn(t, u, turns[|rs|]) == RenewalTurn(s, u, turns[|rs|]);
    RenewalAnswered(s, names, turns, rs, out);
    if out == Done {
      RewrittenOne(s.store, t.store, t'.store, ttl, turns, rs, u);
    } else {
      RewrittenNone(s.store, t.store, ttl, turns, rs, Result(u, out));
    }
  }

  lemma RenewalAnswered(s: State, names: seq<string>, turns: seq<Turn>, rs: seq<Result>, out: Outcome)
    requires |rs| < |names| <= |turns| && RenewalsAnswered(s, names, turns, rs)
    requires Verdict(RenewalTurn(s, names[|rs|], turns[|rs|]), out)
    ensures RenewalsAnswered(s, names, turns, rs + [Result(names[|rs|], out)])
  {}

  lemma RewrittenOne(
    first: map<string, Record>, before: map<string, Record>, after: map<string, Record>, ttl: int, turns: seq<Turn>,
    rs: seq<Result>, u: string)
    requires |rs| < |turns| && Rewritten(first, before, ttl, turns, rs)
    requires u in before && u in after && after == before[u := after[u]]
    requires RenewedTo(before[u], after[u], ttl, turns[|rs|].now)
    ensures Rewritten(first, after, ttl, turns, rs + [Result(u, Done)])
  {
    forall v | v in first ensures AsLastRenewed(v, first[v], after[v], ttl, turns, rs + [Result(u, Done)]) {
      if v == u {
        RenewedNow(u, first[v], before[v], after[v], ttl, turns, rs);
      } else {
        NotRenewedNow(v, first[v], before[v], ttl, turns, rs, Result(u, Done));
      }
    }
  }

  lemma RewrittenNone(
    first: map<string, Record>, before: map<string, Record>, ttl: int, turns: seq<Turn>, rs: seq<Result>, r: Result)
    requires |rs| < |turns| && Rewritten(first, before, ttl, turns, rs) && r.outcome != Done
    ensures Rewritten(first, before, ttl, turns, rs + [r])
  {
    forall v | v in first ensures AsLastRenewed(v, first[v], before[v], ttl, turns, rs + [r]) {
      NotRenewedNow(v, first[v], before[v], ttl, turns, rs, r);
    }
  }

  lemma RenewedNow(
    u: string, first: Record, before: Record, after: Record, ttl: int, turns: seq<Turn>, rs: seq<Result>)
    requires |rs| < |turns| && AsLastRenewed(u, first, before, ttl, turns, rs)
    requires RenewedTo(before, after, ttl, turns[|rs|].now)
    ensures AsLastRenewed(u, first, after, ttl, turns, rs + [Result(u, Done)])
  {
    var more := rs + [Result(u, Done)];
    assert more[|rs|] == Result(u, Done);
    assert EverDone(more, u);
    forall i | 0 <= i < |more| && more[i].username == u && LastDone(more, i) ensures i == |rs| {
      LastDoneIsLast(more, i);
    }
  }

  lemma LastDoneIsLast(rs: seq<Result>, i: nat)
    requires i < |rs| && LastDone(rs, i)
    requires rs[|rs| - 1] == Result(rs[i].username, Done)
    ensures i == |rs| - 1
  {}

  lemma NotRenewedNow(
    u: string, first: Record, before: Record, ttl: int, turns: seq<Turn>, rs: seq<Result>, r: Result)
    requires |rs| < |turns| && AsLastRenewed(u, first, before, ttl, turns, rs) && r != Result(u, Done)
    ensures AsLastRenewed(u, first, before, ttl, turns, rs + [r])
  {
    var more := rs + [r];
    if i :| 0 <= i < |rs| && rs[i] == Result(u, Done) {
      assert more[i] == rs[i];
    }
    forall i | 0 <= i < |more| && more[i].username == u && LastDone(more, i)
      ensures RenewedTo(first, before, ttl, turns[i].now)
    {
      assert i < |rs| && more[i] == rs[i] && forall j :: i < j < |rs| ==> more[j] == rs[j];
      assert LastDone(rs, i);
    }
  }

  // ----- which names a handler works on ---------------------------------------------------

  /** The listed names with a readable record, of one role if one is given. */
  function Matching(store: map<string, Record>, order: seq<string>, unread: set<string>, role: Option<string>)
    : seq<string>
  {
    if order == [] then []
    else
      var u, rest := order[0], Matching(store, order[1..], unread, role);
      if u in store && u !in unread && (role == None || store[u].id.roleName == role.value) then [u] + rest else rest
  }

  lemma {:induction false} MatchingOneMore(
    store: map<string, Record>, order: seq<string>, unread: set<string>, role: Option<string>, u: string)
    ensures Matching(store, order + [u], unread, role) ==
      Matching(store, order, unread, role) +
      if u in store && u !in unread && (role == None || store[u].id.roleName == role.value) then [u] else []
  {
    if order == [] {
      assert order + [u] == [u] && [u][1..] == [];
    } else {
      MatchingOneMore(store, order[1..], unread, role, u);
      assert (order + [u])[1..] == order[1..] + [u];
      var more :=
        if u in store && u !in unread && (role == None || store[u].id.roleName == role.value) then [u] else [];
      Regroup([order[0]], Matching(store, order[1..], unread, role), more);
    }
  }

  /** A selection is the first that match, in the order of the listing, up to the limit. */
  lemma {:induction false} SelectIsTheFirst(
    store: map<string, Record>, order: seq<string>, unread: set<string>, role: Option<string>, limit: nat)
    ensures var all := Matching(store, order, unread, role);
      Select(store, order, unread, role, limit) == if limit < |all| then all[..limit] else all
  {
    if order == [] {
      assert Matching(store, order, unread, role) == [];
    } else {
      var init, u := order[..|order| - 1], order[|order| - 1];
      SelectIsTheFirst(store, init, unread, role, limit);
      MatchingOneMore(store, init, unread, role, u);
      assert order == init + [u];
    }
  }

  /** The names a batch renewal is to work on: the given ones or else those of the role, the first so many. */
  ghost function Wanted(
    s: State, roles: map<string, Role>, roleName: string, count: int, given: seq<string>, order: seq<string>,
    unread: set<string>): seq<string>
  {
    if roleName !in roles then []
    else
      var asked := if count <= 0 && roles[roleName].batchSize > 0 then roles[roleName].batchSize else count;
      var limit := if asked < 1 then 1 else if asked > 100 then 100 else asked;
      var all := if given != [] then given else Matching(s.store, order, unread, Some(roleName));
      if limit < |all| then all[..limit] else all
  }

  lemma BatchTargetsAreWanted(
    s: State, roles: map<string, Role>, roleName: string, count: int, given: seq<string>, order: seq<string>,
    unread: set<string>)
    requires UnderOwnName(s.store)
    ensures BatchTargets(s, roles, roleName, count, given, order, unread)
      == Wanted(s, roles, roleName, count, given, order, unread)
  {
    if roleName in roles && given == [] {
      var limit := RenewLimit(roles[roleName], count);
      SelectIsTheFirst(s.store, order, unread, Some(roleName), limit);
      SelectPicks(s.store, order, unread, Some(roleName), limit);
      Revocation.UsernamesAreKeys(s.store, Select(s.store, order, unread, Some(roleName), limit));
    }
  }

  ghost function BatchRenewal(
    roles: map<string, Role>, roleName: string, given: seq<string>, names: seq<string>, env: Env): seq<Check>
  {
    [Check(env.roleOk, RoleFailed), Check(roleName in roles, RoleMissing), Check(env.configOk, ConfigFailed),
     Check(given == [] || env.nameOk, InvalidName), Check(given != [] || env.countOk, CountFailed),
     Check(names != [], NothingToRenew), Check(env.connectOk, ConnectFailed), Check(env.preflightOk, Preflight)]
  }

  /** A batch renewal is refused as a whole, or answers each name it is to work on, for the lifetime of its role. */
  lemma BatchRenewalIs(
    s: State, roles: map<string, Role>, roleName: string, count: int, given: seq<string>, order: seq<string>,
    unread: set<string>, env: Env, turns: seq<Turn>)
    requires |turns| >= 100 && UnderOwnName(s.store)
    ensures var (t, answer) := RenewBatch(s, roles, roleName, count, given, order, unread, env, turns);
      var names := Wanted(s, roles, roleName, count, given, order, unread);
      var checks := BatchRenewal(roles, roleName, given, names, env);
      match answer
      case Failed(e) => t == s && Verdict(checks, Refused(e))
      case Lines(rs) =>
        && Verdict(checks, Done) && |rs| == |names| <= 100
        && RenewedInTurn(s, t, roles[roleName].defaultTTL, names, turns, rs)
  {
    BatchTargetsAreWanted(s, roles, roleName, count, given, order, unread);
    var names := BatchTargets(s, roles, roleName, count, given, order, unread);
    BatchRefusalIs(roles, roleName, given, names, env);
    if BatchRefusal(roles, roleName, given, names, env) == None {
      RenewalTurnsAre(s, roles[roleName].defaultTTL, names, turns, |names|);
    }
  }

  lemma BatchRefusalIs(roles: map<string, Role>, roleName: string, given: seq<string>, names: seq<string>, env: Env)
    ensures var checks := BatchRenewal(roles, roleName, given, names, env);
      match BatchRefusal(roles, roleName, given, names, env)
      case Some(e) => Verdict(checks, Refused(e))
      case None => Verdict(checks, Done) && roleName in roles
  {
    var checks := BatchRenewal(roles, roleName, given, names, env);
    if BatchRefusal(roles, roleName, given, names, env).Some? {
      var i := if !env.roleOk then 0 else if roleName !in roles then 1 else if !env.configOk then 2 else
        if !checks[3].passes then 3 else if !checks[4].passes then 4 else if names == [] then 5 else
        if !env.connectOk then 6 else 7;
      assert FirstFailing(checks, i);
    }
  }

  // ----- extension ------------------------------------------------------------------------

  /** The record at place `i` is the first in the listing with the lease. */
  ghost predicate FirstWithLease(store: map<string, Record>, order: seq<string>, leaseId: string, i: int) {
    && 0 <= i < |order| && HasLease(store, order[i], leaseId)
    && forall j :: 0 <= j < i ==> !HasLease(store, order[j], leaseId)
  }

  predicate HasLease(store: map<string, Record>, u: string, leaseId: string) {
    u in store && store[u].id.leaseId == leaseId
  }

  lemma {:induction false} FindLeaseIsTheFirst(store: map<string, Record>, order: seq<string>, leaseId: string)
    ensures match FindLease(store, order, leaseId)
      case Some(u) => exists i :: FirstWithLease(store, order, leaseId, i) && order[i] == u
      case None => forall i :: 0 <= i < |order| ==> !HasLease(store, order[i], leaseId)
  {
    if order == [] {
    } else if HasLease(store, order[0], leaseId) {
      assert FirstWithLease(store, order, leaseId, 0);
    } else {
      FindLeaseIsTheFirst(store, order[1..], leaseId);
      if i :| FirstWithLease(store, order[1..], leaseId, i) {
        assert FirstWithLease(store, order, leaseId, i + 1);
      }
      assert forall i :: 0 < i < |order| ==> order[i] == order[1..][i - 1];
    }
  }

  /** The lifetime wanted, cut to what the maximum leaves, if there is one. */
  ghost function Lifetime(role: Role, r: Record, requested: int, clock: ExtendClock): int {
    var wanted := if requested > 0 then requested else role.defaultTTL;
    var left := role.maxTTL - (clock.cap - r.id.createdAt);
    if role.maxTTL > 0 && left < wanted then left else wanted
  }

  /** The checks of an extension of record `r`; without a maximum nothing is asked of the lifetime. */
  ghost function Extension(
    roles: map<string, Role>, r: Record, requested: int, clock: ExtendClock, env: Env): seq<Check>
  {
    var known := r.id.roleName in roles;
    [Check(env.roleOk, RoleFailed), Check(known, RoleMissing), Check(clock.expiry <= r.expiresAt, Expired),
     Check(known && (roles[r.id.roleName].maxTTL > 0 ==>
             && clock.limit - r.id.createdAt < roles[r.id.roleName].maxTTL
             && Lifetime(roles[r.id.roleName], r, requested, clock) > 0), MaxTTLReached),
     Check(env.putOk, PutFailed)]
  }

  lemma ExtensionOfRecordIs(roles: map<string, Role>, r: Record, requested: int, clock: ExtendClock, env: Env)
    ensures var (after, out) := Extended(roles, r, requested, clock, env);
      && Verdict(Extension(roles, r, requested, clock, env), out)
      && (out == Done ==>
            && after.id == r.id && after.lastRenewed == clock.renewed
            && after.expiresAt == clock.end + Lifetime(roles[r.id.roleName], r, requested, clock))
  {
    var checks := Extension(roles, r, requested, clock, env);
    if Extended(roles, r, requested, clock, env).1 != Done {
      var i := if !env.roleOk then 0 else if r.id.roleName !in roles then 1 else if !checks[2].passes then 2 else
        if !checks[3].passes then 3 else 4;
      assert FirstFailing(checks, i);
    }
  }

  /** An extension gives the first record with the lease its lifetime, from now on, or changes nothing. */
  lemma ExtensionIs(
    s: State, roles: map<string, Role>, order: seq<string>, leaseId: string, requested: int, clock: ExtendClock,
    env: Env)
    ensures var (t, out) := Extend(s, roles, order, leaseId, requested, clock, env);
      && (out != Done ==> t == s)
      && Verdict(
           [Check(leaseId != "", LeaseRequired), Check(env.countOk, LoadFailed),
            Check(exists i :: FirstWithLease(s.store, order, leaseId, i), NotFound)],
           if leaseId != "" && env.countOk && exists i :: FirstWithLease(s.store, order, leaseId, i) then Done else out)
      && forall i :: leaseId != "" && env.countOk && FirstWithLease(s.store, order, leaseId, i) ==>
           var r := s.store[order[i]];
           && Verdict(Extension(roles, r, requested, clock, env), out)
           && (out == Done ==>
                 && r.id.roleName in roles && order[i] in t.store
                 && t == State(s.store[order[i] := t.store[order[i]]], s.users)
                 && t.store[order[i]].id == r.id && t.store[order[i]].lastRenewed == clock.renewed
                 && t.store[order[i]].expiresAt == clock.end + Lifetime(roles[r.id.roleName], r, requested, clock))
  {
    FindLeaseIsTheFirst(s.store, order, leaseId);
    var out := Extend(s, roles, order, leaseId, requested, clock, env).1;
    var found := exists i :: FirstWithLease(s.store, order, leaseId, i);
    var checks := [Check(leaseId != "", LeaseRequired), Check(env.countOk, LoadFailed), Check(found, NotFound)];
    if leaseId == "" || !env.countOk || !found {
      assert FirstFailing(checks, if leaseId == "" then 0 else if !env.countOk then 1 else 2);
    } else {
      var u := FindLease(s.store, order, leaseId).value;
      forall i | FirstWithLease(s.store, order, leaseId, i) ensures order[i] == u {
        var j :| FirstWithLease(s.store, order, leaseId, j) && order[j] == u;
      }
      ExtensionOfRecordIs(roles, s.store[u], requested, clock, env);
    }
  }
}
