/** What each revocation and the cleanup answer, and exactly which records and users they leave. */
module Removals {
  import opened Common
  import opened Text
  import opened Vault
  import opened Outcomes
  import Revocation

  // ----- revocation -----------------------------------------------------------------------

  /** The calls every revocation ends with. */
  ghost function Drop(env: Env): seq<Check> {
    [Check(env.connectOk, ConnectFailed), Check(env.statementOk, StatementFailed), Check(env.dropOk, DropFailed),
     Check(env.deleteOk, DeleteFailed)]
  }

  /** User and record go, or the user alone when the record cannot be deleted, or nothing. */
  ghost predicate Removed(s: State, t: State, u: string, out: Outcome) {
    match out
    case Done => t == State(s.store - {u}, s.users - {u})
    case Refused(DeleteFailed) => t == State(s.store, s.users - {u})
    case _ => t == s
  }

  ghost function Revoking(s: State, u: string, getOk: bool, env: Env): seq<Check> {
    [Check(env.nameOk, InvalidName), Check(getOk, LoadFailed), Check(u in s.store, NotFound),
     Check(env.roleOk, RoleFailed), Check(env.configOk, ConfigFailed)]
  }

  lemma RevocationIs(s: State, u: string, getOk: bool, env: Env)
    ensures var (t, out) := Revoke(s, u, getOk, env);
      Verdict(Revoking(s, u, getOk, env) + Drop(env), out) && Removed(s, t, u, out)
  {
    var checks := Revoking(s, u, getOk, env) + Drop(env);
    if Revoke(s, u, getOk, env).1 != Done {
      var i := if !env.nameOk then 0 else if !getOk then 1 else if u !in s.store then 2 else if !env.roleOk then 3 else
        if !env.configOk then 4 else if !env.connectOk then 5 else if !env.statementOk then 6 else
        if !env.dropOk then 7 else 8;
      assert FirstFailing(checks, i);
    }
  }

  /** The checks of one turn of a bulk revocation, by what the handler looks at before a user is dropped. */
  ghost function RevocationTurn(mode: Mode, stored: bool, turn: Turn): seq<Check> {
    match mode
    case Named =>
      [Check(turn.env.nameOk, InvalidName), Check(turn.getOk, LoadFailed), Check(stored, NotFound),
       Check(turn.roleOk, RoleFailed)] + Drop(turn.env)
    case OneRole => Drop(turn.env)
    case Everyone => [Check(turn.roleOk, RoleFailed)] + Drop(turn.env)
  }

  lemma RevocationTurnIs(mode: Mode, s: State, u: string, turn: Turn)
    ensures var (t, out) := RevokeItem(mode, s, u, turn);
      Verdict(RevocationTurn(mode, u in s.store, turn), out) && Removed(s, t, u, out)
  {
    var checks := RevocationTurn(mode, u in s.store, turn);
    if RevokeItem(mode, s, u, turn).1 != Done {
      var before := if mode == Named then 4 else if mode == OneRole then 0 else 1;
      var i := if mode == Named && !turn.env.nameOk then 0 else if mode == Named && !turn.getOk then 1 else
        if mode == Named && u !in s.store then 2 else if mode != OneRole && !turn.roleOk then before - 1 else
        if !turn.env.connectOk then before else if !turn.env.statementOk then before + 1 else
        if !turn.env.dropOk then before + 2 else before + 3;
      assert FirstFailing(checks, i);
    }
  }

  /** The names of the results with one of two outcomes. */
  function With(rs: seq<Result>, a: Outcome, b: Outcome): set<string> {
    set i | 0 <= i < |rs| && (rs[i].outcome == a || rs[i].outcome == b) :: rs[i].username
  }

  /** What some turns answer and leave: a name done has lost user and record, one whose delete failed its user. */
  ghost predicate RevokedInTurn(
    mode: Mode, s: State, t: State, names: seq<string>, turns: seq<Turn>, rs: seq<Result>)
    requires |rs| <= |names| <= |turns|
  {
    && (forall i :: 0 <= i < |rs| ==> RevocationAnswered(mode, s, names, turns, rs, i))
    && t.store == s.store - With(rs, Done, Done)
    && t.users == s.users - With(rs, Done, Refused(DeleteFailed))
  }

  /** The answer of turn number `i`; a name is stored unless an earlier turn deleted it. */
  ghost predicate RevocationAnswered(
    mode: Mode, s: State, names: seq<string>, turns: seq<Turn>, rs: seq<Result>, i: nat)
    requires i < |rs| <= |names| <= |turns|
  {
    && rs[i].username == names[i]
    && var stored := names[i] in s.store && names[i] !in With(rs[..i], Done, Done);
       Verdict(RevocationTurn(mode, stored, turns[i]), rs[i].outcome)
  }

  lemma WithOneMore(rs: seq<Result>, r: Result, a: Outcome, b: Outcome)
    ensures With(rs + [r], a, b) == With(rs, a, b) + if r.outcome == a || r.outcome == b then {r.username} else {}
  {
    var more := rs + [r];
    assert forall i :: 0 <= i < |rs| ==> more[i] == rs[i];
    assert more[|rs|] == r;
  }

  lemma NoneRevoked(mode: Mode, s: State, names: seq<string>, turns: seq<Turn>)
    requires |names| <= |turns|
    ensures RevokedInTurn(mode, s, s, names, turns, [])
  {
    assert With([], Done, Done) == {} && With([], Done, Refused(DeleteFailed)) == {};
    assert s.store - {} == s.store && s.users - {} == s.users;
  }

  lemma {:induction false} RevocationTurnsAre(mode: Mode, s: State, names: seq<string>, turns: seq<Turn>, k: nat)
    requires k <= |names| <= |turns|
    ensures var (t, rs) := RevokeFirst(mode, s, names, turns, k);
      |rs| == k && RevokedInTurn(mode, s, t, names, turns, rs)
  {
    if k == 0 {
      NoneRevoked(mode, s, names, turns);
    } else {
      RevocationTurnsAre(mode, s, names, turns, k - 1);
      var (t, rs) := RevokeFirst(mode, s, names, turns, k - 1);
      var (t', out) := RevokeItem(mode, t, names[k - 1], turns[k - 1]);
      assert RevokeFirst(mode, s, names, turns, k) == (t', rs + [Result(names[k - 1], out)]);
      RevocationTurnIs(mode, t, names[k - 1], turns[k - 1]);
      RevokedOneMore(mode, s, t, t', names, turns, rs, out);
    }
  }

  lemma RevokedOneMore(
    mode: Mode, s: State, t: State, t': State, names: seq<string>, turns: seq<Turn>, rs: seq<Result>, out: Outcome)
    requires |rs| < |names| <= |turns| && RevokedInTurn(mode, s, t, names, turns, rs)
    requires var u := names[|rs|];
      Verdict(RevocationTurn(mode, u in t.store, turns[|rs|]), out) && Removed(t, t', u, out)
    ensures RevokedInTurn(mode, s, t', names, turns, rs + [Result(names[|rs|], out)])
  {
    var u := names[|rs|];
    WithOneMore(rs, Result(u, out), Done, Done);
    WithOneMore(rs, Result(u, out), Done, Refused(DeleteFailed));
    AnsweredOneMore(mode, s, names, turns, rs, out);
    Without(s.store, With(rs, Done, Done), u);
    assert s.users - With(rs, Done, Refused(DeleteFailed)) - {u} ==
      s.users - (With(rs, Done, Refused(DeleteFailed)) + {u});
  }

  lemma AnsweredOneMore(
    mode: Mode, s: State, names: seq<string>, turns: seq<Turn>, rs: seq<Result>, out: Outcome)
    requires |rs| < |names| <= |turns|
    requires forall i :: 0 <= i < |rs| ==> RevocationAnswered(mode, s, names, turns, rs, i)
    requires var u := names[|rs|]; var stored := u in s.store && u !in With(rs, Done, Done);
      Verdict(RevocationTurn(mode, stored, turns[|rs|]), out)
    ensures var more := rs + [Result(names[|rs|], out)];
      forall i :: 0 <= i < |more| ==> RevocationAnswered(mode, s, names, turns, more, i)
  {
    var more := rs + [Result(names[|rs|], out)];
    forall i | 0 <= i < |more| ensures RevocationAnswered(mode, s, names, turns, more, i) {
      if i < |rs| {
        assert more[i] == rs[i] && more[..i] == rs[..i];
        assert RevocationAnswered(mode, s, names, turns, rs, i);
      } else {
        assert more[..i] == rs;
      }
    }
  }

  lemma Without(store: map<string, Record>, gone: set<string>, u: string)
    ensures store - gone - {u} == store - (gone + {u})
  {}

  /** A whole bulk revocation: refused, or each name answered in turn. */
  ghost predicate BulkAnswer(
    mode: Mode, checks: seq<Check>, s: State, t: State, names: seq<string>, turns: seq<Turn>, answer: Answer)
    requires |names| <= |turns|
  {
    match answer
    case Failed(e) => t == s && Verdict(checks, Refused(e))
    case Lines(rs) => Verdict(checks, Done) && |rs| == |names| && RevokedInTurn(mode, s, t, names, turns, rs)
  }

  /** The given names are revoked in turn, as often as they are given. */
  lemma BulkRevocationIs(s: State, names: seq<string>, env: Env, turns: seq<Turn>)
    requires |names| <= |turns|
    ensures var (t, answer) := BulkRevoke(s, names, env, turns);
      var checks := [Check(names != [], InvalidName), Check(env.configOk, ConfigFailed)];
      BulkAnswer(Named, checks, s, t, names, turns, answer)
  {
    var checks := [Check(names != [], InvalidName), Check(env.configOk, ConfigFailed)];
    if names == [] || !env.configOk {
      assert FirstFailing(checks, if names == [] then 0 else 1);
    } else {
      RevocationTurnsAre(Named, s, names, turns, |names|);
    }
  }

  lemma {:induction false} MatchingIsShort(
    store: map<string, Record>, order: seq<string>, unread: set<string>, role: Option<string>)
    ensures |Matching(store, order, unread, role)| <= |order|
  {
    if order == [] {
    } else {
      MatchingIsShort(store, order[1..], unread, role);
    }
  }

  /** Each readable record of the role is revoked, in the order of the listing. */
  lemma RoleRevocationIs(
    s: State, roles: map<string, Role>, roleName: string, order: seq<string>, unread: set<string>, env: Env,
    turns: seq<Turn>)
    requires |order| <= |turns|
    ensures var (t, answer) := RevokeByRole(s, roles, roleName, order, unread, env, turns);
      var checks :=
        [Check(roleName != "", RoleMissing), Check(env.configOk, ConfigFailed), Check(env.roleOk, RoleFailed),
         Check(roleName in roles, RoleMissing), Check(env.countOk, CountFailed)];
      var names := Matching(s.store, order, unread, Some(roleName));
      |names| <= |turns| && BulkAnswer(OneRole, checks, s, t, names, turns, answer)
  {
    var checks :=
      [Check(roleName != "", RoleMissing), Check(env.configOk, ConfigFailed), Check(env.roleOk, RoleFailed),
       Check(roleName in roles, RoleMissing), Check(env.countOk, CountFailed)];
    var names := Matching(s.store, order, unread, Some(roleName));
    SelectIsTheFirst(s.store, order, unread, Some(roleName), |order|);
    MatchingIsShort(s.store, order, unread, Some(roleName));
    if RevokeByRole(s, roles, roleName, order, unread, env, turns).1.Failed? {
      var i := if roleName == "" then 0 else if !env.configOk then 1 else if !env.roleOk then 2 else
        if roleName !in roles then 3 else 4;
      assert FirstFailing(checks, i);
    } else {
      RevocationTurnsAre(OneRole, s, names, turns, |names|);
    }
  }

  /** Each readable record is revoked, in the order of the listing. */
  lemma GeneralRevocationIs(s: State, order: seq<string>, unread: set<string>, env: Env, turns: seq<Turn>)
    requires |order| <= |turns| && UnderOwnName(s.store)
    ensures var (t, answer) := RevokeEveryone(s, order, unread, env, turns);
      var checks := [Check(env.configOk, ConfigFailed), Check(env.countOk, CountFailed)];
      var names := Matching(s.store, order, unread, None);
      |names| <= |turns| && BulkAnswer(Everyone, checks, s, t, names, turns, answer)
  {
    var checks := [Check(env.configOk, ConfigFailed), Check(env.countOk, CountFailed)];
    var names := Matching(s.store, order, unread, None);
    SelectIsTheFirst(s.store, order, unread, None, |order|);
    MatchingIsShort(s.store, order, unread, None);
    if !env.configOk || !env.countOk {
      assert FirstFailing(checks, if !env.configOk then 0 else 1);
    } else {
      SelectPicks(s.store, order, unread, None, |order|);
      Revocation.UsernamesAreKeys(s.store, names);
      RevocationTurnsAre(Everyone, s, names, turns, |names|);
    }
  }

  // ----- cleanup and lease revocation -----------------------------------------------------

  /** The cleanup drops the user at place `i` of the listing. */
  predicate TakesOut(s: State, order: seq<string>, now: int, turns: seq<Turn>, i: int)
    requires 0 <= i < |order| <= |turns|
  {
    turns[i].getOk && order[i] in s.store && s.store[order[i]].expiresAt < now && turns[i].env.dropOk
  }

  /** The names of a listing whose users the cleanup drops, and those whose records it deletes as well. */
  function TakenOut(s: State, order: seq<string>, now: int, turns: seq<Turn>, k: nat, deleted: bool): set<string>
    requires k <= |order| <= |turns|
  {
    set i | 0 <= i < k && TakesOut(s, order, now, turns, i) && (deleted ==> turns[i].env.deleteOk) :: order[i]
  }

  lemma TakenOutOneMore(s: State, order: seq<string>, now: int, turns: seq<Turn>, k: nat, deleted: bool)
    requires k < |order| <= |turns|
    ensures TakenOut(s, order, now, turns, k + 1, deleted) ==
      TakenOut(s, order, now, turns, k, deleted) +
      if TakesOut(s, order, now, turns, k) && (deleted ==> turns[k].env.deleteOk) then {order[k]} else {}
  {}

  /** What `k` turns of the cleanup have left, and counted. */
  ghost predicate SweptSoFar(
    s: State, order: seq<string>, now: int, turns: seq<Turn>, k: nat, t: State, n: nat)
    requires k <= |order| <= |turns|
  {
    && t.store == s.store - TakenOut(s, order, now, turns, k, true)
    && t.users == s.users - TakenOut(s, order, now, turns, k, false)
    && n == |TakenOut(s, order, now, turns, k, true)|
  }

  lemma NotTakenOutYet(s: State, order: seq<string>, now: int, turns: seq<Turn>, k: nat)
    requires k < |order| <= |turns| && Distinct(order)
    ensures order[k] !in TakenOut(s, order, now, turns, k, true)
  {}

  lemma CleanupItemIs(s: State, u: string, now: int, turn: Turn)
    ensures var (t, n) := CleanItem(s, u, now, turn);
      var dropped := turn.getOk && u in s.store && s.store[u].expiresAt < now && turn.env.dropOk;
      && t.store == s.store - (if dropped && turn.env.deleteOk then {u} else {})
      && t.users == s.users - (if dropped then {u} else {})
      && n == if dropped && turn.env.deleteOk then 1 else 0
  {
    assert s.store - {} == s.store && s.users - {} == s.users;
  }

  lemma RecordsAfterTurn(s: State, order: seq<string>, now: int, turns: seq<Turn>, k: nat, t: State)
    requires k < |order| <= |turns| && Distinct(order)
    requires t.store == s.store - TakenOut(s, order, now, turns, k, true)
    ensures var (t', m) := CleanItem(t, order[k], now, turns[k]);
      && t'.store == s.store - TakenOut(s, order, now, turns, k + 1, true)
      && |TakenOut(s, order, now, turns, k, true)| + m == |TakenOut(s, order, now, turns, k + 1, true)|
  {
    NotTakenOutYet(s, order, now, turns, k);
    TakenOutOneMore(s, order, now, turns, k, true);
    CleanupItemIs(t, order[k], now, turns[k]);
    var gone := if TakesOut(s, order, now, turns, k) && turns[k].env.deleteOk then {order[k]} else {};
    WithoutBoth(s.store, TakenOut(s, order, now, turns, k, true), gone);
  }

  lemma UsersAfterTurn(s: State, order: seq<string>, now: int, turns: seq<Turn>, k: nat, t: State)
    requires k < |order| <= |turns| && Distinct(order)
    requires t.store == s.store - TakenOut(s, order, now, turns, k, true)
    requires t.users == s.users - TakenOut(s, order, now, turns, k, false)
    ensures CleanItem(t, order[k], now, turns[k]).0.users == s.users - TakenOut(s, order, now, turns, k + 1, false)
  {
    NotTakenOutYet(s, order, now, turns, k);
    TakenOutOneMore(s, order, now, turns, k, false);
    CleanupItemIs(t, order[k], now, turns[k]);
    var out := if TakesOut(s, order, now, turns, k) then {order[k]} else {};
    assert s.users - TakenOut(s, order, now, turns, k, false) - out ==
      s.users - (TakenOut(s, order, now, turns, k, false) + out);
  }

  lemma WithoutBoth(store: map<string, Record>, a: set<string>, b: set<string>)
    ensures store - a - b == store - (a + b)
  {}

  lemma {:induction false} CleanupTurnsAre(s: State, order: seq<string>, now: int, turns: seq<Turn>, k: nat)
    requires k <= |order| <= |turns| && Distinct(order)
    ensures var (t, n) := CleanFirst(s, order, now, turns, k); SweptSoFar(s, order, now, turns, k, t, n)
  {
    if k == 0 {
      NoneTakenOut(s, order, now, turns);
    } else {
      CleanupTurnsAre(s, order, now, turns, k - 1);
      var (t, n) := CleanFirst(s, order, now, turns, k - 1);
      RecordsAfterTurn(s, order, now, turns, k - 1, t);
      UsersAfterTurn(s, order, now, turns, k - 1, t);
    }
  }

  lemma NoneTakenOut(s: State, order: seq<string>, now: int, turns: seq<Turn>)
    requires |order| <= |turns|
    ensures SweptSoFar(s, order, now, turns, 0, s, 0)
  {
    assert TakenOut(s, order, now, turns, 0, true) == {} && TakenOut(s, order, now, turns, 0, false) == {};
    assert s.store - {} == s.store && s.users - {} == s.users;
  }

  /** The cleanup answers how many records it deleted: the expired ones whose reads, drops and deletes succeed. */
  lemma CleanupIs(s: State, order: seq<string>, now: int, env: Env, turns: seq<Turn>)
    requires |order| <= |turns| && Lists(order, s.store)
    ensures var (t, count) := Cleanup(s, order, now, env, turns);
      && (count.Some? <==> env.configOk && env.countOk)
      && (count.None? ==> t == s)
      && (count.Some? ==>
            && count.value == |s.store| - |t.store|
            && t.store == s.store - TakenOut(s, order, now, turns, |order|, true)
            && t.users == s.users - TakenOut(s, order, now, turns, |order|, false)
            && (forall u :: u in s.store && u !in t.store ==> s.store[u].expiresAt < now)
            && ((forall i :: 0 <= i < |order| ==> turns[i].getOk && turns[i].env.dropOk && turns[i].env.deleteOk) ==>
                  count.value == |set u | u in s.store && s.store[u].expiresAt < now|))
  {
    if env.configOk && env.countOk {
      CleanupTurnsAre(s, order, now, turns, |order|);
      var gone := TakenOut(s, order, now, turns, |order|, true);
      assert (s.store - gone).Keys == s.store.Keys - gone && gone <= s.store.Keys;
      if forall i :: 0 <= i < |order| ==> turns[i].getOk && turns[i].env.dropOk && turns[i].env.deleteOk {
        forall u | u in s.store && s.store[u].expiresAt < now ensures u in gone {
          assert u in order;
          var i :| 0 <= i < |order| && order[i] == u;
          assert TakesOut(s, order, now, turns, i);
        }
        assert gone == set u | u in s.store && s.store[u].expiresAt < now;
      }
    }
  }

  /** A lease of this engine: its prefix, the role, and the username, which ends at the next slash if there is one. */
  ghost predicate Reads(leaseId: string, roleName: string, u: string) {
    && '/' !in roleName && '/' !in u
    && (leaseId == "teradata/creds/" + roleName + "/" + u ||
        "teradata/creds/" + roleName + "/" + u + "/" <= leaseId)
  }

  /** The framework's revocation of a lease: no lease of this engine is done at once; otherwise the user goes. */
  lemma LeaseRevocationIs(s: State, leaseId: string, getOk: bool, env: Env)
    ensures var (t, out) := LeaseRevoke(s, leaseId, getOk, env);
      && (out != Done ==> t == s)
      && ((forall r, u :: !Reads(leaseId, r, u)) ==> t == s && out == Done)
      && forall r, u :: Reads(leaseId, r, u) ==>
           && Verdict(
                [Check(getOk, LoadFailed), Check(env.configOk, ConfigFailed), Check(env.roleOk, RoleFailed),
                 Check(env.connectOk, ConnectFailed), Check(env.dropOk, DropFailed)], out)
           && (out == Done ==> t == State(s.store, s.users - {u}))
  {
    var (t, out) := LeaseRevoke(s, leaseId, getOk, env);
    LeasePartsAre(leaseId);
    forall r, u | Reads(leaseId, r, u)
      ensures LeaseParts(leaseId) == Some((r, u))
      ensures Verdict(
        [Check(getOk, LoadFailed), Check(env.configOk, ConfigFailed), Check(env.roleOk, RoleFailed),
         Check(env.connectOk, ConnectFailed), Check(env.dropOk, DropFailed)], out)
    {
      ReadsToParts(leaseId, r, u);
      var checks :=
        [Check(getOk, LoadFailed), Check(env.configOk, ConfigFailed), Check(env.roleOk, RoleFailed),
         Check(env.connectOk, ConnectFailed), Check(env.dropOk, DropFailed)];
      if out != Done {
        var i := if !getOk then 0 else if !env.configOk then 1 else if !env.roleOk then 2 else
          if !env.connectOk then 3 else 4;
        assert FirstFailing(checks, i);
      }
    }
  }

  lemma LeasePartsAre(leaseId: string)
    ensures match LeaseParts(leaseId)
      case Some((r, u)) => Reads(leaseId, r, u)
      case None => forall r, u :: !Reads(leaseId, r, u)
  {
    var parts := Split(leaseId, '/');
    forall r, u | Reads(leaseId, r, u) ensures LeaseParts(leaseId) == Some((r, u)) {
      ReadsToParts(leaseId, r, u);
    }
    if LeaseParts(leaseId).Some? {
      JoinSplit(leaseId, '/');
      assert parts == ["teradata", "creds", parts[2], parts[3]] + parts[4..];
      var rest := parts[4..];
      FourJoined(parts[2], parts[3], rest);
    }
  }

  lemma ReadsToParts(leaseId: string, r: string, u: string)
    requires Reads(leaseId, r, u)
    ensures LeaseParts(leaseId) == Some((r, u))
  {
    var short := "teradata/creds/" + r + "/" + u;
    if leaseId == short {
      assert LeaseId(r, u) == short;
      LeasePartsOfLeaseId(r, u);
    } else {
      assert leaseId == short + "/" + leaseId[|short| + 1..];
      LongerLease(leaseId, r, u, leaseId[|short| + 1..]);
    }
  }

  lemma LongerLease(leaseId: string, r: string, u: string, more: string)
    requires '/' !in r && '/' !in u && leaseId == "teradata/creds/" + r + "/" + u + "/" + more
    ensures LeaseParts(leaseId) == Some((r, u))
  {
    var last := u + "/" + more;
    var tail := r + "/" + last;
    assert leaseId == "teradata" + "/" + ("creds" + "/" + tail);
    SplitFirst("teradata", '/', "creds" + "/" + tail);
    SplitFirst("creds", '/', tail);
    SplitFirst(r, '/', last);
    SplitFirst(u, '/', more);
    var parts := Split(leaseId, '/');
    assert parts == ["teradata"] + (["creds"] + ([r] + ([u] + Split(more, '/'))));
    assert parts[0] == "teradata" && parts[1] == "creds" && parts[2] == r && parts[3] == u;
  }

  lemma FourJoined(r: string, u: string, rest: seq<string>)
    ensures var joined := Join(["teradata", "creds", r, u] + rest, '/');
      var short := "teradata/creds/" + r + "/" + u;
      joined == short || short + "/" <= joined
  {
    var four := ["teradata", "creds", r, u] + rest;
    assert four[1..] == ["creds", r, u] + rest;
    assert four[1..][1..] == [r, u] + rest;
    assert four[1..][1..][1..] == [u] + rest;
    assert ([u] + rest)[1..] == rest;
    var last := Join([u] + rest, '/');
    assert last == u || u + "/" <= last by {
      if rest != [] {
        assert last == u + ['/'] + Join(rest, '/');
      }
    }
    var three := r + ['/'] + last;
    assert Join([r, u] + rest, '/') == three;
    assert Join(["creds", r, u] + rest, '/') == "creds" + ['/'] + three;
    var joined := "teradata" + ['/'] + ("creds" + ['/'] + three);
    assert Join(four, '/') == joined;
    assert joined == "teradata/creds/" + r + "/" + last;
  }
}
