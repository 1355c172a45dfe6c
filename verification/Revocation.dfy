/** What the three bulk revocations and the expiry cleanup add up to. */
module Revocation {
  import opened Common
  import opened Vault

  /** The usernames a list of results reports as revoked. */
  ghost function Revoked(rs: seq<Result>): set<string> {
    if rs == [] then {}
    else
      var last := rs[|rs| - 1];
      Revoked(rs[..|rs| - 1]) + if last.outcome == Done then {last.username} else {}
  }

  lemma {:induction false} RevokedMeans(rs: seq<Result>, u: string)
    ensures u in Revoked(rs) <==> exists i :: 0 <= i < |rs| && rs[i] == Result(u, Done)
  {
    if rs == [] {
    } else {
      var init, last := rs[..|rs| - 1], rs[|rs| - 1];
      RevokedMeans(init, u);
      if u in Revoked(init) {
        var i :| 0 <= i < |init| && init[i] == Result(u, Done);
        assert rs[i] == Result(u, Done);
      }
      if i :| 0 <= i < |rs| && rs[i] == Result(u, Done) {
        assert i < |init| ==> init[i] == Result(u, Done);
      }
    }
  }

  /** The by-role and revoke-all loops run over distinct listed usernames; the named one over anything. */
  ghost predicate Removable(mode: Mode, s: State, names: seq<string>) {
    mode != Named ==> Distinct(names) && forall u :: u in names ==> u in s.store
  }

  /** The books after `rs` results: what is gone is what was reported, and nothing else changed. */
  ghost predicate Balanced(s: State, t: State, rs: seq<Result>) {
    && Successes(rs) + Failures(rs) == |rs|
    && |s.store| == |t.store| + Successes(rs)
    && Revoked(rs) <= s.store.Keys
    && t.store == s.store - Revoked(rs)
    && t.users <= s.users - Revoked(rs)
  }

  lemma CountDown(a: map<string, Record>, u: string)
    requires u in a
    ensures |a - {u}| == |a| - 1
  {
    assert (a - {u}).Keys == a.Keys - {u};
  }

  lemma BalancedRemoval(s: State, t: State, rs: seq<Result>, u: string)
    requires Balanced(s, t, rs) && u in t.store
    ensures Balanced(s, State(t.store - {u}, t.users - {u}), rs + [Result(u, Done)])
  {
    assert (rs + [Result(u, Done)])[..|rs|] == rs;
    CountDown(t.store, u);
    assert t.store - {u} == s.store - (Revoked(rs) + {u});
  }

  lemma BalancedFailure(s: State, t: State, rs: seq<Result>, t': State, r: Result)
    requires Balanced(s, t, rs) && r.outcome != Done
    requires t'.store == t.store && t'.users <= t.users
    ensures Balanced(s, t', rs + [r])
  {
    assert (rs + [r])[..|rs|] == rs;
  }

  lemma BalancedStep(s: State, t: State, rs: seq<Result>, t': State, r: Result)
    requires Balanced(s, t, rs)
    requires r.outcome == Done ==>
      r.username in t.store && t' == State(t.store - {r.username}, t.users - {r.username})
    requires r.outcome != Done ==> t'.store == t.store && t'.users <= t.users
    ensures Balanced(s, t', rs + [r])
  {
    if r.outcome == Done {
      BalancedRemoval(s, t, rs, r.username);
      assert r == Result(r.username, Done);
    } else {
      BalancedFailure(s, t, rs, t', r);
    }
  }

  lemma RevokeItemEffect(mode: Mode, s: State, u: string, turn: Turn)
    ensures var (t, out) := RevokeItem(mode, s, u, turn);
      && (out == Done ==> (mode == Named ==> u in s.store) && t == State(s.store - {u}, s.users - {u}))
      && (out != Done ==> t.store == s.store && t.users <= s.users)
  {}

  /** One result per requested username, in order. */
  lemma {:induction false} BulkRevokeAnswers(mode: Mode, s: State, names: seq<string>, turns: seq<Turn>, k: nat)
    requires k <= |names| <= |turns|
    ensures var rs := RevokeFirst(mode, s, names, turns, k).1;
      |rs| == k && forall i :: 0 <= i < k ==> rs[i].username == names[i]
  {
    if k == 0 {
    } else {
      BulkRevokeAnswers(mode, s, names, turns, k - 1);
    }
  }

  lemma BalancedAtFirst(s: State)
    ensures Balanced(s, s, [])
  {
    assert s.store - {} == s.store;
  }

  /** A name the other two loops have not reached is still stored. */
  lemma NotYetReached(s: State, t: State, names: seq<string>, rs: seq<Result>)
    requires Balanced(s, t, rs) && |rs| < |names|
    requires Distinct(names) && forall u :: u in names ==> u in s.store
    requires forall i :: 0 <= i < |rs| ==> rs[i].username == names[i]
    ensures names[|rs|] in t.store
  {
    RevokedMeans(rs, names[|rs|]);
  }

  /** The counters account for every result, and the store loses exactly what was reported revoked. */
  lemma {:induction false} BulkRevokeAddsUp(mode: Mode, s: State, names: seq<string>, turns: seq<Turn>, k: nat)
    requires k <= |names| <= |turns|
    requires Removable(mode, s, names)
    ensures Balanced(s, RevokeFirst(mode, s, names, turns, k).0, RevokeFirst(mode, s, names, turns, k).1)
  {
    if k == 0 {
      BalancedAtFirst(s);
    } else {
      BulkRevokeAddsUp(mode, s, names, turns, k - 1);
      BulkRevokeAnswers(mode, s, names, turns, k - 1);
      BulkRevokeTurn(mode, s, names, turns, k - 1);
    }
  }

  lemma {:induction false} BulkRevokeTurn(mode: Mode, s: State, names: seq<string>, turns: seq<Turn>, k: nat)
    requires k < |names| <= |turns|
    requires Removable(mode, s, names)
    requires var (t, rs) := RevokeFirst(mode, s, names, turns, k);
      Balanced(s, t, rs) && |rs| == k && forall i :: 0 <= i < k ==> rs[i].username == names[i]
    ensures Balanced(s, RevokeFirst(mode, s, names, turns, k + 1).0, RevokeFirst(mode, s, names, turns, k + 1).1)
  {
    var (t, rs) := RevokeFirst(mode, s, names, turns, k);
    var (t', out) := RevokeItem(mode, t, names[k], turns[k]);
    RevokeItemEffect(mode, t, names[k], turns[k]);
    if mode != Named {
      NotYetReached(s, t, names, rs);
    }
    BalancedStep(s, t, rs, t', Result(names[k], out));
  }

  /** What a later turn reports does not change what earlier turns reported. */
  lemma {:induction false} EarlierResultsStand(
    mode: Mode, s: State, names: seq<string>, turns: seq<Turn>, k: nat, j: nat)
    requires j <= k <= |names| <= |turns|
    ensures var rs := RevokeFirst(mode, s, names, turns, k).1;
      |rs| == k && rs[..j] == RevokeFirst(mode, s, names, turns, j).1
  {
    BulkRevokeAnswers(mode, s, names, turns, k);
    BulkRevokeAnswers(mode, s, names, turns, j);
    if j < k {
      EarlierResultsStand(mode, s, names, turns, k - 1, j);
    }
  }

  /** A username already reported revoked is not reported revoked by the next turn. */
  lemma NotRevokedAgain(mode: Mode, s: State, names: seq<string>, turns: seq<Turn>, i: nat, j: nat)
    requires i < j < |names| <= |turns|
    requires Removable(mode, s, names) && names[i] == names[j]
    requires var rs := RevokeFirst(mode, s, names, turns, j).1; |rs| == j && rs[i] == Result(names[i], Done)
    ensures RevokeItem(mode, RevokeFirst(mode, s, names, turns, j).0, names[j], turns[j]).1 != Done
  {
    var (t, rs) := RevokeFirst(mode, s, names, turns, j);
    BulkRevokeAddsUp(mode, s, names, turns, j);
    RevokedMeans(rs, names[j]);
    RevokeItemEffect(mode, t, names[j], turns[j]);
  }

  /** A username asked for twice is reported revoked at most once. */
  lemma {:induction false} RepeatedUsernameRevokedOnce(
      mode: Mode, s: State, names: seq<string>, turns: seq<Turn>, k: nat, i: nat, j: nat)
    requires k <= |names| <= |turns|
    requires Removable(mode, s, names)
    requires i < j < k && names[i] == names[j]
    ensures var rs := RevokeFirst(mode, s, names, turns, k).1;
      |rs| == k && !(rs[i].outcome == Done && rs[j].outcome == Done)
  {
    var rs := RevokeFirst(mode, s, names, turns, k).1;
    EarlierResultsStand(mode, s, names, turns, k, j);
    EarlierResultsStand(mode, s, names, turns, k, j + 1);
    BulkRevokeAnswers(mode, s, names, turns, k);
    assert rs[j] == rs[..j + 1][j];
    assert rs[i] == rs[..j][i];
    if rs[i].outcome == Done {
      NotRevokedAgain(mode, s, names, turns, i, j);
    }
  }

  /** The outside answers under which a turn of a bulk revocation cannot fail. */
  predicate AllOk(t: Turn) {
    t.getOk && t.roleOk && t.env.nameOk && t.env.connectOk && t.env.statementOk && t.env.dropOk && t.env.deleteOk
  }

  /** When every outside answer is a success, every requested username is gone from the store. */
  lemma {:induction false} BulkRevokeReaches(
    mode: Mode, s: State, names: seq<string>, turns: seq<Turn>, k: nat, u: string)
    requires k <= |names| <= |turns|
    requires u in names[..k]
    requires forall j :: 0 <= j < k ==> AllOk(turns[j])
    ensures u !in RevokeFirst(mode, s, names, turns, k).0.store
  {
    assert names[..k] == names[..k - 1] + [names[k - 1]];
    if u in names[..k - 1] {
      BulkRevokeReaches(mode, s, names, turns, k - 1, u);
      RevokeItemEffect(mode, RevokeFirst(mode, s, names, turns, k - 1).0, names[k - 1], turns[k - 1]);
    } else {
      assert AllOk(turns[k - 1]);
    }
  }

  /** Revoking a role touches no other role, and with every answer a success leaves it no credential. */
  lemma {:induction false} RevokeByRoleTheorem(s: State, roles: map<string, Role>, roleName: string, order: seq<string>,
                                               unread: set<string>, env: Env, turns: seq<Turn>)
    requires Lists(order, s.store) && |order| <= |turns|
    requires RevokeByRole(s, roles, roleName, order, unread, env, turns).1.Lines?
    ensures var (t, answer) := RevokeByRole(s, roles, roleName, order, unread, env, turns);
      && Balanced(s, t, answer.results)
      && Revoked(answer.results) <= Holders(s.store, roleName) - unread
      && ((forall j :: 0 <= j < |turns| ==> AllOk(turns[j])) ==> Holders(t.store, roleName) <= unread)
  {
    SelectPicks(s.store, order, unread, Some(roleName), |order|);
    var names := Select(s.store, order, unread, Some(roleName), |order|);
    ListingNamesAll(s.store, order, unread, Some(roleName));
    RevokedAreNamed(OneRole, s, names, turns);
    if forall j :: 0 <= j < |turns| ==> AllOk(turns[j]) {
      AllNamesGone(OneRole, s, names, turns);
    }
  }

  /** With every record under its own username, going by usernames is going by keys. */
  lemma UsernamesAreKeys(store: map<string, Record>, keys: seq<string>)
    requires UnderOwnName(store) && forall k :: k in keys ==> k in store
    ensures Usernames(store, keys) == keys
  {
    assert forall i :: 0 <= i < |keys| ==> keys[i] in keys;
  }

  /** When every answer is a success none of the names is left. */
  lemma {:induction false} AllNamesGone(mode: Mode, s: State, names: seq<string>, turns: seq<Turn>)
    requires |names| <= |turns| && forall j :: 0 <= j < |turns| ==> AllOk(turns[j])
    ensures forall u :: u in names ==> u !in RevokeFirst(mode, s, names, turns, |names|).0.store
  {
    assert names[..|names|] == names;
    forall u | u in names ensures u !in RevokeFirst(mode, s, names, turns, |names|).0.store {
      BulkRevokeReaches(mode, s, names, turns, |names|, u);
    }
  }

  /** Revoking everyone goes by the Username in each record, so it needs records to be under their own. */
  lemma {:induction false} RevokeEveryoneTheorem(
    s: State, order: seq<string>, unread: set<string>, env: Env, turns: seq<Turn>)
    requires Lists(order, s.store) && |order| <= |turns|
    requires UnderOwnName(s.store)
    requires RevokeEveryone(s, order, unread, env, turns).1.Lines?
    ensures var (t, answer) := RevokeEveryone(s, order, unread, env, turns);
      && Balanced(s, t, answer.results)
      && Revoked(answer.results) !! unread
      && ((forall j :: 0 <= j < |turns| ==> AllOk(turns[j])) ==> t.store.Keys <= unread)
  {
    SelectPicks(s.store, order, unread, None, |order|);
    var names := Select(s.store, order, unread, None, |order|);
    UsernamesAreKeys(s.store, names);
    ListingNamesAll(s.store, order, unread, None);
    RevokedAreNamed(Everyone, s, names, turns);
    if forall j :: 0 <= j < |turns| ==> AllOk(turns[j]) {
      AllNamesGone(Everyone, s, names, turns);
    }
  }

  /** A selection without an effective limit picks every readable match of the listing. */
  lemma {:induction false} ListingNamesAll(
    store: map<string, Record>, order: seq<string>, unread: set<string>, role: Option<string>)
    requires Lists(order, store)
    ensures forall u :: u in store && u !in unread && (role == None || store[u].id.roleName == role.value) ==>
      u in Select(store, order, unread, role, |order|)
  {
    SelectGrows(store, order, unread, role, |order|);
  }

  lemma {:induction false} SelectGrows(store: map<string, Record>, order: seq<string>, unread: set<string>,
                                       role: Option<string>, limit: nat)
    requires |order| <= limit
    ensures var ks := Select(store, order, unread, role, limit);
      && |ks| <= |order|
      && forall u :: u in order && u in store && u !in unread ==>
           (role == None || store[u].id.roleName == role.value) ==> u in ks
  {
    if order == [] {
    } else {
      SelectGrows(store, order[..|order| - 1], unread, role, limit);
      assert order == order[..|order| - 1] + [order[|order| - 1]];
    }
  }

  lemma {:induction false} RevokedAreNamed(mode: Mode, s: State, names: seq<string>, turns: seq<Turn>)
    requires |names| <= |turns| && Removable(mode, s, names)
    ensures var (t, rs) := RevokeFirst(mode, s, names, turns, |names|);
      Balanced(s, t, rs) && forall u :: u in Revoked(rs) ==> u in names
  {
    BulkRevokeAddsUp(mode, s, names, turns, |names|);
    BulkRevokeAnswers(mode, s, names, turns, |names|);
    var rs := RevokeFirst(mode, s, names, turns, |names|).1;
    forall u | u in Revoked(rs) ensures u in names {
      RevokedMeans(rs, u);
    }
  }

  /** The records a cleanup pass finds expired. */
  function ExpiredAt(store: map<string, Record>, now: int): set<string> {
    set u | u in store && now > store[u].expiresAt
  }

  /** The books of a cleanup that has removed the records `gone` and counted `n` of them. */
  ghost predicate Cleaned(s: State, now: int, gone: set<string>, t: State, n: nat) {
    && gone <= ExpiredAt(s.store, now)
    && n == |gone|
    && t.store == s.store - gone
    && t.users <= s.users - gone
  }

  /** What one turn of the cleanup takes out of the store. */
  ghost function Takes(s: State, u: string, now: int, turn: Turn): set<string> {
    if turn.getOk && u in s.store && now > s.store[u].expiresAt && turn.env.dropOk && turn.env.deleteOk then {u} else {}
  }

  ghost function Gone(s: State, order: seq<string>, now: int, turns: seq<Turn>, k: nat): set<string>
    requires k <= |order| <= |turns|
  {
    if k == 0 then {}
    else Gone(s, order, now, turns, k - 1) + Takes(s, order[k - 1], now, turns[k - 1])
  }

  lemma {:induction false} GoneIsListed(s: State, order: seq<string>, now: int, turns: seq<Turn>, k: nat, u: string)
    requires k <= |order| <= |turns|
    ensures u in Gone(s, order, now, turns, k) <==>
      exists j :: 0 <= j < k && order[j] == u && u in Takes(s, u, now, turns[j])
  {
    if k == 0 {
    } else {
      GoneIsListed(s, order, now, turns, k - 1, u);
    }
  }

  lemma CleanedStep(s: State, now: int, gone: set<string>, t: State, n: nat, u: string, turn: Turn)
    requires Cleaned(s, now, gone, t, n) && u !in gone
    ensures var (t', m) := CleanItem(t, u, now, turn); Cleaned(s, now, gone + Takes(s, u, now, turn), t', n + m)
  {
    if u in Takes(s, u, now, turn) {
      assert |gone + {u}| == |gone| + 1;
      assert (s.store - gone) - {u} == s.store - (gone + {u});
    } else {
      assert gone + Takes(s, u, now, turn) == gone;
    }
  }

  lemma CleanedAtFirst(s: State, now: int)
    ensures Cleaned(s, now, {}, s, 0)
  {
    assert s.store - {} == s.store;
  }

  /** The answered count is the number of records removed; each was expired, and no other one changed. */
  lemma {:induction false} CleanupAddsUp(s: State, order: seq<string>, now: int, turns: seq<Turn>, k: nat)
    requires k <= |order| <= |turns|
    requires Distinct(order)
    ensures Cleaned(s, now, Gone(s, order, now, turns, k),
                    CleanFirst(s, order, now, turns, k).0, CleanFirst(s, order, now, turns, k).1)
  {
    if k == 0 {
      CleanedAtFirst(s, now);
    } else {
      CleanupAddsUp(s, order, now, turns, k - 1);
      CleanupTurn(s, order, now, turns, k - 1);
    }
  }

  lemma {:induction false} CleanupTurn(s: State, order: seq<string>, now: int, turns: seq<Turn>, k: nat)
    requires k < |order| <= |turns|
    requires Distinct(order)
    requires Cleaned(s, now, Gone(s, order, now, turns, k),
                     CleanFirst(s, order, now, turns, k).0, CleanFirst(s, order, now, turns, k).1)
    ensures Cleaned(s, now, Gone(s, order, now, turns, k + 1),
                    CleanFirst(s, order, now, turns, k + 1).0, CleanFirst(s, order, now, turns, k + 1).1)
  {
    NotYetCleaned(s, order, now, turns, k);
    var (t, n) := CleanFirst(s, order, now, turns, k);
    CleanedStep(s, now, Gone(s, order, now, turns, k), t, n, order[k], turns[k]);
  }

  lemma NotYetCleaned(s: State, order: seq<string>, now: int, turns: seq<Turn>, k: nat)
    requires k < |order| <= |turns|
    requires Distinct(order)
    ensures order[k] !in Gone(s, order, now, turns, k)
  {
    GoneIsListed(s, order, now, turns, k, order[k]);
  }

  /** With every outside answer a success the records removed are exactly the expired ones. */
  lemma {:induction false} CleanupIsComplete(s: State, order: seq<string>, now: int, turns: seq<Turn>)
    requires |order| <= |turns|
    requires Lists(order, s.store)
    requires forall j :: 0 <= j < |order| ==> turns[j].getOk && turns[j].env.dropOk && turns[j].env.deleteOk
    ensures var (t, n) := CleanFirst(s, order, now, turns, |order|);
      t.store == s.store - ExpiredAt(s.store, now) && n == |ExpiredAt(s.store, now)|
  {
    CleanupAddsUp(s, order, now, turns, |order|);
    forall u | u in ExpiredAt(s.store, now) ensures u in Gone(s, order, now, turns, |order|) {
      assert u in order;
      var j :| 0 <= j < |order| && order[j] == u;
      GoneIsListed(s, order, now, turns, |order|, u);
    }
    assert Gone(s, order, now, turns, |order|) == ExpiredAt(s.store, now);
  }
}
