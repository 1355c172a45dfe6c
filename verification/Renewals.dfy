/** What the loop of a batch renewal does to the records, turn by turn and all together. */
module Renewals {
  import opened Common
  import opened Vault
  import Lifecycle

  /** One result per username, in order, and each is either counted a success or a failure. */
  lemma RenewBatchAnswers(s: State, ttl: int, names: seq<string>, turns: seq<Turn>, k: nat)
    requires k <= |names| <= |turns|
    ensures var rs := RenewFirst(s, ttl, names, turns, k).1;
      && |rs| == k
      && (forall i :: 0 <= i < k ==> rs[i].username == names[i])
      && Successes(rs) + Failures(rs) == k
  {
    ResultsInOrder(s, ttl, names, turns, k);
    CountsAddUp(RenewFirst(s, ttl, names, turns, k).1);
  }

  lemma {:induction false} ResultsInOrder(s: State, ttl: int, names: seq<string>, turns: seq<Turn>, k: nat)
    requires k <= |names| <= |turns|
    ensures |RenewFirst(s, ttl, names, turns, k).1| == k
    ensures forall i :: 0 <= i < k ==> RenewFirst(s, ttl, names, turns, k).1[i].username == names[i]
  {
    if k == 0 {
    } else {
      ResultsInOrder(s, ttl, names, turns, k - 1);
      var out := ResultOfTurn(s, ttl, names, turns, k);
    }
  }

  lemma {:induction false} CountsAddUp(rs: seq<Result>)
    ensures Successes(rs) + Failures(rs) == |rs|
  {
    if rs == [] {
    } else {
      CountsAddUp(rs[..|rs| - 1]);
    }
  }

  lemma ResultOfTurn(s: State, ttl: int, names: seq<string>, turns: seq<Turn>, k: nat) returns (out: Outcome)
    requires 0 < k <= |names| <= |turns|
    ensures RenewFirst(s, ttl, names, turns, k).1 ==
      RenewFirst(s, ttl, names, turns, k - 1).1 + [Result(names[k - 1], out)]
  {
    out := RenewItem(RenewFirst(s, ttl, names, turns, k - 1).0, ttl, names[k - 1], turns[k - 1]).1;
  }

  /** When a record was last renewed, by the results of a batch. */
  function LastRenewal(rs: seq<Result>, turns: seq<Turn>, u: string): Option<int>
    requires |rs| <= |turns|
  {
    if rs == [] then None
    else if rs[|rs| - 1] == Result(u, Done) then Some(turns[|rs| - 1].now)
    else LastRenewal(rs[..|rs| - 1], turns, u)
  }

  /**
   After a batch every record is as it was, or as its last reported renewal made it: the same
   credential, renewed at that time for the lifetime of the role the batch named. No record comes
   or goes, and no database user.
   */
  ghost predicate RenewedAsReported(s: State, t: State, ttl: int, rs: seq<Result>, turns: seq<Turn>)
    requires |rs| <= |turns|
  {
    && t.users == s.users
    && t.store.Keys == s.store.Keys
    && forall u :: u in s.store ==> t.store[u] == RenewedAt(s.store[u], ttl, LastRenewal(rs, turns, u))
  }

  function RenewedAt(r: Record, ttl: int, time: Option<int>): Record {
    match time
    case None => r
    case Some(now) => Renewed(r, ttl, now)
  }

  lemma {:induction false} BatchRenewsAsReported(s: State, ttl: int, names: seq<string>, turns: seq<Turn>, k: nat)
    requires k <= |names| <= |turns|
    ensures var (t, rs) := RenewFirst(s, ttl, names, turns, k);
      |rs| == k && RenewedAsReported(s, t, ttl, rs, turns)
  {
    if k == 0 {
    } else {
      BatchRenewsAsReported(s, ttl, names, turns, k - 1);
      var (t, rs) := RenewFirst(s, ttl, names, turns, k - 1);
      ItemRenewsAsReported(s, t, ttl, rs, turns, names[k - 1]);
    }
  }

  lemma ItemRenewsAsReported(s: State, t: State, ttl: int, rs: seq<Result>, turns: seq<Turn>, u: string)
    requires |rs| < |turns| && RenewedAsReported(s, t, ttl, rs, turns)
    ensures var (t', out) := RenewItem(t, ttl, u, turns[|rs|]);
      RenewedAsReported(s, t', ttl, rs + [Result(u, out)], turns)
  {
    var (t', out) := RenewItem(t, ttl, u, turns[|rs|]);
    assert (rs + [Result(u, out)])[..|rs|] == rs;
    assert t'.store.Keys == t.store.Keys;
  }

  /** A name reported as renewed was stored, and its every outside answer was a success. */
  lemma {:induction false} RenewalsAreReported(s: State, ttl: int, names: seq<string>, turns: seq<Turn>, k: nat, i: nat)
    requires i < k <= |names| <= |turns|
    ensures var rs := RenewFirst(s, ttl, names, turns, k).1;
      |rs| == k &&
      (rs[i].outcome == Done <==>
        names[i] in s.store && turns[i].getOk && turns[i].env.preflightOk && turns[i].env.alterOk &&
        turns[i].env.statementOk && turns[i].env.putOk)
  {
    BatchRenewsAsReported(s, ttl, names, turns, k - 1);
    BatchRenewsAsReported(s, ttl, names, turns, k);
    if i < k - 1 {
      RenewalsAreReported(s, ttl, names, turns, k - 1, i);
    }
  }

  /** A turn that renews the record it is about, if there is one. */
  predicate Renews(turn: Turn) {
    turn.getOk && turn.env.preflightOk && turn.env.alterOk && turn.env.statementOk && turn.env.putOk
  }

  /** The time of the last of the first `k` turns that renews `u`. */
  function LastTaken(names: seq<string>, turns: seq<Turn>, k: nat, u: string): Option<int>
    requires k <= |names| <= |turns|
  {
    if k == 0 then None
    else if names[k - 1] == u && Renews(turns[k - 1]) then Some(turns[k - 1].now)
    else LastTaken(names, turns, k - 1, u)
  }

  /** For a stored record the last reported renewal is that of the last turn that renews it. */
  lemma {:induction false} LastTakenIsReported(
    s: State, ttl: int, names: seq<string>, turns: seq<Turn>, k: nat, u: string)
    requires k <= |names| <= |turns| && u in s.store
    ensures var rs := RenewFirst(s, ttl, names, turns, k).1;
      |rs| == k && LastRenewal(rs, turns, u) == LastTaken(names, turns, k, u)
  {
    if k == 0 {
      assert RenewFirst(s, ttl, names, turns, 0).1 == [];
    } else {
      LastTakenIsReported(s, ttl, names, turns, k - 1, u);
      BatchRenewsAsReported(s, ttl, names, turns, k - 1);
      var (t, rs) := RenewFirst(s, ttl, names, turns, k - 1);
      var out := RenewItem(t, ttl, names[k - 1], turns[k - 1]).1;
      var more := rs + [Result(names[k - 1], out)];
      assert more[..k - 1] == rs && RenewFirst(s, ttl, names, turns, k).1 == more;
      assert names[k - 1] == u ==> (out == Done <==> Renews(turns[k - 1]));
    }
  }

  /** The last time each credential of the role is renewed for `ttl`, if it is, is one that fits under the cap. */
  ghost predicate AllFit(
    s: State, ttl: int, names: seq<string>, turns: seq<Turn>, r: string, role: Role, drift: int)
    requires |names| <= |turns|
  {
    forall u :: u in s.store && LastTaken(names, turns, |names|, u).Some? ==>
      Lifecycle.Under(s, r, role, drift, u, LastTaken(names, turns, |names|, u).value + ttl)
  }

  /** The loop of a batch keeps a role under its cap exactly if all last renewals fit. */
  lemma LoopKeepsCapIff(
    s: State, ttl: int, names: seq<string>, turns: seq<Turn>, r: string, role: Role, drift: int)
    requires |names| <= |turns| && Lifecycle.Capped(s, r, role, drift)
    ensures Lifecycle.Capped(RenewFirst(s, ttl, names, turns, |names|).0, r, role, drift) <==>
      AllFit(s, ttl, names, turns, r, role, drift)
  {
    BatchRenewsAsReported(s, ttl, names, turns, |names|);
    var (t, rs) := RenewFirst(s, ttl, names, turns, |names|);
    forall u | u in s.store
      ensures t.store[u].id == s.store[u].id
      ensures var last := LastTaken(names, turns, |names|, u);
        t.store[u].expiresAt == if last.Some? then last.value + ttl else s.store[u].expiresAt
    {
      LastTakenIsReported(s, ttl, names, turns, |names|, u);
      assert t.store[u] == RenewedAt(s.store[u], ttl, LastRenewal(rs, turns, u));
    }
  }

  /**
   A batch renewal keeps a role under its cap exactly if it is refused, or the last time each of
   the role's credentials is renewed, for the lifetime of the role the batch names, fits.
   */
  lemma BatchKeepsCapIff(
    s: State, roles: map<string, Role>, roleName: string, count: int, given: seq<string>, order: seq<string>,
    unread: set<string>, env: Env, turns: seq<Turn>, r: string, role: Role, drift: int)
    requires |turns| >= MAX_BATCH && Lifecycle.Capped(s, r, role, drift)
    ensures var names := BatchTargets(s, roles, roleName, count, given, order, unread);
      var t := RenewBatch(s, roles, roleName, count, given, order, unread, env, turns).0;
      Lifecycle.Capped(t, r, role, drift) <==>
        BatchRefusal(roles, roleName, given, names, env).Some? ||
        AllFit(s, roles[roleName].defaultTTL, names, turns, r, role, drift)
  {
    var names := BatchTargets(s, roles, roleName, count, given, order, unread);
    if BatchRefusal(roles, roleName, given, names, env) == None {
      LoopKeepsCapIff(s, roles[roleName].defaultTTL, names, turns, r, role, drift);
    }
  }
}
