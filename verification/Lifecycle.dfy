/** Runs of the handlers, one at a time, with every outside answer free. */
module Lifecycle {
  import opened Common
  import opened Vault

  datatype Event =
    | Create(roleName: string, region: string, draw: Draw)
    | CreateBatch(roleName: string, region: string, count: int, env: Env, draws: seq<Draw>)
    | Renew(username: string, now: int, getOk: bool, env: Env)
    | RenewBatch(roleName: string, count: int, given: seq<string>, order: seq<string>, unread: set<string>,
                 env: Env, turns: seq<Turn>)
    | Extend(leaseId: string, requested: int, order: seq<string>, clock: ExtendClock, env: Env)
    | Revoke(username: string, getOk: bool, env: Env)
    | BulkRevoke(names: seq<string>, env: Env, turns: seq<Turn>)
    | RevokeByRole(roleName: string, order: seq<string>, unread: set<string>, env: Env, turns: seq<Turn>)
    | RevokeEveryone(order: seq<string>, unread: set<string>, env: Env, turns: seq<Turn>)
    | Cleanup(order: seq<string>, now: int, env: Env, turns: seq<Turn>)
    | LeaseRevoke(leaseId: string, getOk: bool, env: Env)
    | SweepCache(now: int)
    | ReloadPlugin

  /** Enough outside answers for the work the event may do, and listings that list the store. */
  ghost predicate Enabled(s: State, e: Event) {
    match e
    case CreateBatch(_, _, _, _, draws) => |draws| >= MAX_BATCH
    case RenewBatch(_, _, _, order, _, _, turns) => |turns| >= MAX_BATCH && Lists(order, s.store)
    case Extend(_, _, order, _, _) => Lists(order, s.store)
    case BulkRevoke(names, _, turns) => |names| <= |turns|
    case RevokeByRole(_, order, _, _, turns) => |order| <= |turns| && Lists(order, s.store)
    case RevokeEveryone(order, _, _, turns) => |order| <= |turns| && Lists(order, s.store)
    case Cleanup(order, _, _, turns) => |order| <= |turns| && Lists(order, s.store)
    case _ => true
  }

  function Apply(s: State, roles: map<string, Role>, e: Event): State
    requires Enabled(s, e)
  {
    match e
    case Create(name, region, draw) => Vault.Create(s, roles, name, region, draw).0
    case CreateBatch(name, region, count, env, draws) => Vault.CreateBatch(s, roles, name, region, count, env, draws).0
    case Renew(u, now, getOk, env) => Vault.Renew(s, roles, u, now, getOk, env).0
    case RenewBatch(name, count, given, order, unread, env, turns) =>
      Vault.RenewBatch(s, roles, name, count, given, order, unread, env, turns).0
    case Extend(leaseId, requested, order, clock, env) =>
      Vault.Extend(s, roles, order, leaseId, requested, clock, env).0
    case Revoke(u, getOk, env) => Vault.Revoke(s, u, getOk, env).0
    case BulkRevoke(names, env, turns) => Vault.BulkRevoke(s, names, env, turns).0
    case RevokeByRole(name, order, unread, env, turns) =>
      Vault.RevokeByRole(s, roles, name, order, unread, env, turns).0
    case RevokeEveryone(order, unread, env, turns) => Vault.RevokeEveryone(s, order, unread, env, turns).0
    case Cleanup(order, now, env, turns) => Vault.Cleanup(s, order, now, env, turns).0
    case LeaseRevoke(leaseId, getOk, env) => Vault.LeaseRevoke(s, leaseId, getOk, env).0
    case SweepCache(_) => s
    case ReloadPlugin => s
  }

  ghost predicate Possible(s: State, roles: map<string, Role>, run: seq<Event>)
    decreases |run|
  {
    run != [] ==> Enabled(s, run[0]) && Possible(Apply(s, roles, run[0]), roles, run[1..])
  }

  ghost function Run(s: State, roles: map<string, Role>, run: seq<Event>): State
    requires Possible(s, roles, run)
    decreases |run|
  {
    if run == [] then s else Run(Apply(s, roles, run[0]), roles, run[1..])
  }

  // ----- what one step may do to the store ------------------------------------------------

  /** No new record, and every record left is the same credential it was. */
  ghost predicate Retains(s: State, t: State) {
    forall u :: u in t.store ==> u in s.store && s.store[u].id == t.store[u].id
  }

  lemma {:induction false} RenewRetains(s: State, ttl: int, names: seq<string>, turns: seq<Turn>, k: nat)
    requires k <= |names| <= |turns|
    ensures Retains(s, RenewFirst(s, ttl, names, turns, k).0)
  {
    if k == 0 {
    } else {
      RenewRetains(s, ttl, names, turns, k - 1);
    }
  }

  /** Only the two creation handlers bring a record into the store or change who owns one. */
  lemma OnlyCreationAdds(s: State, roles: map<string, Role>, e: Event)
    requires Enabled(s, e)
    requires !e.Create? && !e.CreateBatch?
    ensures Retains(s, Apply(s, roles, e))
  {
    match e
    case RenewBatch(name, count, given, order, unread, _, turns) =>
      if name in roles {
        var names := BatchTargets(s, roles, name, count, given, order, unread);
        RenewRetains(s, roles[name].defaultTTL, names, turns, |names|);
      }
    case Renew(_, _, _, _) =>
    case Extend(_, _, _, _, _) =>
    case _ => RemovalKeepsRecords(s, roles, e);
  }

  /** A credential creation touches no record but the one under the drawn name. */
  ghost predicate Adds(s: State, t: State, u: string, roleName: string) {
    t.store == s.store
    || (u in t.store && t.store == s.store[u := t.store[u]]
        && t.store[u].id.roleName == roleName && t.store[u].id.username == u
        && t.store[u].id.leaseId == LeaseId(roleName, u))
  }

  lemma CreateAdds(s: State, roleName: string, role: Role, region: string, d: Draw)
    ensures Adds(s, CreateOne(s, roleName, role, region, d).0, d.username, roleName)
  {}

  // ----- keys match records ---------------------------------------------------------------

  lemma {:induction false} CreateKeepsKeys(
    s: State, roleName: string, role: Role, region: string, draws: seq<Draw>, k: nat)
    requires k <= |draws| && WellKeyed(s.store)
    ensures WellKeyed(CreateFirst(s, roleName, role, region, draws, k).0.store)
  {
    if k == 0 {
    } else {
      CreateKeepsKeys(s, roleName, role, region, draws, k - 1);
    }
  }

  /** In every run each record's Username and LeaseID match the key it is stored under. */
  lemma {:induction false} RunKeepsKeys(s: State, roles: map<string, Role>, run: seq<Event>)
    requires Possible(s, roles, run) && WellKeyed(s.store)
    ensures WellKeyed(Run(s, roles, run).store)
    decreases |run|
  {
    if run == [] {
    } else {
      StepKeepsKeys(s, roles, run[0]);
      RunKeepsKeys(Apply(s, roles, run[0]), roles, run[1..]);
    }
  }

  lemma StepKeepsKeys(s: State, roles: map<string, Role>, e: Event)
    requires Enabled(s, e) && WellKeyed(s.store)
    ensures WellKeyed(Apply(s, roles, e).store)
  {
    match e
    case Create(_, _, _) =>
    case CreateBatch(name, region, count, env, draws) =>
      if CreateRefusal(s, roles, name, env) == None {
        CreateKeepsKeys(s, name, roles[name], region, draws, BatchSize(s, name, roles[name], count));
      }
    case _ => OnlyCreationAdds(s, roles, e);
  }

  // ----- quota ----------------------------------------------------------------------------

  function Max(a: int, b: int): int { if a < b then b else a }

  lemma HoldersOnRetain(s: State, t: State, r: string)
    requires Retains(s, t)
    ensures |Holders(t.store, r)| <= |Holders(s.store, r)|
  {
    SubsetSize(Holders(t.store, r), Holders(s.store, r));
  }

  lemma HoldersOnAdd(s: State, t: State, u: string, roleName: string, r: string)
    requires Adds(s, t, u, roleName)
    ensures |Holders(t.store, r)| <= |Holders(s.store, r)| + if roleName == r then 1 else 0
  {
    if roleName == r {
      AddOne(Holders(s.store, r), Holders(t.store, r), u);
    } else {
      SubsetSize(Holders(t.store, r), Holders(s.store, r));
    }
  }

  /** However a batch ends, it adds at most one credential per round, and none to another role. */
  lemma {:induction false} BatchAddsAtMost(s: State, roleName: string, role: Role, region: string,
                                           draws: seq<Draw>, k: nat, r: string)
    requires k <= |draws|
    ensures |Holders(CreateFirst(s, roleName, role, region, draws, k).0.store, r)|
            <= |Holders(s.store, r)| + if roleName == r then k else 0
  {
    if k == 0 {
    } else {
      BatchAddsAtMost(s, roleName, role, region, draws, k - 1, r);
      var (t, out) := CreateFirst(s, roleName, role, region, draws, k - 1);
      if out == Done {
        CreateAdds(t, roleName, role, region, draws[k - 1]);
        HoldersOnAdd(t, CreateOne(t, roleName, role, region, draws[k - 1]).0, draws[k - 1].username, roleName, r);
      }
    }
  }

  lemma StepKeepsQuota(s: State, roles: map<string, Role>, e: Event, r: string)
    requires Enabled(s, e)
    requires r in roles && roles[r].maxCredentials > 0
    ensures |Holders(Apply(s, roles, e).store, r)| <= Max(|Holders(s.store, r)|, roles[r].maxCredentials)
  {
    match e
    case Create(name, region, draw) =>
      if CreateRefusal(s, roles, name, draw.env) == None {
        CreateAdds(s, name, roles[name], region, draw);
        HoldersOnAdd(s, Apply(s, roles, e), draw.username, name, r);
      }
    case CreateBatch(name, region, count, env, draws) =>
      if CreateRefusal(s, roles, name, env) == None {
        BatchAddsAtMost(s, name, roles[name], region, draws, BatchSize(s, name, roles[name], count), r);
      }
    case _ =>
      OnlyCreationAdds(s, roles, e);
      HoldersOnRetain(s, Apply(s, roles, e), r);
  }

  /**
   In every run a role with a quota never holds more credentials than the quota, or than it held
   at the start if that was more: failed rounds, failed writes and lost deletes included.
   */
  lemma {:induction false} RunKeepsQuota(s: State, roles: map<string, Role>, run: seq<Event>, r: string)
    requires Possible(s, roles, run)
    requires r in roles && roles[r].maxCredentials > 0
    ensures |Holders(Run(s, roles, run).store, r)| <= Max(|Holders(s.store, r)|, roles[r].maxCredentials)
    decreases |run|
  {
    if run == [] {
    } else {
      StepKeepsQuota(s, roles, run[0], r);
      RunKeepsQuota(Apply(s, roles, run[0]), roles, run[1..], r);
    }
  }

  // ----- a revoked credential stays revoked -----------------------------------------------

  predicate Draws(e: Event, u: string) {
    match e
    case Create(_, _, draw) => draw.username == u
    case CreateBatch(_, _, _, _, draws) => exists d :: d in draws && d.username == u
    case _ => false
  }

  lemma {:induction false} BatchAddsOnlyDrawn(s: State, roleName: string, role: Role, region: string,
                                              draws: seq<Draw>, k: nat, u: string)
    requires k <= |draws| && forall d :: d in draws ==> d.username != u
    requires u !in s.store
    ensures u !in CreateFirst(s, roleName, role, region, draws, k).0.store
  {
    if k == 0 {
    } else {
      BatchAddsOnlyDrawn(s, roleName, role, region, draws, k - 1, u);
      assert draws[k - 1] in draws;
    }
  }

  /** No renewal, extension or any other handler brings a deleted record back. */
  lemma {:induction false} NoResurrection(s: State, roles: map<string, Role>, run: seq<Event>, u: string)
    requires Possible(s, roles, run)
    requires u !in s.store && forall e :: e in run ==> !Draws(e, u)
    ensures u !in Run(s, roles, run).store
    decreases |run|
  {
    if run == [] {
    } else {
      var e := run[0];
      assert !Draws(e, u);
      match e {
        case Create(_, _, _) =>
        case CreateBatch(name, region, count, env, draws) =>
          if CreateRefusal(s, roles, name, env) == None {
            BatchAddsOnlyDrawn(s, name, roles[name], region, draws, BatchSize(s, name, roles[name], count), u);
          }
        case _ => OnlyCreationAdds(s, roles, e);
      }
      NoResurrection(Apply(s, roles, e), roles, run[1..], u);
    }
  }

  // ----- lease lifetime -------------------------------------------------------------------

  /** The leases of a role end by CreatedAt + MaxTTL, give or take the clock drift inside a handler. */
  ghost predicate Capped(s: State, r: string, role: Role, drift: int) {
    forall u :: u in s.store && s.store[u].id.roleName == r ==>
      s.store[u].expiresAt <= s.store[u].id.createdAt + role.maxTTL + drift
  }

  /** An end that keeps the credential of `u`, if it is one of the role, under the role's cap. */
  ghost predicate Under(s: State, r: string, role: Role, drift: int, u: string, end: int) {
    u in s.store && s.store[u].id.roleName == r ==> end <= s.store[u].id.createdAt + role.maxTTL + drift
  }

  /**
   What the lifetime bound asks of a step: clocks that run forward, bounded drift, and of renewals,
   which look at no maximum, that the lifetimes they give fit. A batch gives each credential the
   lifetime of the role it names.
   */
  ghost predicate Punctual(s: State, roles: map<string, Role>, e: Event, r: string, drift: int)
    requires r in roles
  {
    match e
    case Renew(u, now, _, _) => Under(s, r, roles[r], drift, u, now + roles[r].defaultTTL)
    case RenewBatch(name, count, given, order, unread, _, turns) =>
      var names := BatchTargets(s, roles, name, count, given, order, unread);
      name in roles && |turns| >= MAX_BATCH ==>
        forall i :: 0 <= i < |names| ==>
          Under(s, r, roles[r], drift, names[i], turns[i].now + roles[name].defaultTTL)
    case Create(_, _, draw) => draw.clock.expiry <= draw.clock.created
    case CreateBatch(_, _, _, _, draws) => forall d :: d in draws ==> d.clock.expiry <= d.clock.created
    case Extend(_, _, _, clock, _) => clock.end - clock.cap <= drift
    case _ => true
  }

  ghost predicate PunctualRun(s: State, roles: map<string, Role>, run: seq<Event>, r: string, drift: int)
    requires Possible(s, roles, run) && r in roles
    decreases |run|
  {
    run != [] ==>
      Punctual(s, roles, run[0], r, drift) && PunctualRun(Apply(s, roles, run[0]), roles, run[1..], r, drift)
  }

  /** The loop of a batch renewal keeps the cap if each lifetime it may give fits under it. */
  lemma {:induction false} RenewKeepsCap(
    s: State, ttl: int, names: seq<string>, turns: seq<Turn>, k: nat, r: string, cap: Role, drift: int)
    requires k <= |names| <= |turns| && Capped(s, r, cap, drift)
    requires forall i :: 0 <= i < |names| ==> Under(s, r, cap, drift, names[i], turns[i].now + ttl)
    ensures Capped(RenewFirst(s, ttl, names, turns, k).0, r, cap, drift)
    ensures Retains(s, RenewFirst(s, ttl, names, turns, k).0)
  {
    if k == 0 {
    } else {
      RenewKeepsCap(s, ttl, names, turns, k - 1, r, cap, drift);
      assert Under(s, r, cap, drift, names[k - 1], turns[k - 1].now + ttl);
    }
  }

  lemma {:induction false} BatchKeepsCap(s: State, roleName: string, role: Role, region: string, draws: seq<Draw>,
                                         k: nat, r: string, cap: Role, drift: int)
    requires k <= |draws| && Capped(s, r, cap, drift) && drift >= 0
    requires forall d :: d in draws ==> d.clock.expiry <= d.clock.created
    requires roleName == r ==> role.defaultTTL <= cap.maxTTL
    ensures Capped(CreateFirst(s, roleName, role, region, draws, k).0, r, cap, drift)
  {
    if k == 0 {
    } else {
      BatchKeepsCap(s, roleName, role, region, draws, k - 1, r, cap, drift);
      assert draws[k - 1] in draws;
    }
  }

  /** Shrinking loops leave the records they keep as they were, so the cap holds of what is left. */
  lemma {:induction false} RevokeKeepsRecords(mode: Mode, s: State, names: seq<string>, turns: seq<Turn>, k: nat)
    requires k <= |names| <= |turns|
    ensures Narrower(RevokeFirst(mode, s, names, turns, k).0.store, s.store)
  {
    if k == 0 {
    } else {
      RevokeKeepsRecords(mode, s, names, turns, k - 1);
    }
  }

  lemma {:induction false} CleanKeepsRecords(s: State, order: seq<string>, now: int, turns: seq<Turn>, k: nat)
    requires k <= |order| <= |turns|
    ensures Narrower(CleanFirst(s, order, now, turns, k).0.store, s.store)
  {
    if k == 0 {
    } else {
      CleanKeepsRecords(s, order, now, turns, k - 1);
    }
  }

  lemma StepKeepsCap(s: State, roles: map<string, Role>, e: Event, r: string, drift: int)
    requires Enabled(s, e) && drift >= 0
    requires r in roles && 0 < roles[r].maxTTL && roles[r].defaultTTL <= roles[r].maxTTL
    requires Punctual(s, roles, e, r, drift) && Capped(s, r, roles[r], drift)
    ensures Capped(Apply(s, roles, e), r, roles[r], drift)
  {
    match e
    case CreateBatch(name, region, count, env, draws) =>
      if CreateRefusal(s, roles, name, env) == None {
        BatchKeepsCap(s, name, roles[name], region, draws, BatchSize(s, name, roles[name], count), r, roles[r], drift);
      }
    case RenewBatch(name, count, given, order, unread, env, turns) =>
      if name in roles {
        var names := BatchTargets(s, roles, name, count, given, order, unread);
        RenewKeepsCap(s, roles[name].defaultTTL, names, turns, |names|, r, roles[r], drift);
      }
    case Create(_, _, _) =>
    case Renew(_, _, _, _) =>
    case Extend(_, _, _, _, _) =>
    case _ =>
      RemovalKeepsRecords(s, roles, e);
  }

  /** The other handlers leave every record they keep as it is. */
  lemma RemovalKeepsRecords(s: State, roles: map<string, Role>, e: Event)
    requires Enabled(s, e)
    requires !e.Create? && !e.CreateBatch? && !e.Renew? && !e.RenewBatch? && !e.Extend?
    ensures Narrower(Apply(s, roles, e).store, s.store)
  {
    match e
    case BulkRevoke(names, _, turns) => RevokeKeepsRecords(Named, s, names, turns, |names|);
    case RevokeByRole(name, order, unread, _, turns) =>
      SelectPicks(s.store, order, unread, Some(name), |order|);
      var names := Select(s.store, order, unread, Some(name), |order|);
      RevokeKeepsRecords(OneRole, s, names, turns, |names|);
    case RevokeEveryone(order, unread, _, turns) =>
      SelectPicks(s.store, order, unread, None, |order|);
      var names := Usernames(s.store, Select(s.store, order, unread, None, |order|));
      RevokeKeepsRecords(Everyone, s, names, turns, |names|);
    case Cleanup(order, now, _, turns) => CleanKeepsRecords(s, order, now, turns, |order|);
    case _ =>
  }

  /**
   In every run whose renewals fit, a lease never outlives CreatedAt + MaxTTL by more than the time
   an extension lets pass between capping the lifetime and adding it to the clock.
   */
  lemma {:induction false} RunKeepsCap(s: State, roles: map<string, Role>, run: seq<Event>, r: string, drift: int)
    requires Possible(s, roles, run) && drift >= 0
    requires r in roles && 0 < roles[r].maxTTL && roles[r].defaultTTL <= roles[r].maxTTL
    requires PunctualRun(s, roles, run, r, drift) && Capped(s, r, roles[r], drift)
    ensures Capped(Run(s, roles, run), r, roles[r], drift)
    decreases |run|
  {
    if run == [] {
    } else {
      StepKeepsCap(s, roles, run[0], r, drift);
      RunKeepsCap(Apply(s, roles, run[0]), roles, run[1..], r, drift);
    }
  }

  /** A successful renewal keeps a role under its cap exactly when the fresh default lifetime fits under it. */
  lemma RenewalKeepsCapIff(
    s: State, roles: map<string, Role>, u: string, now: int, getOk: bool, env: Env, r: string, drift: int)
    requires r in roles && Capped(s, r, roles[r], drift)
    requires Vault.Renew(s, roles, u, now, getOk, env).1 == Done
    ensures Capped(Vault.Renew(s, roles, u, now, getOk, env).0, r, roles[r], drift) <==>
      Under(s, r, roles[r], drift, u, now + roles[r].defaultTTL)
  {
    var t := Vault.Renew(s, roles, u, now, getOk, env).0;
    if s.store[u].id.roleName == r && Capped(t, r, roles[r], drift) {
      assert t.store[u].expiresAt == now + roles[r].defaultTTL;
    }
  }

  /** A renewal that outlives the cap: a role of 60 units at most, renewed at its last instant. */
  lemma RenewalOutlivesCap() returns (s: State, roles: map<string, Role>, env: Env)
    ensures "app" in roles && 0 < roles["app"].maxTTL && roles["app"].defaultTTL <= roles["app"].maxTTL
    ensures Capped(s, "app", roles["app"], 0)
    ensures Vault.Renew(s, roles, "v_1", 60, true, env).1 == Done
    ensures !Capped(Vault.Renew(s, roles, "v_1", 60, true, env).0, "app", roles["app"], 0)
  {
    roles := map["app" := Role(30, 60, 0, 0)];
    s := State(map["v_1" := Record(Identity(LeaseId("app", "v_1"), "v_1", "app", "", 0), 30, 0)], {"v_1"});
    env := Env(true, true, true, true, true, true, true, true, true, true, true, true);
    var t := Vault.Renew(s, roles, "v_1", 60, true, env).0;
    assert t.store["v_1"].expiresAt == 90;
  }

  /**
   A batch for another role outlives the cap though the credential's own lifetime would fit: it is
   renewed at 10 for the 1000 units of the role the batch names.
   */
  lemma CrossRoleRenewalOutlivesCap()
    returns (s: State, app: Role, big: Role, turn: Turn)
    ensures 0 < app.maxTTL && app.defaultTTL <= app.maxTTL && 0 < big.maxTTL && big.defaultTTL <= big.maxTTL
    ensures Capped(s, "app", app, 0) && Under(s, "app", app, 0, "v_1", turn.now + app.defaultTTL)
    ensures RenewItem(s, big.defaultTTL, "v_1", turn).1 == Done
    ensures !Capped(RenewItem(s, big.defaultTTL, "v_1", turn).0, "app", app, 0)
  {
    app, big := Role(30, 60, 0, 0), Role(1000, 2000, 0, 0);
    s := State(map["v_1" := Record(Identity(LeaseId("app", "v_1"), "v_1", "app", "", 0), 30, 0)], {"v_1"});
    var env := Env(true, true, true, true, true, true, true, true, true, true, true, true);
    turn := Turn(10, true, true, env);
    var t := RenewItem(s, 1000, "v_1", turn).0;
    assert t.store["v_1"].expiresAt == 1010;
  }

  lemma {:induction false} FindLeaseFinds(store: map<string, Record>, order: seq<string>, leaseId: string)
    ensures match FindLease(store, order, leaseId)
      case Some(u) => u in order && u in store && store[u].id.leaseId == leaseId
      case None => forall u :: u in order && u in store ==> store[u].id.leaseId != leaseId
  {
    if order != [] && !(order[0] in store && store[order[0]].id.leaseId == leaseId) {
      FindLeaseFinds(store, order[1..], leaseId);
      assert order == [order[0]] + order[1..];
    }
  }

  /** With slash-free names a lease identifies one credential, whatever order storage lists in. */
  lemma LeaseNamesOneCredential(store: map<string, Record>, order: seq<string>, u: string)
    requires WellKeyed(store) && Lists(order, store) && u in store
    requires forall v :: v in store ==> '/' !in v && '/' !in store[v].id.roleName
    ensures FindLease(store, order, store[u].id.leaseId) == Some(u)
  {
    FindLeaseFinds(store, order, store[u].id.leaseId);
    assert u in order;
    var v := FindLease(store, order, store[u].id.leaseId).value;
    LeasePartsOfLeaseId(store[u].id.roleName, u);
    LeasePartsOfLeaseId(store[v].id.roleName, v);
  }

  /**
   An extension succeeds only on a live lease short of its maximum; it then ends after now, by the
   maximum, and no later than the lifetime asked for; nothing but its two times changes.
   */
  lemma ExtensionStaysInBounds(s: State, roles: map<string, Role>, order: seq<string>, leaseId: string,
                               requested: int, clock: ExtendClock, env: Env)
    requires Vault.Extend(s, roles, order, leaseId, requested, clock, env).1 == Done
    ensures exists u ::
      && u in s.store && s.store[u].id.leaseId == leaseId && s.store[u].id.roleName in roles
      && var t := Vault.Extend(s, roles, order, leaseId, requested, clock, env).0;
         var role, before := roles[s.store[u].id.roleName], s.store[u];
      && u in t.store && t.store == s.store[u := t.store[u]] && t.users == s.users
      && before.id == t.store[u].id && t.store[u].lastRenewed == clock.renewed
      && clock.expiry <= before.expiresAt
      && t.store[u].expiresAt <= clock.end + (if requested > 0 then requested else role.defaultTTL)
      && (role.maxTTL > 0 ==>
            && clock.limit < before.id.createdAt + role.maxTTL
            && clock.end < t.store[u].expiresAt <= before.id.createdAt + role.maxTTL + (clock.end - clock.cap))
  {
    FindLeaseFinds(s.store, order, leaseId);
    var u := FindLease(s.store, order, leaseId).value;
    assert u in s.store;
  }

  // ----- where the database and the store part ways ---------------------------------------

  /** Creating an unused name leaves a database user without a record exactly when, after CREATE USER, the
      creation statement and the clean-up DROP USER both fail, or the record cannot be written. */
  lemma CreateLeavesUserBehindIff(s: State, roleName: string, role: Role, region: string, d: Draw)
    requires d.username !in s.users && d.username !in s.store
    ensures var t := CreateOne(s, roleName, role, region, d).0;
      (d.username in t.users && d.username !in t.store) <==>
        && d.env.nameOk && d.env.createOk
        && (if d.env.statementOk then !d.env.putOk else !d.env.dropOk)
  {}

  /** A successful lease revocation drops the database user and keeps its record, so the record still
      counts against its role's quota until another revocation or a cleanup deletes it. */
  lemma LeaseRevokeKeepsRecord(s: State, roleName: string, u: string, getOk: bool, env: Env)
    requires '/' !in roleName && '/' !in u && u in s.store
    requires Vault.LeaseRevoke(s, LeaseId(roleName, u), getOk, env).1 == Done
    ensures var t := Vault.LeaseRevoke(s, LeaseId(roleName, u), getOk, env).0;
      t.store == s.store && u !in t.users && u in Holders(t.store, s.store[u].id.roleName)
  {
    LeasePartsOfLeaseId(roleName, u);
  }
}
