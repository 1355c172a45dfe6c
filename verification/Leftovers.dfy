/** Exactly when database users and stored records part ways, step by step and over whole runs. */
module Leftovers {
  import opened Common
  import opened Vault
  import opened Lifecycle

  ghost predicate UsersRecorded(s: State) {
    s.users <= s.store.Keys
  }

  ghost predicate RecordsBacked(s: State) {
    s.store.Keys <= s.users
  }

  // ----- the rounds of a batch creation ---------------------------------------------------

  /** A creation that goes all the way. */
  predicate Succeeds(d: Draw) {
    d.env.nameOk && d.env.createOk && d.env.statementOk && d.env.putOk
  }

  /** A creation that ends between CREATE USER and the stored record, with the user still there. */
  predicate LosesTrack(d: Draw) {
    d.env.nameOk && d.env.createOk && if d.env.statementOk then !d.env.putOk else !d.env.dropOk
  }

  /** A clean-up after a failed creation statement, which drops the user of that name. */
  predicate CleansUp(d: Draw) {
    d.env.nameOk && d.env.createOk && !d.env.statementOk && d.env.dropOk
  }

  /** A batch ends at its first failure; this round comes before or at it. */
  ghost predicate Reached(draws: seq<Draw>, j: nat)
    requires j < |draws|
  {
    forall i :: 0 <= i < j ==> Succeeds(draws[i])
  }

  /** The name of a round is stored when the round begins, if it is reached. */
  ghost predicate Taken(s: State, draws: seq<Draw>, j: nat)
    requires j < |draws|
  {
    draws[j].username in s.store || exists i :: 0 <= i < j && draws[i].username == draws[j].username
  }

  /** The last round reached leaves a user for whose name there is no record. */
  ghost predicate BatchLosesTrack(s: State, draws: seq<Draw>, k: nat)
    requires k <= |draws|
  {
    k > 0 &&
    if Reached(draws, k - 1) then LosesTrack(draws[k - 1]) && !Taken(s, draws, k - 1)
    else BatchLosesTrack(s, draws, k - 1)
  }

  /** The last round reached cleans up after itself under a name that has a record. */
  ghost predicate BatchLosesUser(s: State, draws: seq<Draw>, k: nat)
    requires k <= |draws|
  {
    k > 0 &&
    if Reached(draws, k - 1) then CleansUp(draws[k - 1]) && Taken(s, draws, k - 1)
    else BatchLosesUser(s, draws, k - 1)
  }

  /** While every round succeeds, the batch goes on, and each name drawn has a user and a record. */
  lemma {:induction false} RoundsSoFar(
    s: State, roleName: string, role: Role, region: string, draws: seq<Draw>, k: nat)
    requires k <= |draws|
    ensures var (t, out) := CreateFirst(s, roleName, role, region, draws, k);
      && (out == Done <==> forall i :: 0 <= i < k ==> Succeeds(draws[i]))
      && (out == Done ==>
            && (forall u :: u in t.store <==> u in s.store || exists i :: 0 <= i < k && draws[i].username == u)
            && (forall u :: u in t.users <==> u in s.users || exists i :: 0 <= i < k && draws[i].username == u))
  {
    if k == 0 {
      assert CreateFirst(s, roleName, role, region, draws, 0) == (s, Done);
    } else {
      RoundsSoFar(s, roleName, role, region, draws, k - 1);
    }
  }

  /** A round that is reached is one more creation, and another is none. */
  lemma NextRound(s: State, roleName: string, role: Role, region: string, draws: seq<Draw>, k: nat)
    requires 0 < k <= |draws|
    ensures var t := CreateFirst(s, roleName, role, region, draws, k - 1).0;
      var u := CreateFirst(s, roleName, role, region, draws, k).0;
      if Reached(draws, k - 1) then
        u == CreateOne(t, roleName, role, region, draws[k - 1]).0 &&
        (draws[k - 1].username in t.store <==> Taken(s, draws, k - 1))
      else u == t
  {
    RoundsSoFar(s, roleName, role, region, draws, k - 1);
  }

  lemma OneKeepsTrackIff(s: State, roleName: string, role: Role, region: string, d: Draw)
    requires UsersRecorded(s)
    ensures UsersRecorded(CreateOne(s, roleName, role, region, d).0) <==> !(LosesTrack(d) && d.username !in s.store)
  {}

  ghost predicate LosesTrackAt(s: State, draws: seq<Draw>, j: nat)
    requires j < |draws|
  {
    Reached(draws, j) && LosesTrack(draws[j]) && !Taken(s, draws, j)
  }

  /** In other words: some round that is reached does. */
  lemma {:induction false} BatchLosesTrackIff(s: State, draws: seq<Draw>, k: nat)
    requires k <= |draws|
    ensures BatchLosesTrack(s, draws, k) <==> exists j: nat :: j < k && LosesTrackAt(s, draws, j)
  {
    if k == 0 {
      assert !BatchLosesTrack(s, draws, 0);
    } else {
      BatchLosesTrackIff(s, draws, k - 1);
      assert Reached(draws, k - 1) && BatchLosesTrack(s, draws, k) ==> LosesTrackAt(s, draws, k - 1);
      forall j: nat | j < k - 1 && LosesTrackAt(s, draws, j) ensures !Reached(draws, k - 1) {
        assert !Succeeds(draws[j]);
      }
    }
  }

  lemma {:induction false} BatchKeepsTrackIff(
    s: State, roleName: string, role: Role, region: string, draws: seq<Draw>, k: nat)
    requires k <= |draws| && UsersRecorded(s)
    ensures UsersRecorded(CreateFirst(s, roleName, role, region, draws, k).0) <==> !BatchLosesTrack(s, draws, k)
  {
    if k == 0 {
      assert CreateFirst(s, roleName, role, region, draws, 0).0 == s;
    } else {
      var t := CreateFirst(s, roleName, role, region, draws, k - 1).0;
      BatchKeepsTrackIff(s, roleName, role, region, draws, k - 1);
      NextRound(s, roleName, role, region, draws, k);
      if Reached(draws, k - 1) {
        NoneFailedKeepsTrack(s, draws, k - 1);
        OneKeepsTrackIff(t, roleName, role, region, draws[k - 1]);
      }
    }
  }

  lemma {:induction false} NoneFailedKeepsTrack(s: State, draws: seq<Draw>, k: nat)
    requires k <= |draws| && forall i :: 0 <= i < k ==> Succeeds(draws[i])
    ensures !BatchLosesTrack(s, draws, k)
  {
    if k == 0 {
    } else {
      assert Succeeds(draws[k - 1]);
      NoneFailedKeepsTrack(s, draws, k - 1);
    }
  }

  lemma OneKeepsUsersIff(s: State, roleName: string, role: Role, region: string, d: Draw)
    requires RecordsBacked(s)
    ensures RecordsBacked(CreateOne(s, roleName, role, region, d).0) <==> !(CleansUp(d) && d.username in s.store)
  {}

  ghost predicate LosesUserAt(s: State, draws: seq<Draw>, j: nat)
    requires j < |draws|
  {
    Reached(draws, j) && CleansUp(draws[j]) && Taken(s, draws, j)
  }

  /** In other words: some round that is reached does. */
  lemma {:induction false} BatchLosesUserIff(s: State, draws: seq<Draw>, k: nat)
    requires k <= |draws|
    ensures BatchLosesUser(s, draws, k) <==> exists j: nat :: j < k && LosesUserAt(s, draws, j)
  {
    if k == 0 {
      assert !BatchLosesUser(s, draws, 0);
    } else {
      BatchLosesUserIff(s, draws, k - 1);
      assert Reached(draws, k - 1) && BatchLosesUser(s, draws, k) ==> LosesUserAt(s, draws, k - 1);
      forall j: nat | j < k - 1 && LosesUserAt(s, draws, j) ensures !Reached(draws, k - 1) {
        assert !Succeeds(draws[j]);
      }
    }
  }

  lemma {:induction false} BatchKeepsUsersIff(
    s: State, roleName: string, role: Role, region: string, draws: seq<Draw>, k: nat)
    requires k <= |draws| && RecordsBacked(s)
    ensures RecordsBacked(CreateFirst(s, roleName, role, region, draws, k).0) <==> !BatchLosesUser(s, draws, k)
  {
    if k == 0 {
      assert CreateFirst(s, roleName, role, region, draws, 0).0 == s;
    } else {
      var t := CreateFirst(s, roleName, role, region, draws, k - 1).0;
      BatchKeepsUsersIff(s, roleName, role, region, draws, k - 1);
      NextRound(s, roleName, role, region, draws, k);
      if Reached(draws, k - 1) {
        NoneFailedKeepsUsers(s, draws, k - 1);
        OneKeepsUsersIff(t, roleName, role, region, draws[k - 1]);
      }
    }
  }

  lemma {:induction false} NoneFailedKeepsUsers(s: State, draws: seq<Draw>, k: nat)
    requires k <= |draws| && forall i :: 0 <= i < k ==> Succeeds(draws[i])
    ensures !BatchLosesUser(s, draws, k)
  {
    if k == 0 {
    } else {
      assert Succeeds(draws[k - 1]);
      NoneFailedKeepsUsers(s, draws, k - 1);
    }
  }

  // ----- the turns of a revocation loop ---------------------------------------------------

  /** The turn drops the user it is about, if it still has a record to find. */
  predicate Drops(mode: Mode, turn: Turn) {
    && (mode == Named ==> turn.env.nameOk && turn.getOk)
    && (mode != OneRole ==> turn.roleOk)
    && turn.env.connectOk && turn.env.statementOk && turn.env.dropOk
  }

  function Dropped(mode: Mode, names: seq<string>, turns: seq<Turn>, k: nat): set<string>
    requires k <= |names| <= |turns|
  {
    if k == 0 then {}
    else Dropped(mode, names, turns, k - 1) + if Drops(mode, turns[k - 1]) then {names[k - 1]} else {}
  }

  function Deleted(mode: Mode, names: seq<string>, turns: seq<Turn>, k: nat): set<string>
    requires k <= |names| <= |turns|
  {
    if k == 0 then {}
    else
      Deleted(mode, names, turns, k - 1) +
      if Drops(mode, turns[k - 1]) && turns[k - 1].env.deleteOk then {names[k - 1]} else {}
  }

  /** Which records are left, and which of their users, repeated names included. */
  lemma {:induction false} RevokeLeaves(mode: Mode, s: State, names: seq<string>, turns: seq<Turn>, k: nat)
    requires k <= |names| <= |turns|
    ensures var t := RevokeFirst(mode, s, names, turns, k).0;
      && t.store.Keys == s.store.Keys - Deleted(mode, names, turns, k)
      && (forall u :: u in s.store ==> (u in t.users <==> u in s.users && u !in Dropped(mode, names, turns, k)))
      && t.users <= s.users
      && Deleted(mode, names, turns, k) <= Dropped(mode, names, turns, k)
      && (UsersRecorded(s) ==> UsersRecorded(t))
  {
    if k == 0 {
      assert RevokeFirst(mode, s, names, turns, 0).0 == s;
    } else {
      RevokeLeaves(mode, s, names, turns, k - 1);
      var t := RevokeFirst(mode, s, names, turns, k - 1).0;
      TurnLeaves(mode, t, names[k - 1], turns[k - 1]);
    }
  }

  lemma TurnLeaves(mode: Mode, s: State, u: string, turn: Turn)
    ensures var t := RevokeItem(mode, s, u, turn).0;
      && t.store.Keys == s.store.Keys - (if Drops(mode, turn) && turn.env.deleteOk then {u} else {})
      && (u in s.store ==> t.users == s.users - if Drops(mode, turn) then {u} else {})
      && (u !in s.store ==> t.users == s.users || t.users == s.users - {u})
  {}

  /** A user is dropped and its record then cannot be deleted. */
  predicate LosesUser(env: Env) {
    env.dropOk && !env.deleteOk
  }

  /** One drop: the tail of every revocation leaves a record without its user exactly if the delete fails. */
  lemma DropWithoutDeleteIff(s: State, u: string, env: Env)
    requires u in s.store && u in s.users
    ensures var t := DropAndForget(s, u, env).0;
      u in t.store && u !in t.users <==> env.connectOk && env.statementOk && LosesUser(env)
  {}

  /** Every record left has its user exactly if each stored name that some turn drops some turn also deletes. */
  lemma RevokeKeepsUsersIff(mode: Mode, s: State, names: seq<string>, turns: seq<Turn>, k: nat)
    requires k <= |names| <= |turns| && RecordsBacked(s)
    ensures RecordsBacked(RevokeFirst(mode, s, names, turns, k).0) <==>
      Dropped(mode, names, turns, k) * s.store.Keys <= Deleted(mode, names, turns, k)
  {
    RevokeLeaves(mode, s, names, turns, k);
  }

  // ----- the turns of the expiry cleanup --------------------------------------------------

  /** The turn drops the user of an expired record. */
  predicate Cleans(s: State, u: string, now: int, turn: Turn) {
    turn.getOk && u in s.store && now > s.store[u].expiresAt && turn.env.dropOk
  }

  function CleanDropped(s: State, order: seq<string>, now: int, turns: seq<Turn>, k: nat): set<string>
    requires k <= |order| <= |turns|
  {
    if k == 0 then {}
    else
      CleanDropped(s, order, now, turns, k - 1) +
      if Cleans(s, order[k - 1], now, turns[k - 1]) then {order[k - 1]} else {}
  }

  function CleanDeleted(s: State, order: seq<string>, now: int, turns: seq<Turn>, k: nat): set<string>
    requires k <= |order| <= |turns|
  {
    if k == 0 then {}
    else
      CleanDeleted(s, order, now, turns, k - 1) +
      if Cleans(s, order[k - 1], now, turns[k - 1]) && turns[k - 1].env.deleteOk then {order[k - 1]} else {}
  }

  lemma {:induction false} CleanLeaves(s: State, order: seq<string>, now: int, turns: seq<Turn>, k: nat)
    requires k <= |order| <= |turns|
    ensures var t := CleanFirst(s, order, now, turns, k).0;
      && Narrower(t.store, s.store)
      && t.store.Keys == s.store.Keys - CleanDeleted(s, order, now, turns, k)
      && t.users == s.users - CleanDropped(s, order, now, turns, k)
      && CleanDeleted(s, order, now, turns, k) <= CleanDropped(s, order, now, turns, k) <= s.store.Keys
  {
    if k == 0 {
      assert CleanFirst(s, order, now, turns, 0).0 == s;
    } else {
      CleanLeaves(s, order, now, turns, k - 1);
    }
  }

  /** Every record left has its user exactly if each name the cleanup drops it also deletes. */
  lemma CleanKeepsUsersIff(s: State, order: seq<string>, now: int, turns: seq<Turn>, k: nat)
    requires k <= |order| <= |turns| && RecordsBacked(s)
    ensures RecordsBacked(CleanFirst(s, order, now, turns, k).0) <==>
      CleanDropped(s, order, now, turns, k) <= CleanDeleted(s, order, now, turns, k)
  {
    CleanLeaves(s, order, now, turns, k);
  }

  lemma {:induction false} RenewKeepsBoth(s: State, ttl: int, names: seq<string>, turns: seq<Turn>, k: nat)
    requires k <= |names| <= |turns|
    ensures var t := RenewFirst(s, ttl, names, turns, k).0; t.users == s.users && t.store.Keys == s.store.Keys
  {
    if k == 0 {
      assert RenewFirst(s, ttl, names, turns, 0).0 == s;
    } else {
      RenewKeepsBoth(s, ttl, names, turns, k - 1);
      var t := RenewFirst(s, ttl, names, turns, k - 1).0;
      assert RenewItem(t, ttl, names[k - 1], turns[k - 1]).0.store.Keys == t.store.Keys;
    }
  }

  // ----- users without a record: steps and runs -------------------------------------------

  /** The step leaves no user without a record: it is no creation, is refused, or reaches no round that does. */
  ghost predicate KeepsTrack(s: State, roles: map<string, Role>, e: Event)
    requires Enabled(s, e)
  {
    match e
    case Create(name, _, draw) =>
      CreateRefusal(s, roles, name, draw.env) == None && LosesTrack(draw) ==> draw.username in s.store
    case CreateBatch(name, _, count, env, draws) =>
      CreateRefusal(s, roles, name, env) == None ==>
        !BatchLosesTrack(s, draws, BatchSize(s, name, roles[name], count))
    case _ => true
  }

  lemma StepKeepsTrackIff(s: State, roles: map<string, Role>, e: Event)
    requires Enabled(s, e) && UsersRecorded(s)
    ensures UsersRecorded(Apply(s, roles, e)) <==> KeepsTrack(s, roles, e)
  {
    match e
    case CreateBatch(name, region, count, env, draws) =>
      if CreateRefusal(s, roles, name, env) == None {
        BatchKeepsTrackIff(s, name, roles[name], region, draws, BatchSize(s, name, roles[name], count));
      }
    case Create(_, _, _) =>
    case RenewBatch(name, count, given, order, unread, _, turns) =>
      if name in roles {
        var names := BatchTargets(s, roles, name, count, given, order, unread);
        RenewKeepsBoth(s, roles[name].defaultTTL, names, turns, |names|);
      }
    case Cleanup(order, now, _, turns) => CleanLeaves(s, order, now, turns, |order|);
    case _ => RemovalKeepsTrack(s, roles, e);
  }

  lemma RemovalKeepsTrack(s: State, roles: map<string, Role>, e: Event)
    requires Enabled(s, e) && UsersRecorded(s)
    requires !e.Create? && !e.CreateBatch? && !e.RenewBatch? && !e.Cleanup?
    ensures UsersRecorded(Apply(s, roles, e))
  {
    var loop := LoopOf(s, roles, e);
    if loop.Some? {
      RevokeLeaves(loop.value.mode, s, loop.value.names, loop.value.turns, |loop.value.names|);
    }
  }

  /** The revocation loop of a request that is not turned away. */
  datatype Loop = Loop(mode: Mode, names: seq<string>, turns: seq<Turn>)

  ghost function LoopOf(s: State, roles: map<string, Role>, e: Event): (loop: Option<Loop>)
    requires Enabled(s, e)
    ensures loop.Some? ==> |loop.value.names| <= |loop.value.turns|
    ensures loop.Some? ==>
      Apply(s, roles, e) ==
      RevokeFirst(loop.value.mode, s, loop.value.names, loop.value.turns, |loop.value.names|).0
    ensures loop.None? && (e.BulkRevoke? || e.RevokeByRole? || e.RevokeEveryone?) ==> Apply(s, roles, e) == s
  {
    match e
    case BulkRevoke(names, env, turns) =>
      if names != [] && env.configOk then Some(Loop(Named, names, turns)) else None
    case RevokeByRole(name, order, unread, env, turns) =>
      if name != "" && env.configOk && env.roleOk && name in roles && env.countOk then
        SelectPicks(s.store, order, unread, Some(name), |order|);
        Some(Loop(OneRole, Select(s.store, order, unread, Some(name), |order|), turns))
      else None
    case RevokeEveryone(order, unread, env, turns) =>
      if env.configOk && env.countOk then
        SelectPicks(s.store, order, unread, None, |order|);
        Some(Loop(Everyone, Usernames(s.store, Select(s.store, order, unread, None, |order|)), turns))
      else None
    case _ => None
  }

  /** Every user has a record in each state of the run. */
  ghost predicate AlwaysRecorded(s: State, roles: map<string, Role>, run: seq<Event>)
    requires Possible(s, roles, run)
    decreases |run|
  {
    UsersRecorded(s) && (run != [] ==> AlwaysRecorded(Apply(s, roles, run[0]), roles, run[1..]))
  }

  ghost predicate AlwaysKeepsTrack(s: State, roles: map<string, Role>, run: seq<Event>)
    requires Possible(s, roles, run)
    decreases |run|
  {
    run != [] ==>
      KeepsTrack(s, roles, run[0]) && AlwaysKeepsTrack(Apply(s, roles, run[0]), roles, run[1..])
  }

  /** Every user has a record throughout a run exactly if no step of it loses track of one. */
  lemma {:induction false} RunKeepsTrack(s: State, roles: map<string, Role>, run: seq<Event>)
    requires Possible(s, roles, run) && UsersRecorded(s)
    ensures AlwaysRecorded(s, roles, run) <==> AlwaysKeepsTrack(s, roles, run)
    ensures AlwaysRecorded(s, roles, run) ==> UsersRecorded(Run(s, roles, run))
    decreases |run|
  {
    if run == [] {
      assert Run(s, roles, run) == s;
    } else {
      StepKeepsTrackIff(s, roles, run[0]);
      if KeepsTrack(s, roles, run[0]) {
        RunKeepsTrack(Apply(s, roles, run[0]), roles, run[1..]);
      }
    }
  }

  // ----- records without a user: steps and runs -------------------------------------------

  /** The step leaves no record without its user. */
  ghost predicate KeepsUsers(s: State, roles: map<string, Role>, e: Event)
    requires Enabled(s, e)
  {
    match e
    case Create(name, _, draw) =>
      CreateRefusal(s, roles, name, draw.env) == None && CleansUp(draw) ==> draw.username !in s.store
    case CreateBatch(name, _, count, env, draws) =>
      CreateRefusal(s, roles, name, env) == None ==>
        !BatchLosesUser(s, draws, BatchSize(s, name, roles[name], count))
    case Revoke(u, getOk, env) =>
      u in s.store && env.nameOk && getOk && env.roleOk && env.configOk && env.connectOk && env.statementOk ==>
        !LosesUser(env)
    case Cleanup(order, now, env, turns) =>
      env.configOk && env.countOk ==>
        CleanDropped(s, order, now, turns, |order|) <= CleanDeleted(s, order, now, turns, |order|)
    case LeaseRevoke(leaseId, getOk, env) =>
      LeaseParts(leaseId).Some? && getOk && env.configOk && env.roleOk && env.connectOk && env.dropOk ==>
        LeaseParts(leaseId).value.1 !in s.store
    case BulkRevoke(_, _, _) => LoopDeletesAll(s, LoopOf(s, roles, e))
    case RevokeByRole(_, _, _, _, _) => LoopDeletesAll(s, LoopOf(s, roles, e))
    case RevokeEveryone(_, _, _, _) => LoopDeletesAll(s, LoopOf(s, roles, e))
    case _ => true
  }

  /** Each stored name that some turn of the loop drops some turn also deletes; no loop drops none. */
  ghost predicate LoopDeletesAll(s: State, loop: Option<Loop>)
    requires loop.Some? ==> |loop.value.names| <= |loop.value.turns|
  {
    match loop
    case None => true
    case Some(Loop(mode, names, turns)) =>
      Dropped(mode, names, turns, |names|) * s.store.Keys <= Deleted(mode, names, turns, |names|)
  }

  lemma StepKeepsUsersIff(s: State, roles: map<string, Role>, e: Event)
    requires Enabled(s, e) && RecordsBacked(s)
    ensures RecordsBacked(Apply(s, roles, e)) <==> KeepsUsers(s, roles, e)
  {
    match e
    case CreateBatch(name, region, count, env, draws) =>
      if CreateRefusal(s, roles, name, env) == None {
        BatchKeepsUsersIff(s, name, roles[name], region, draws, BatchSize(s, name, roles[name], count));
      }
    case Create(_, _, _) =>
    case Revoke(_, _, _) =>
    case LeaseRevoke(_, _, _) =>
    case RenewBatch(name, count, given, order, unread, _, turns) =>
      if name in roles {
        var names := BatchTargets(s, roles, name, count, given, order, unread);
        RenewKeepsBoth(s, roles[name].defaultTTL, names, turns, |names|);
      }
    case Cleanup(order, now, _, turns) => CleanKeepsUsersIff(s, order, now, turns, |order|);
    case _ => LoopKeepsUsersIff(s, roles, e);
  }

  lemma LoopKeepsUsersIff(s: State, roles: map<string, Role>, e: Event)
    requires Enabled(s, e) && RecordsBacked(s)
    requires !e.Create? && !e.CreateBatch? && !e.Revoke? && !e.LeaseRevoke? && !e.RenewBatch? && !e.Cleanup?
    ensures RecordsBacked(Apply(s, roles, e)) <==> KeepsUsers(s, roles, e)
  {
    var loop := LoopOf(s, roles, e);
    if loop.Some? {
      RevokeKeepsUsersIff(loop.value.mode, s, loop.value.names, loop.value.turns, |loop.value.names|);
    }
  }

  /** Every record has its user in each state of the run. */
  ghost predicate AlwaysBacked(s: State, roles: map<string, Role>, run: seq<Event>)
    requires Possible(s, roles, run)
    decreases |run|
  {
    RecordsBacked(s) && (run != [] ==> AlwaysBacked(Apply(s, roles, run[0]), roles, run[1..]))
  }

  ghost predicate AlwaysKeepsUsers(s: State, roles: map<string, Role>, run: seq<Event>)
    requires Possible(s, roles, run)
    decreases |run|
  {
    run != [] ==>
      KeepsUsers(s, roles, run[0]) && AlwaysKeepsUsers(Apply(s, roles, run[0]), roles, run[1..])
  }

  /** Every record has its user throughout a run exactly if no step of it takes one away. */
  lemma {:induction false} RunKeepsUsers(s: State, roles: map<string, Role>, run: seq<Event>)
    requires Possible(s, roles, run) && RecordsBacked(s)
    ensures AlwaysBacked(s, roles, run) <==> AlwaysKeepsUsers(s, roles, run)
    ensures AlwaysBacked(s, roles, run) ==> RecordsBacked(Run(s, roles, run))
    decreases |run|
  {
    if run == [] {
      assert Run(s, roles, run) == s;
    } else {
      StepKeepsUsersIff(s, roles, run[0]);
      if KeepsUsers(s, roles, run[0]) {
        RunKeepsUsers(Apply(s, roles, run[0]), roles, run[1..]);
      }
    }
  }
}
