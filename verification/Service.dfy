/** Whole runs of the cached engine against whole runs of the cache-less account of it. */
module Service {
  import opened Common
  import opened Vault
  import opened CredentialCaching
  import opened Backends
  import Lifecycle

  type Event = Lifecycle.Event

  lemma {:induction false} RunThenApply(s: State, roles: map<string, Role>, run: seq<Event>, e: Event)
    requires Lifecycle.Possible(s, roles, run)
    requires Lifecycle.Enabled(Lifecycle.Run(s, roles, run), e)
    ensures Lifecycle.Possible(s, roles, run + [e])
    ensures Lifecycle.Run(s, roles, run + [e]) == Lifecycle.Apply(Lifecycle.Run(s, roles, run), roles, e)
    decreases |run|
  {
    if run == [] {
    } else {
      RunThenApply(Lifecycle.Apply(s, roles, run[0]), roles, run[1..], e);
      assert (run + [e])[1..] == run[1..] + [e];
    }
  }

  /** Enough answers for a listing of `n` names, and clock readings that are real times. */
  predicate Fits(e: Event, n: nat) {
    match e
    case CreateBatch(_, _, _, _, draws) => |draws| >= MAX_BATCH
    case RenewBatch(_, _, _, _, _, _, turns) => |turns| >= MAX_BATCH && RealTimes(turns)
    case BulkRevoke(names, _, turns) => |names| <= |turns| && RealTimes(turns)
    case RevokeByRole(_, _, _, _, turns) => n <= |turns|
    case RevokeEveryone(_, _, _, turns) => n <= |turns|
    case Cleanup(_, _, _, turns) => n <= |turns|
    case _ => true
  }

  predicate RealTimes(turns: seq<Turn>) {
    forall i :: 0 <= i < |turns| ==> turns[i].now != ZERO_TIME
  }

  /** No renewal in the event changes a shared credential and then fails to store it. */
  predicate StoresRenewals(e: Event) {
    match e
    case Renew(_, _, _, env) => env.putOk
    case RenewBatch(_, _, _, _, _, _, turns) => forall i :: 0 <= i < |turns| ==> turns[i].env.putOk
    case _ => true
  }

  /** The same handler with the same arguments, but for the listing and the answers of reads. */
  function Recast(e: Event, order: seq<string>, getOk: bool, turns: seq<Turn>): Event {
    match e
    case Renew(u, at, _, env) => Lifecycle.Renew(u, at, getOk, env)
    case RenewBatch(name, count, given, _, unread, env, _) =>
      Lifecycle.RenewBatch(name, count, given, order, unread, env, turns)
    case Extend(leaseId, requested, _, clock, env) => Lifecycle.Extend(leaseId, requested, order, clock, env)
    case Revoke(u, _, env) => Lifecycle.Revoke(u, getOk, env)
    case BulkRevoke(names, env, _) => Lifecycle.BulkRevoke(names, env, turns)
    case RevokeByRole(name, _, unread, env, _) => Lifecycle.RevokeByRole(name, order, unread, env, turns)
    case RevokeEveryone(_, unread, env, _) => Lifecycle.RevokeEveryone(order, unread, env, turns)
    case Cleanup(_, at, env, _) => Lifecycle.Cleanup(order, at, env, turns)
    case LeaseRevoke(leaseId, _, env) => Lifecycle.LeaseRevoke(leaseId, getOk, env)
    case _ => e
  }

  /** These are the answers the request came with, except that a cache may have spared a read that fails. */
  ghost predicate Spared(e: Event, getOk: bool, turns: seq<Turn>) {
    match e
    case Renew(_, _, asked, _) => asked ==> getOk
    case Revoke(_, asked, _) => asked ==> getOk
    case LeaseRevoke(_, asked, _) => asked ==> getOk
    case RenewBatch(_, _, _, _, _, _, asked) => MilderAll(asked, turns)
    case BulkRevoke(_, _, asked) => MilderAll(asked, turns)
    case RevokeByRole(_, _, _, _, asked) => turns == asked
    case RevokeEveryone(_, _, _, asked) => MilderAll(asked, turns)
    case Cleanup(_, _, _, asked) => turns == asked
    case _ => true
  }

  /**
   What exactly the cache spares one request: the read of a name with a live entry, and in a batch
   also of one that an earlier turn has loaded; to revoke everyone, a role read before.
   */
  ghost predicate SparedBy(
    entries: map<string, CacheEntry>, s: State, roles: map<string, Role>, now: int, e: Event, order: seq<string>,
    getOk: bool, turns: seq<Turn>)
    requires Fits(e, |order|) && Lists(order, s.store)
  {
    match e
    case Renew(u, at, asked, _) => getOk == (asked || Live(entries, u, at))
    case Revoke(u, asked, _) => getOk == (asked || Live(entries, u, now))
    case LeaseRevoke(leaseId, asked, _) =>
      var parts := LeaseParts(leaseId);
      getOk == (asked || (parts.Some? && Live(entries, parts.value.1, now)))
    case RenewBatch(name, count, given, _, unread, env, asked) =>
      var names := BatchTargets(s, roles, name, count, given, order, unread);
      var k := if BatchRefusal(roles, name, given, names, env) == None then |names| else 0;
      SparedReads(entries, names, asked, turns, k)
    case BulkRevoke(names, env, asked) =>
      SparedReads(entries, names, asked, turns, if names != [] && env.configOk then |names| else 0)
    case RevokeEveryone(_, unread, env, asked) =>
      SelectPicks(s.store, order, unread, None, |order|);
      var keys := Select(s.store, order, unread, None, |order|);
      Remembered(RolesUnder(s.store, keys), asked, turns, if env.configOk && env.countOk then |keys| else 0)
    case RevokeByRole(_, _, _, _, asked) => turns == asked
    case Cleanup(_, _, _, asked) => turns == asked
    case _ => true
  }

  predicate Live(entries: map<string, CacheEntry>, u: string, now: int) {
    u in entries && now <= entries[u].expiresAt
  }

  /** Which is no more than what a cache may spare. */
  lemma SparedByIsSpared(
    entries: map<string, CacheEntry>, s: State, roles: map<string, Role>, now: int, e: Event, order: seq<string>,
    getOk: bool, turns: seq<Turn>)
    requires Fits(e, |order|) && Lists(order, s.store) && SparedBy(entries, s, roles, now, e, order, getOk, turns)
    ensures Spared(e, getOk, turns)
  {
    match e
    case RenewBatch(name, count, given, _, unread, env, asked) =>
      var names := BatchTargets(s, roles, name, count, given, order, unread);
      var k := if BatchRefusal(roles, name, given, names, env) == None then |names| else 0;
      SparedMeansMilder(entries, names, asked, turns, k);
    case BulkRevoke(names, env, asked) =>
      SparedMeansMilder(entries, names, asked, turns, if names != [] && env.configOk then |names| else 0);
    case _ =>
  }

  /** `taken` is the request `e` as served, over some listing. */
  ghost predicate ServedAs(e: Event, taken: Event) {
    exists order, getOk, turns :: taken == Recast(e, order, getOk, turns) && Spared(e, getOk, turns)
  }

  /** Requests that can be served in state `s`. */
  predicate Servable(entry: (int, Event), s: State) {
    entry.0 != ZERO_TIME && Fits(entry.1, |s.store|) && (entry.1.Renew? ==> entry.1.now != ZERO_TIME)
  }

  /** `served` is the script, entry for entry, but for requests that cannot be served when their turn comes. */
  ghost predicate Serves(s: State, roles: map<string, Role>, script: seq<(int, Event)>, served: seq<Event>)
    decreases |script|
  {
    if script == [] then served == []
    else if Servable(script[0], s) then
      && served != [] && ServedAs(script[0].1, served[0]) && Lifecycle.Enabled(s, served[0])
      && Serves(Lifecycle.Apply(s, roles, served[0]), roles, script[1..], served[1..])
    else Serves(s, roles, script[1..], served)
  }

  lemma {:induction false} ServesIsPossible(
    s: State, roles: map<string, Role>, script: seq<(int, Event)>, served: seq<Event>)
    requires Serves(s, roles, script, served)
    ensures Lifecycle.Possible(s, roles, served)
    decreases |script|
  {
    if script == [] {
    } else {
      if Servable(script[0], s) {
        ServesIsPossible(Lifecycle.Apply(s, roles, served[0]), roles, script[1..], served[1..]);
      } else {
        ServesIsPossible(s, roles, script[1..], served);
      }
    }
  }

  lemma {:induction false} ServesOneMore(
    s: State, roles: map<string, Role>, script: seq<(int, Event)>, served: seq<Event>, entry: (int, Event),
    taken: Event)
    requires Serves(s, roles, script, served) && Lifecycle.Possible(s, roles, served)
    requires var t := Lifecycle.Run(s, roles, served);
      Servable(entry, t) && Lifecycle.Enabled(t, taken) && ServedAs(entry.1, taken)
    ensures Serves(s, roles, script + [entry], served + [taken])
    decreases |script|
  {
    var all, more := script + [entry], served + [taken];
    if script == [] {
      assert all == [entry] && more == [taken] && all[1..] == [] && more[1..] == [];
    } else {
      assert all[0] == script[0] && all[1..] == script[1..] + [entry];
      if Servable(script[0], s) {
        assert more[0] == served[0] && more[1..] == served[1..] + [taken];
        ServesOneMore(Lifecycle.Apply(s, roles, served[0]), roles, script[1..], served[1..], entry, taken);
      } else {
        ServesOneMore(s, roles, script[1..], served, entry, taken);
      }
    }
  }

  lemma {:induction false} ServesNoMore(
    s: State, roles: map<string, Role>, script: seq<(int, Event)>, served: seq<Event>, entry: (int, Event))
    requires Serves(s, roles, script, served) && Lifecycle.Possible(s, roles, served)
    requires !Servable(entry, Lifecycle.Run(s, roles, served))
    ensures Serves(s, roles, script + [entry], served)
    decreases |script|
  {
    var all := script + [entry];
    if script == [] {
      assert all == [entry] && all[1..] == [];
    } else {
      assert all[0] == script[0] && all[1..] == script[1..] + [entry];
      if Servable(script[0], s) {
        ServesNoMore(Lifecycle.Apply(s, roles, served[0]), roles, script[1..], served[1..], entry);
      } else {
        ServesNoMore(s, roles, script[1..], served, entry);
      }
    }
  }

  /** No request draws a name that the script did not. */
  lemma {:induction false} ServesDrawsNothingNew(
    s: State, roles: map<string, Role>, script: seq<(int, Event)>, served: seq<Event>, u: string)
    requires Serves(s, roles, script, served)
    requires forall i :: 0 <= i < |script| ==> !Lifecycle.Draws(script[i].1, u)
    ensures forall e :: e in served ==> !Lifecycle.Draws(e, u)
    decreases |script|
  {
    if script == [] {
    } else {
      if Servable(script[0], s) {
        assert Lifecycle.Draws(served[0], u) <==> Lifecycle.Draws(script[0].1, u);
        ServesDrawsNothingNew(Lifecycle.Apply(s, roles, served[0]), roles, script[1..], served[1..], u);
        assert !Lifecycle.Draws(script[0].1, u);
        assert served == [served[0]] + served[1..];
      } else {
        ServesDrawsNothingNew(s, roles, script[1..], served, u);
      }
    }
  }

  /** What holds of the cached engine after any script. */
  lemma ServedRunsKeepTheirPromises(
    s: State, roles: map<string, Role>, script: seq<(int, Event)>, served: seq<Event>, t: State)
    requires Serves(s, roles, script, served) && Lifecycle.Possible(s, roles, served)
    requires t == Lifecycle.Run(s, roles, served)
    ensures WellKeyed(s.store) ==> WellKeyed(t.store)
    ensures forall r :: r in roles && roles[r].maxCredentials > 0 ==>
      |Holders(t.store, r)| <= Lifecycle.Max(|Holders(s.store, r)|, roles[r].maxCredentials)
    ensures forall u :: u !in s.store && (forall i :: 0 <= i < |script| ==> !Lifecycle.Draws(script[i].1, u)) ==>
      u !in t.store
  {
    if WellKeyed(s.store) {
      Lifecycle.RunKeepsKeys(s, roles, served);
    }
    forall r | r in roles && roles[r].maxCredentials > 0
      ensures |Holders(t.store, r)| <= Lifecycle.Max(|Holders(s.store, r)|, roles[r].maxCredentials)
    {
      Lifecycle.RunKeepsQuota(s, roles, served, r);
    }
    forall u | u !in s.store && forall i :: 0 <= i < |script| ==> !Lifecycle.Draws(script[i].1, u)
      ensures u !in t.store
    {
      ServesDrawsNothingNew(s, roles, script, served, u);
      Lifecycle.NoResurrection(s, roles, served, u);
    }
  }

  /** The stored usernames in some order, as storage lists them. */
  method ListStore(b: Backend) returns (order: seq<string>)
    ensures Lists(order, b.store) && |order| == |b.store|
  {
    order := [];
    var pending := b.store.Keys;
    while pending != {}
      invariant pending <= b.store.Keys
      invariant Distinct(order) && |order| + |pending| == |b.store|
      invariant forall u :: u in order <==> u in b.store && u !in pending
    {
      var u :| u in pending;
      pending := pending - {u};
      order := order + [u];
    }
  }

  /**
   One request: the event is served as given, except that listings are the current ones and reads
   a cache spares cannot fail. `getOk` and `turns` are the answers as they were used.
   */
  method Perform(b: Backend, now: int, e: Event, order: seq<string>) returns (ghost getOk: bool, ghost turns: seq<Turn>)
    requires b.Valid() && now != ZERO_TIME && Lists(order, b.store) && Fits(e, |order|)
    requires e.Renew? ==> e.now != ZERO_TIME
    modifies b`store, b`users, b`cache, b`intact, b.cache, b.cache.objects
    ensures b.Valid()
    ensures (b.cache == old(b.cache) || fresh(b.cache)) && fresh(b.cache.objects - old(b.cache.objects))
    ensures SparedBy(old(b.cache.entries), old(b.View()), b.roles, now, e, order, getOk, turns)
    ensures Lifecycle.Enabled(old(b.View()), Recast(e, order, getOk, turns))
    ensures b.View() == Lifecycle.Apply(old(b.View()), b.roles, Recast(e, order, getOk, turns))
    ensures old(b.intact) && StoresRenewals(e) ==> b.intact
    ensures b.cache.ttl == old(b.cache.ttl) && b.cache.maxSize == old(b.cache.maxSize)
    ensures e.SweepCache? ==>
      b.cache.entries == map u | u in old(b.cache.entries) && Live(old(b.cache.entries), u, e.now) ::
        old(b.cache.entries)[u]
    ensures e.ReloadPlugin? ==> b.cache.entries == map[]
  {
    getOk, turns := true, [];
    if Grants(e) {
      PerformAddition(b, now, e, order);
    } else if Removes(e) {
      getOk, turns := PerformRemoval(b, now, e, order);
    } else if e.Renew? || e.RenewBatch? {
      getOk, turns := PerformRenewal(b, now, e, order);
    } else if e.SweepCache? {
      b.SweepCache(e.now);
    } else {
      b.Reload(b.cache.ttl, b.cache.maxSize);
    }
  }

  /** The requests that make credentials, or extend one. */
  predicate Grants(e: Event) {
    e.Create? || e.CreateBatch? || e.Extend?
  }

  method PerformAddition(b: Backend, now: int, e: Event, order: seq<string>)
    requires b.Valid() && now != ZERO_TIME && Lists(order, b.store) && Fits(e, |order|) && Grants(e)
    modifies b`store, b`users, b.cache
    ensures b.Valid() && fresh(b.cache.objects - old(b.cache.objects))
    ensures Lifecycle.Enabled(old(b.View()), Recast(e, order, true, []))
    ensures b.View() == Lifecycle.Apply(old(b.View()), b.roles, Recast(e, order, true, []))
  {
    match e
    case Create(name, region, draw) =>
      var _ := b.CreateCredential(name, region, order, draw, now);
    case CreateBatch(name, region, count, env, draws) =>
      var _ := b.CreateCredentialBatch(name, region, count, order, env, draws, now);
    case Extend(leaseId, requested, _, clock, env) =>
      var _ := b.ExtendLease(leaseId, requested, order, clock, env, now);
  }

  method PerformRenewal(b: Backend, ghost now: int, e: Event, order: seq<string>)
    returns (ghost getOk: bool, ghost turns: seq<Turn>)
    requires b.Valid() && Lists(order, b.store) && Fits(e, |order|)
    requires e.RenewBatch? || (e.Renew? && e.now != ZERO_TIME)
    modifies b`store, b`intact, b.cache, b.cache.objects
    ensures b.Valid() && fresh(b.cache.objects - old(b.cache.objects))
    ensures SparedBy(old(b.cache.entries), old(b.View()), b.roles, now, e, order, getOk, turns)
    ensures Lifecycle.Enabled(old(b.View()), Recast(e, order, getOk, turns))
    ensures b.View() == Lifecycle.Apply(old(b.View()), b.roles, Recast(e, order, getOk, turns))
    ensures old(b.intact) && StoresRenewals(e) ==> b.intact
  {
    getOk, turns := true, [];
    match e
    case Renew(u, at, asked, env) =>
      getOk := asked || b.cache.Fresh(u, at);
      var _ := b.RenewCredential(u, at, asked, env);
    case RenewBatch(name, count, given, _, unread, env, asked) =>
      var _, _, _, used := b.RenewCredentialBatch(name, count, given, order, unread, env, asked);
      turns := used;
  }

  /** The requests that take credentials away. */
  predicate Removes(e: Event) {
    e.Revoke? || e.BulkRevoke? || e.RevokeByRole? || e.RevokeEveryone? || e.Cleanup? || e.LeaseRevoke?
  }

  method PerformRemoval(b: Backend, now: int, e: Event, order: seq<string>)
    returns (ghost getOk: bool, ghost turns: seq<Turn>)
    requires b.Valid() && now != ZERO_TIME && Lists(order, b.store) && Fits(e, |order|) && Removes(e)
    modifies b`store, b`users, b.cache
    ensures b.Valid() && fresh(b.cache.objects - old(b.cache.objects))
    ensures SparedBy(old(b.cache.entries), old(b.View()), b.roles, now, e, order, getOk, turns)
    ensures Lifecycle.Enabled(old(b.View()), Recast(e, order, getOk, turns))
    ensures b.View() == Lifecycle.Apply(old(b.View()), b.roles, Recast(e, order, getOk, turns))
  {
    getOk, turns := true, [];
    match e
    case Revoke(u, asked, env) =>
      getOk := asked || b.cache.Fresh(u, now);
      var _ := b.RevokeCredential(u, now, asked, env);
    case BulkRevoke(names, env, asked) =>
      var _, _, _, used := b.BulkRevokeCredentials(names, env, asked);
      turns := used;
    case RevokeByRole(name, _, unread, env, asked) =>
      turns := asked;
      var _, _, _ := b.RevokeCredentialsByRole(name, order, unread, env, asked);
    case RevokeEveryone(_, unread, env, asked) =>
      var _, _, _, used := b.RevokeAllCredentials(order, unread, env, asked);
      turns := used;
    case Cleanup(_, at, env, asked) =>
      turns := asked;
      var _ := b.CleanupExpiredCredentials(order, at, env, asked);
    case LeaseRevoke(leaseId, asked, env) =>
      ghost var parts := LeaseParts(leaseId);
      getOk := asked || (parts.Some? && b.cache.Fresh(parts.value.1, now));
      var _ := b.RevokeLease(leaseId, now, asked, env);
  }

  /**
   Any script of requests. Whatever fails along the way, each request that can be served is, the
   store and the users end as a run of the cache-less handlers leaves them, with all that such
   runs keep; and while every renewal reached storage, every cached credential is the stored one.
   */
  method Serve(b: Backend, script: seq<(int, Event)>) returns (ghost served: seq<Event>)
    requires b.Valid()
    modifies b`store, b`users, b`cache, b`intact, b.cache, b.cache.objects
    ensures b.Valid()
    ensures Serves(old(b.View()), b.roles, script, served)
    ensures Lifecycle.Possible(old(b.View()), b.roles, served)
    ensures b.View() == Lifecycle.Run(old(b.View()), b.roles, served)
    ensures old(b.intact) && (forall i :: 0 <= i < |script| ==> StoresRenewals(script[i].1)) ==> b.Coherent()
    ensures WellKeyed(old(b.store)) ==> WellKeyed(b.store)
    ensures forall r :: r in b.roles && b.roles[r].maxCredentials > 0 ==>
      |Holders(b.store, r)| <= Lifecycle.Max(|Holders(old(b.store), r)|, b.roles[r].maxCredentials)
    ensures forall u :: u !in old(b.store) && (forall i :: 0 <= i < |script| ==> !Lifecycle.Draws(script[i].1, u)) ==>
      u !in b.store
  {
    served := [];
    ghost var start := b.View();
    for i := 0 to |script|
      invariant b.Valid()
      invariant (b.cache == old(b.cache) || fresh(b.cache)) && fresh(b.cache.objects - old(b.cache.objects))
      invariant Accounts(b.View(), start, b.roles, script[..i], served)
      invariant old(b.intact) && (forall j :: 0 <= j < |script| ==> StoresRenewals(script[j].1)) ==> b.intact
    {
      assert script[..i + 1] == script[..i] + [script[i]];
      ghost var known := b.cache.objects;
      served := ServeOne(b, script[i], start, script[..i], served);
      assert forall o :: o in b.cache.objects - old(b.cache.objects) ==>
        o in b.cache.objects - known || o in known - old(b.cache.objects);
    }
    assert script[..|script|] == script;
    ServedRunsKeepTheirPromises(start, b.roles, script, served, b.View());
  }

  /** The state `t` is what serving the script from `s` on leaves. */
  ghost predicate Accounts(
    t: State, s: State, roles: map<string, Role>, script: seq<(int, Event)>, served: seq<Event>)
  {
    Serves(s, roles, script, served) && Lifecycle.Possible(s, roles, served) && t == Lifecycle.Run(s, roles, served)
  }

  /** One entry of a script, behind those served so far. */
  method ServeOne(
    b: Backend, entry: (int, Event), ghost start: State, ghost script: seq<(int, Event)>, ghost before: seq<Event>)
    returns (ghost served: seq<Event>)
    requires b.Valid() && Accounts(b.View(), start, b.roles, script, before)
    modifies b`store, b`users, b`cache, b`intact, b.cache, b.cache.objects
    ensures b.Valid()
    ensures (b.cache == old(b.cache) || fresh(b.cache)) && fresh(b.cache.objects - old(b.cache.objects))
    ensures Accounts(b.View(), start, b.roles, script + [entry], served)
    ensures old(b.intact) && StoresRenewals(entry.1) ==> b.intact
  {
    var (now, e) := entry;
    var order := ListStore(b);
    if now != ZERO_TIME && Fits(e, |order|) && (e.Renew? ==> e.now != ZERO_TIME) {
      ghost var taken := PerformAs(b, now, e, order);
      served := before + [taken];
      AccountsForOneMore(b.View(), start, b.roles, script, before, entry, taken);
    } else {
      served := before;
      ServesNoMore(start, b.roles, script, before, entry);
    }
  }

  /** One request, and as what it was served. */
  method PerformAs(b: Backend, now: int, e: Event, order: seq<string>) returns (ghost taken: Event)
    requires b.Valid() && now != ZERO_TIME && Lists(order, b.store) && Fits(e, |order|)
    requires e.Renew? ==> e.now != ZERO_TIME
    modifies b`store, b`users, b`cache, b`intact, b.cache, b.cache.objects
    ensures b.Valid()
    ensures (b.cache == old(b.cache) || fresh(b.cache)) && fresh(b.cache.objects - old(b.cache.objects))
    ensures ServedAs(e, taken) && Lifecycle.Enabled(old(b.View()), taken)
    ensures b.View() == Lifecycle.Apply(old(b.View()), b.roles, taken)
    ensures old(b.intact) && StoresRenewals(e) ==> b.intact
  {
    ghost var entries, state, getOk, turns := b.cache.entries, b.View(), true, [];
    getOk, turns := Perform(b, now, e, order);
    SparedByIsSpared(entries, state, b.roles, now, e, order, getOk, turns);
    taken := Recast(e, order, getOk, turns);
  }

  lemma AccountsForOneMore(
    t: State, s: State, roles: map<string, Role>, script: seq<(int, Event)>, served: seq<Event>,
    entry: (int, Event), taken: Event)
    requires Serves(s, roles, script, served) && Lifecycle.Possible(s, roles, served)
    requires var now := Lifecycle.Run(s, roles, served);
      && Servable(entry, now) && Lifecycle.Enabled(now, taken) && ServedAs(entry.1, taken)
      && t == Lifecycle.Apply(now, roles, taken)
    ensures Accounts(t, s, roles, script + [entry], served + [taken])
  {
    RunThenApply(s, roles, served, taken);
    ServesOneMore(s, roles, script, served, entry, taken);
  }
}
