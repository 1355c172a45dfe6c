/**
 The handlers as they run: storage, database users and a credential cache whose objects renewals
 write in place. Each is proved to leave the store and the users as the cache-less account in
 `Vault` says; a cache hit can only turn a failed read into a successful one.
 */
module Backends {
  import opened Common
  import opened Vault
  import opened CredentialCaching

  // ----- a loop's account depends only on the turns it has taken --------------------------

  lemma {:induction false} RenewPrefix(s: State, ttl: int, names: seq<string>, a: seq<Turn>, b: seq<Turn>, k: nat)
    requires k <= |names| && |names| <= |a| && |names| <= |b| && a[..k] == b[..k]
    ensures RenewFirst(s, ttl, names, a, k) == RenewFirst(s, ttl, names, b, k)
  {
    if k == 0 {
    } else {
      assert a[..k - 1] == a[..k][..k - 1] && b[..k - 1] == b[..k][..k - 1];
      assert a[k - 1] == a[..k][k - 1] && b[k - 1] == b[..k][k - 1];
      RenewPrefix(s, ttl, names, a, b, k - 1);
    }
  }

  lemma {:induction false} RevokePrefix(mode: Mode, s: State, names: seq<string>, a: seq<Turn>, b: seq<Turn>, k: nat)
    requires k <= |names| && |names| <= |a| && |names| <= |b| && a[..k] == b[..k]
    ensures RevokeFirst(mode, s, names, a, k) == RevokeFirst(mode, s, names, b, k)
  {
    if k == 0 {
    } else {
      assert a[..k - 1] == a[..k][..k - 1] && b[..k - 1] == b[..k][..k - 1];
      assert a[k - 1] == a[..k][k - 1] && b[k - 1] == b[..k][k - 1];
      RevokePrefix(mode, s, names, a, b, k - 1);
    }
  }

  /** The entries of names that are still stored. */
  ghost function Surviving(before: map<string, CacheEntry>, store: map<string, Record>): map<string, CacheEntry> {
    map v | v in before && v in store :: before[v]
  }

  lemma SurvivingOne(before: map<string, CacheEntry>, store: map<string, Record>, u: string)
    requires before.Keys <= store.Keys
    ensures Surviving(before, store) == before && Surviving(before, store - {u}) == before - {u}
  {}

  lemma SurvivingTwice(before: map<string, CacheEntry>, between: map<string, Record>, store: map<string, Record>)
    requires store.Keys <= between.Keys
    ensures Surviving(Surviving(before, between), store) == Surviving(before, store)
  {}

  /** The same outside answers, except that a read of a record or a role may be spared by a cache. */
  ghost predicate Milder(a: Turn, b: Turn) {
    && b == a.(getOk := b.getOk, roleOk := b.roleOk)
    && (a.getOk ==> b.getOk)
    && (a.roleOk ==> b.roleOk)
  }

  ghost predicate MilderAll(a: seq<Turn>, b: seq<Turn>) {
    |a| == |b| && forall i :: 0 <= i < |a| ==> Milder(a[i], b[i])
  }

  /** Every entry was there before, but for that of `u` where `u` has been loaded. */
  ghost predicate OnlyNew(before: map<string, CacheEntry>, after: map<string, CacheEntry>, u: string, loaded: bool) {
    forall v :: v in after ==> (v in before && after[v] == before[v]) || (v == u && loaded)
  }

  /** One of the first `k` turns was about `u`, and loaded it. */
  ghost predicate LoadedBy(names: seq<string>, taken: seq<Turn>, k: nat, u: string)
    requires k <= |names| <= |taken|
  {
    exists j :: 0 <= j < k && names[j] == u && taken[j].getOk
  }

  /** Every entry was there at the start, or was loaded by one of the first `k` turns. */
  ghost predicate Traced(
    start: map<string, CacheEntry>, now: map<string, CacheEntry>, names: seq<string>, taken: seq<Turn>, k: nat)
    requires k <= |names| <= |taken|
  {
    forall v :: v in now ==> (v in start && now[v] == start[v]) || LoadedBy(names, taken, k, v)
  }

  /**
   The turns as they were taken: the answers are those asked for, except that a failed read is
   spared where the name had a live entry at the start, or an earlier turn had loaded it.
   */
  ghost predicate SparedReads(
    start: map<string, CacheEntry>, names: seq<string>, asked: seq<Turn>, taken: seq<Turn>, k: nat)
    requires k <= |names| <= |asked|
  {
    && |taken| == |asked|
    && (forall i :: 0 <= i < |asked| ==> taken[i] == asked[i].(getOk := taken[i].getOk))
    && (forall i :: k <= i < |asked| ==> taken[i] == asked[i])
    && forall i :: 0 <= i < k ==>
         (asked[i].getOk ==> taken[i].getOk) && (taken[i].getOk ==> ReadOk(start, names, asked, taken, i))
  }

  ghost predicate ReadOk(start: map<string, CacheEntry>, names: seq<string>, asked: seq<Turn>, taken: seq<Turn>, i: nat)
    requires i < |names| <= |taken| && i < |asked|
  {
    || asked[i].getOk
    || (names[i] in start && asked[i].now <= start[names[i]].expiresAt)
    || LoadedBy(names, taken, i, names[i])
  }

  /** The turns after `k` turns of a loop that reads through the cache. */
  ghost function Sparings(start: map<string, CacheEntry>, names: seq<string>, asked: seq<Turn>, k: nat): iset<seq<Turn>>
    requires k <= |names| <= |asked|
  {
    iset taken: seq<Turn> | SparedReads(start, names, asked, taken, k)
  }

  lemma SparedOneMore(
    start: map<string, CacheEntry>, before: map<string, CacheEntry>, after: map<string, CacheEntry>,
    names: seq<string>, asked: seq<Turn>, taken: seq<Turn>, k: nat, turn: Turn)
    requires k < |names| <= |asked| == |taken| && taken in Sparings(start, names, asked, k)
    requires Traced(start, before, names, taken, k)
    requires var u := names[k];
      && turn == asked[k].(getOk := asked[k].getOk || (u in before && asked[k].now <= before[u].expiresAt))
      && OnlyNew(before, after, u, turn.getOk)
    ensures taken[k := turn] in Sparings(start, names, asked, k + 1)
    ensures Traced(start, after, names, taken[k := turn], k + 1)
  {
    var more := taken[k := turn];
    forall u, i: nat | i <= k ensures LoadedBy(names, more, i, u) <==> LoadedBy(names, taken, i, u) {
      LoadedStays(names, taken, k, turn, i, u);
    }
    forall i | 0 <= i < k ensures more[i].getOk ==> ReadOk(start, names, asked, more, i) {
      assert taken[i].getOk ==> ReadOk(start, names, asked, taken, i);
    }
    forall v | v in after ensures (v in start && after[v] == start[v]) || LoadedBy(names, more, k + 1, v) {
      if LoadedBy(names, more, k, v) {
        var j :| 0 <= j < k && names[j] == v && more[j].getOk;
      }
    }
  }

  lemma LoadedStays(names: seq<string>, taken: seq<Turn>, k: nat, turn: Turn, i: nat, u: string)
    requires i <= k < |names| <= |taken|
    ensures LoadedBy(names, taken[k := turn], i, u) <==> LoadedBy(names, taken, i, u)
  {
    assert forall j :: 0 <= j < i ==> taken[k := turn][j] == taken[j];
  }

  lemma NoneSpared(start: map<string, CacheEntry>, names: seq<string>, turns: seq<Turn>)
    requires |names| <= |turns|
    ensures turns in Sparings(start, names, turns, 0) && Traced(start, start, names, turns, 0)
  {}

  lemma {:induction false} SparedMeansMilder(
    start: map<string, CacheEntry>, names: seq<string>, asked: seq<Turn>, taken: seq<Turn>, k: nat)
    requires k <= |names| <= |asked| && SparedReads(start, names, asked, taken, k)
    ensures MilderAll(asked, taken)
  {
    forall i | 0 <= i < |asked| ensures Milder(asked[i], taken[i]) {
      assert i < k || taken[i] == asked[i];
    }
  }

  /** The roles of some records. */
  function RolesOf(creds: seq<Record>): (names: seq<string>)
    ensures |names| == |creds| && forall i :: 0 <= i < |creds| ==> names[i] == creds[i].id.roleName
  {
    seq(|creds|, i requires 0 <= i < |creds| => creds[i].id.roleName)
  }

  /** The roles of the records stored under some keys. */
  function RolesUnder(store: map<string, Record>, keys: seq<string>): (names: seq<string>)
    requires forall k :: k in keys ==> k in store
    ensures |names| == |keys| && forall i :: 0 <= i < |keys| ==> names[i] == store[keys[i]].id.roleName
  {
    seq(|keys|, i requires 0 <= i < |keys| => store[keys[i]].id.roleName)
  }

  /** A role that was read for an earlier name of the same call need not be read again. */
  ghost predicate Remembered(rolesOf: seq<string>, asked: seq<Turn>, taken: seq<Turn>, k: nat)
    requires k <= |rolesOf| <= |asked|
  {
    && |asked| == |taken|
    && (forall i :: k <= i < |asked| ==> taken[i] == asked[i])
    && forall i :: 0 <= i < k ==>
         taken[i] == asked[i].(roleOk := asked[i].roleOk || rolesOf[i] in RolesRead(rolesOf, asked, i))
  }

  /** The roles whose reads for the first `k` names succeed. */
  ghost function RolesRead(rolesOf: seq<string>, asked: seq<Turn>, k: nat): set<string>
    requires k <= |rolesOf| <= |asked|
  {
    set j | 0 <= j < k && asked[j].roleOk :: rolesOf[j]
  }

  ghost function Memories(rolesOf: seq<string>, asked: seq<Turn>, k: nat): iset<seq<Turn>>
    requires k <= |rolesOf| <= |asked|
  {
    iset taken: seq<Turn> | Remembered(rolesOf, asked, taken, k)
  }

  /** One more name: its role is known if it was read for it or before. */
  lemma RememberedOneMore(rolesOf: seq<string>, asked: seq<Turn>, taken: seq<Turn>, k: nat)
    requires k < |rolesOf| <= |asked| == |taken| && taken in Memories(rolesOf, asked, k)
    ensures var known := RolesRead(rolesOf, asked, k);
      var ok := rolesOf[k] in known || asked[k].roleOk;
      && taken[k := asked[k].(roleOk := ok)] in Memories(rolesOf, asked, k + 1)
      && RolesRead(rolesOf, asked, k + 1) == if ok then known + {rolesOf[k]} else known
  {}

  /** One more turn of a batch renewal, taken as `turn`. */
  lemma RenewFirstStep(
    s: State, ttl: int, names: seq<string>, before: seq<Turn>, turn: Turn, k: nat, t: State, rs: seq<Result>,
    t': State, out: Outcome)
    requires k < |names| <= |before| && (t, rs) == RenewFirst(s, ttl, names, before, k)
    requires (t', out) == RenewItem(t, ttl, names[k], turn)
    ensures RenewFirst(s, ttl, names, before[k := turn], k + 1) == (t', rs + [Result(names[k], out)])
  {
    RenewPrefix(s, ttl, names, before, before[k := turn], k);
  }

  /** The same for a revocation loop. */
  lemma RevokeFirstStep(
    mode: Mode, s: State, names: seq<string>, before: seq<Turn>, turn: Turn, k: nat, t: State, rs: seq<Result>,
    t': State, out: Outcome)
    requires k < |names| <= |before| && (t, rs) == RevokeFirst(mode, s, names, before, k)
    requires (t', out) == RevokeItem(mode, t, names[k], turn)
    ensures RevokeFirst(mode, s, names, before[k := turn], k + 1) == (t', rs + [Result(names[k], out)])
  {
    RevokePrefix(mode, s, names, before, before[k := turn], k);
  }

  lemma CountStep(rs: seq<Result>, r: Result)
    ensures Successes(rs + [r]) == Successes(rs) + if r.outcome == Done then 1 else 0
    ensures Failures(rs + [r]) == Failures(rs) + if r.outcome == Done then 0 else 1
  {
    assert (rs + [r])[..|rs|] == rs;
  }

  /** A renewal stores one record if it succeeds, and nothing otherwise. */
  lemma RenewStores(s: State, roles: map<string, Role>, u: string, now: int, getOk: bool, env: Env)
    ensures var (t, out) := Renew(s, roles, u, now, getOk, env);
      if out == Done then u in t.store && t.store == s.store[u := t.store[u]] else t == s
  {}

  lemma RenewItemStores(s: State, ttl: int, u: string, turn: Turn)
    ensures var (t, out) := RenewItem(s, ttl, u, turn);
      if out == Done then u in t.store && t.store == s.store[u := t.store[u]] else t == s
  {}

  // ----- cached records against stored ones -----------------------------------------------

  /** Cached records are those of stored credentials; exactly those, if `exact`. */
  ghost predicate Agree(held: map<string, Record>, store: map<string, Record>, exact: bool) {
    forall u :: u in held ==> u in store && held[u].id == store[u].id && (exact ==> held[u] == store[u])
  }

  lemma AgreeNarrower(held: map<string, Record>, before: map<string, Record>, store: map<string, Record>, exact: bool)
    requires Narrower(held, before) && Agree(before, store, exact)
    ensures Agree(held, store, exact)
  {}

  /** One record stored and cached, or stored and not cached. */
  lemma AgreeUpdate(
    held: map<string, Record>, before: map<string, Record>, store: map<string, Record>, exact: bool, u: string,
    r: Record)
    requires Narrower(held - {u}, before) && Agree(before, store, exact)
    requires u in held ==> held[u] == r
    ensures Agree(held, store[u := r], exact)
  {
    assert forall v :: v in held && v != u ==> v in held - {u};
  }

  /** A cached record written in place: it is ahead of the stored one, unless nothing changed. */
  lemma AgreeAhead(
    before: map<string, Record>, store: map<string, Record>, exact: bool, u: string, ttl: int, now: int)
    requires Agree(before, store, exact) && u in before
    ensures var renewed := Renewed(store[u], ttl, now);
      && Agree(before[u := renewed], store, exact && renewed == store[u])
      && Turned(before, before[u := renewed], store, u, ttl, now, Refused(PutFailed))
  {}

  /** And stored, and cached again. */
  lemma AgreeStored(
    before: map<string, Record>, after: map<string, Record>, store: map<string, Record>, exact: bool, u: string,
    ttl: int, now: int)
    requires Agree(before, store, exact) && UnderOwnName(store) && u in before
    requires var renewed := Renewed(store[u], ttl, now);
      Narrower(after - {u}, before[u := renewed]) && u in after && after[u] == renewed
    ensures var renewed := Renewed(store[u], ttl, now);
      && UnderOwnName(store[u := renewed])
      && Agree(after, store[u := renewed], exact)
      && Turned(before, after, store[u := renewed], u, ttl, now, Done)
  {
    var renewed := Renewed(store[u], ttl, now);
    assert forall v :: v in after - {u} ==> v in before[u := renewed] - {u};
    AgreeUpdate(after, before, store, exact, u, renewed);
  }

  lemma AgreeRemove(
    held: map<string, Record>, before: map<string, Record>, store: map<string, Record>, exact: bool, u: string)
    requires Narrower(held, before - {u}) && Agree(before, store, exact)
    ensures Agree(held, store - {u}, exact)
  {}

  /** What looking for `u` does to them: it may be newly read from the store, and others may go. */
  ghost predicate Looked(
    before: map<string, Record>, after: map<string, Record>, store: map<string, Record>, u: string)
  {
    && Narrower(after - {u}, before)
    && (u in after ==> (u in before && after[u] == before[u]) || (u in store && after[u] == store[u]))
  }

  /**
   What a renewal of `u` does to the cached records. Written and stored, the cached one is the
   stored one; written and not stored, it is ahead; otherwise it is as before, if it is cached at
   all, or was just read from the store.
   */
  ghost predicate Turned(
    before: map<string, Record>, after: map<string, Record>, store: map<string, Record>, u: string, ttl: int,
    now: int, out: Outcome)
  {
    if out == Done then Narrower(after - {u}, before) && u in after && u in store && after[u] == store[u]
    else if out == Refused(PutFailed) then
      Narrower(after - {u}, before) && u in after && u in store && after[u] == Renewed(store[u], ttl, now)
    else Looked(before, after, store, u)
  }

  lemma TurnedAfterLook(
    before: map<string, Record>, looked: map<string, Record>, after: map<string, Record>,
    old_: map<string, Record>, store: map<string, Record>, u: string, ttl: int, now: int, out: Outcome)
    requires Looked(before, looked, old_, u) && Turned(looked, after, store, u, ttl, now, out)
    requires out == Done || store == old_
    ensures Turned(before, after, store, u, ttl, now, out)
  {
    assert forall v :: v in after - {u} ==> v in looked - {u};
  }

  /** A cache that was the store is so after a renewal, exactly unless a new record was written and not stored. */
  lemma CoherenceAfterTurn(
    before: map<string, Record>, after: map<string, Record>, old_: map<string, Record>, store: map<string, Record>,
    u: string, ttl: int, now: int, out: Outcome)
    requires Agree(before, old_, true) && Turned(before, after, store, u, ttl, now, out)
    requires if out == Done then u in store && store == old_[u := store[u]] else store == old_
    ensures Agree(after, store, true) <==> (out == Refused(PutFailed) ==> store[u] == Renewed(store[u], ttl, now))
  {
    assert forall v :: v in after && v != u ==> v in after - {u};
  }

  /** Every cached record is the stored one, or what a reported renewal that was not stored made of it. */
  ghost predicate AheadAsReported(
    held: map<string, Record>, store: map<string, Record>, ttl: int, results: seq<Result>, turns: seq<Turn>)
    requires |results| <= |turns|
  {
    forall v :: v in held ==> v in store && (held[v] == store[v] || LostFor(held[v], store[v], v, ttl, results, turns))
  }

  /** Some turn wrote this into the cached record of `v`, and failed to store it. */
  ghost predicate LostFor(
    cached: Record, stored: Record, v: string, ttl: int, results: seq<Result>, turns: seq<Turn>)
    requires |results| <= |turns|
  {
    exists i :: 0 <= i < |results| && results[i] == Result(v, Refused(PutFailed)) &&
      cached == Renewed(stored, ttl, turns[i].now)
  }

  lemma AheadAfterTurn(
    before: map<string, Record>, after: map<string, Record>, old_: map<string, Record>, store: map<string, Record>,
    ttl: int, results: seq<Result>, turns: seq<Turn>, u: string, out: Outcome)
    requires |results| < |turns| && AheadAsReported(before, old_, ttl, results, turns)
    requires Turned(before, after, store, u, ttl, turns[|results|].now, out)
    requires if out == Done then u in store && store == old_[u := store[u]] else store == old_
    ensures AheadAsReported(after, store, ttl, results + [Result(u, out)], turns)
  {
    var more := results + [Result(u, out)];
    forall v | v in after
      ensures v in store && (after[v] == store[v] || LostFor(after[v], store[v], v, ttl, more, turns))
    {
      if v == u && out == Refused(PutFailed) {
        assert more[|results|] == Result(u, out);
      } else if v != u || (v in before && after[v] == before[v] && out != Done) {
        assert v != u ==> v in after - {u};
        if after[v] != store[v] {
          var i :| 0 <= i < |results| && results[i] == Result(v, Refused(PutFailed)) &&
            before[v] == Renewed(old_[v], ttl, turns[i].now);
          assert more[i] == results[i];
        }
      }
    }
  }

  class Backend {
    var store: map<string, Record>
    var users: set<string>
    var roles: map<string, Role>
    var cache: CredentialCache
    /** History: since the cache was last empty no renewal has changed a credential and then failed to store it. */
    ghost var intact: bool

    constructor (roles: map<string, Role>, ttl: int, maxSize: int)
      ensures Valid() && intact && fresh(cache) && cache.objects == {}
      ensures View() == State(map[], {}) && this.roles == roles
      ensures cache.entries == map[] && cache.ttl == ttl && cache.maxSize == maxSize
    {
      store, users, this.roles, intact := map[], {}, roles, true;
      cache := new CredentialCache(ttl, maxSize);
    }

    ghost function View(): State
      reads this
    {
      State(store, users)
    }

    /**
     Cached and stored records never disagree on anything but the two times a renewal writes, and
     not on those either while the history is intact.
     */
    ghost predicate Valid()
      reads this, cache, cache.objects
    {
      cache.Valid() && UnderOwnName(store) && Agree(cache.Held(), store, intact)
    }

    /** Every cached credential is the stored one. */
    ghost predicate Coherent()
      reads this, cache, cache.objects
    {
      cache.Valid() && Agree(cache.Held(), store, true)
    }

    lemma IntactIsCoherent()
      requires Valid() && intact
      ensures Coherent()
    {}

    /** No two usernames share a credential object, so a renewal writes to one cached credential only. */
    lemma NeverShared(u: string, v: string)
      requires Valid() && u in cache.entries && v in cache.entries && u != v
      ensures cache.entries[u].credential != cache.entries[v].credential
    {
      assert cache.Held()[u].id.username == u && cache.Held()[v].id.username == v;
    }

    /** Puts the object itself into the cache. */
    method CacheCredential(u: string, cred: Credential, now: int)
      requires cache.Valid() && now != ZERO_TIME
      modifies cache
      ensures cache.Valid() && cache.objects == old(cache.objects) + {cred}
      ensures Narrower(cache.Held() - {u}, old(cache.Held()))
      ensures u in cache.entries && cache.entries[u].credential == cred
      ensures OnlyNew(old(cache.entries), cache.entries, u, true)
    {
      cache.Set(u, cred, now);
    }

    /** The cached record if there is a live one, the stored one otherwise; the latter is then cached. */
    method GetCachedCredential(u: string, now: int, getOk: bool) returns (ok: bool, cred: Credential?)
      requires Valid() && now != ZERO_TIME
      modifies cache
      ensures Valid()
      ensures fresh(cache.objects - old(cache.objects))
      ensures ok == (old(cache.Fresh(u, now)) || getOk)
      ensures ok ==> (cred != null <==> u in store)
      ensures cred != null ==> ok && u in cache.entries && cache.entries[u].credential == cred
      ensures old(cache.Fresh(u, now)) ==> cred == old(cache.entries[u].credential)
      ensures Looked(old(cache.Held()), cache.Held(), store, u)
      ensures OnlyNew(old(cache.entries), cache.entries, u, ok)
    {
      cred := cache.Get(u, now);
      AgreeNarrower(cache.Held(), old(cache.Held()), store, intact);
      if cred != null {
        return true, cred;
      }
      if !getOk {
        return false, null;
      }
      if u !in store {
        return true, null;
      }
      cred := LoadCredential(u, now);
      return true, cred;
    }

    /** Decodes the stored record and caches it. */
    method LoadCredential(u: string, now: int) returns (cred: Credential)
      requires Valid() && now != ZERO_TIME && u in store
      modifies cache
      ensures Valid() && fresh(cred) && cache.objects == old(cache.objects) + {cred}
      ensures u in cache.entries && cache.entries[u].credential == cred
      ensures Looked(old(cache.Held()), cache.Held(), store, u)
      ensures OnlyNew(old(cache.entries), cache.entries, u, true)
    {
      cred := new Credential(store[u]);
      CacheCredential(u, cred, now);
      AgreeUpdate(cache.Held(), old(cache.Held()), store, intact, u, store[u]);
      assert store[u := store[u]] == store;
    }

    /** A fresh credential into storage, then into the cache. */
    method Remember(u: string, cred: Credential, now: int)
      requires Valid() && now != ZERO_TIME && cred.id.username == u && cred !in cache.objects
      modifies this`store, cache
      ensures Valid() && cache.objects == old(cache.objects) + {cred}
      ensures store == old(store)[u := cred.Snapshot()]
      ensures u in cache.entries && cache.entries[u].credential == cred
      ensures OnlyNew(old(cache.entries), cache.entries, u, true)
    {
      store := store[u := cred.Snapshot()];
      CacheCredential(u, cred, now);
      AgreeUpdate(cache.Held(), old(cache.Held()), old(store), intact, u, cred.Snapshot());
    }

    // ----- creation -----------------------------------------------------------------------

    /** Counts the role's records over a listing. */
    method CountCredentialsByRole(order: seq<string>, roleName: string) returns (count: nat)
      requires Lists(order, store)
      ensures count == |Holders(store, roleName)|
    {
      count := 0;
      ghost var seen: set<string> := {};
      for i := 0 to |order|
        invariant seen == set u | u in order[..i] && store[u].id.roleName == roleName
        invariant count == |seen|
      {
        assert order[..i + 1] == order[..i] + [order[i]];
        if store[order[i]].id.roleName == roleName {
          assert order[i] !in order[..i];
          seen := seen + {order[i]};
          count := count + 1;
        }
      }
      assert order[..|order|] == order;
      assert seen == Holders(store, roleName);
    }

    /** CREATE USER, creation statement or roll-back, then the record into storage and cache. */
    method CreateUser(roleName: string, role: Role, region: string, d: Draw, now: int) returns (out: Outcome)
      requires Valid() && now != ZERO_TIME
      modifies this`store, this`users, cache
      ensures Valid() && fresh(cache.objects - old(cache.objects))
      ensures (View(), out) == CreateOne(old(View()), roleName, role, region, d)
      ensures out == Done ==> d.username in cache.entries
      ensures OnlyNew(old(cache.entries), cache.entries, d.username, out == Done)
    {
      if !d.env.nameOk {
        return Refused(InvalidName);
      }
      if !d.env.createOk {
        return Refused(CreateFailed);
      }
      var u := d.username;
      users := users + {u};
      if !d.env.statementOk {
        if d.env.dropOk {
          users := users - {u};
          assert users == old(users) - {u};
        }
        return Refused(StatementFailed);
      }
      var cred := new Credential(NewRecord(roleName, role, region, d));
      if !d.env.putOk {
        return Refused(PutFailed);
      }
      Remember(u, cred, now);
      return Done;
    }

    method CreateCredential(roleName: string, region: string, order: seq<string>, d: Draw, now: int)
      returns (out: Outcome)
      requires Valid() && now != ZERO_TIME && Lists(order, store)
      modifies this`store, this`users, cache
      ensures Valid() && fresh(cache.objects - old(cache.objects))
      ensures (View(), out) == Create(old(View()), roles, roleName, region, d)
      ensures out == Done ==> d.username in cache.entries
      ensures OnlyNew(old(cache.entries), cache.entries, d.username, out == Done)
    {
      var refusal, _ := CheckCreation(roleName, order, d.env);
      if refusal.Some? {
        return Refused(refusal.value);
      }
      out := CreateUser(roleName, roles[roleName], region, d, now);
    }

    /** What a role's quota leaves, if it has one. */
    ghost function Remaining(roleName: string): Option<int>
      reads this
      requires roleName in roles
    {
      var most := roles[roleName].maxCredentials;
      if most > 0 then Some(most - |Holders(store, roleName)|) else None
    }

    /** The checks before any name is drawn, and how many credentials the quota leaves, if there is one. */
    method CheckCreation(roleName: string, order: seq<string>, env: Env)
      returns (refusal: Option<Error>, remaining: Option<int>)
      requires Lists(order, store)
      ensures refusal == CreateRefusal(View(), roles, roleName, env)
      ensures refusal == None ==> remaining == Remaining(roleName)
    {
      remaining := None;
      if !env.roleOk {
        return Some(RoleFailed), None;
      }
      if roleName !in roles {
        return Some(RoleMissing), None;
      }
      var role := roles[roleName];
      if role.maxCredentials > 0 {
        if !env.countOk {
          return Some(CountFailed), None;
        }
        var count := CountCredentialsByRole(order, roleName);
        if count >= role.maxCredentials {
          return Some(QuotaExceeded), None;
        }
        remaining := Some(role.maxCredentials - count);
      }
      if !env.configOk {
        return Some(ConfigFailed), None;
      }
      if !env.preflightOk {
        return Some(Preflight), None;
      }
      return None, remaining;
    }

    method CreateCredentialBatch(
      roleName: string, region: string, requested: int, order: seq<string>, env: Env, draws: seq<Draw>, now: int)
      returns (out: Outcome)
      requires Valid() && now != ZERO_TIME && Lists(order, store) && |draws| >= MAX_BATCH
      modifies this`store, this`users, cache
      ensures Valid() && fresh(cache.objects - old(cache.objects))
      ensures (View(), out) == CreateBatch(old(View()), roles, roleName, region, requested, env, draws)
    {
      var count := requested;
      if count <= 0 {
        count := 1;
      }
      if count > MAX_BATCH {
        count := MAX_BATCH;
      }
      var refusal, remaining := CheckCreation(roleName, order, env);
      if refusal.Some? {
        return Refused(refusal.value);
      }
      if remaining.Some? && count > remaining.value {
        count := remaining.value;
      }
      assert count == BatchSize(View(), roleName, roles[roleName], requested);
      out := CreateEach(roleName, roles[roleName], region, draws, count, now);
    }

    /** The loop of a batch; it ends at the first refusal. */
    method CreateEach(roleName: string, role: Role, region: string, draws: seq<Draw>, count: nat, now: int)
      returns (out: Outcome)
      requires Valid() && now != ZERO_TIME && count <= |draws|
      modifies this`store, this`users, cache
      ensures Valid() && fresh(cache.objects - old(cache.objects))
      ensures (View(), out) == CreateFirst(old(View()), roleName, role, region, draws, count)
    {
      out := Done;
      for i := 0 to count
        invariant Valid() && fresh(cache.objects - old(cache.objects))
        invariant out == Done
        invariant (View(), out) == CreateFirst(old(View()), roleName, role, region, draws, i)
      {
        ghost var known := cache.objects;
        out := CreateUser(roleName, role, region, draws[i], now);
        assert forall o :: o in cache.objects - old(cache.objects) ==>
          o in cache.objects - known || o in known - old(cache.objects);
        if out.Refused? {
          RefusalEnds(old(View()), roleName, role, region, draws, i + 1, count);
          return;
        }
      }
    }

    // ----- renewal and extension ----------------------------------------------------------

    /** The lifetime a renewal of `u` alone grants, where there is a record and its role. */
    function RenewalTTL(u: string): int
      reads this
    {
      if u in store && store[u].id.roleName in roles then roles[store[u].id.roleName].defaultTTL else 0
    }

    /** The record a renewal makes of the stored one. */
    function Ahead(u: string, now: int): Record
      reads this
      requires u in store
    {
      Renewed(store[u], RenewalTTL(u), now)
    }

    /**
     Writes the renewal into the shared object before it is stored. When the store then fails, the
     cache is ahead of storage unless the renewal changed nothing.
     */
    method RenewCredential(u: string, now: int, getOk: bool, env: Env) returns (out: Outcome)
      requires Valid() && now != ZERO_TIME
      modifies this`store, this`intact, cache, cache.objects
      ensures Valid() && fresh(cache.objects - old(cache.objects))
      ensures (View(), out)
              == Renew(old(View()), roles, u, now, getOk || old(cache.Fresh(u, now)), env)
      ensures out != Refused(PutFailed) ==> intact == old(intact)
      ensures Turned(old(cache.Held()), cache.Held(), store, u, RenewalTTL(u), now, out)
      ensures old(Coherent()) ==> (Coherent() <==> (out == Refused(PutFailed) ==> store[u] == Ahead(u, now)))
    {
      out := RenewLoaded(u, now, getOk, env);
      if Agree(old(cache.Held()), old(store), true) {
        CoherenceAfterTurn(old(cache.Held()), cache.Held(), old(store), store, u, RenewalTTL(u), now, out);
      }
    }

    method RenewLoaded(u: string, now: int, getOk: bool, env: Env) returns (out: Outcome)
      requires Valid() && now != ZERO_TIME
      modifies this`store, this`intact, cache, cache.objects
      ensures Valid() && fresh(cache.objects - old(cache.objects))
      ensures (View(), out)
              == Renew(old(View()), roles, u, now, getOk || old(cache.Fresh(u, now)), env)
      ensures out != Refused(PutFailed) ==> intact == old(intact)
      ensures Turned(old(cache.Held()), cache.Held(), store, u, RenewalTTL(u), now, out)
    {
      if !env.nameOk {
        return Refused(InvalidName);
      }
      var ok, cred := GetCachedCredential(u, now, getOk);
      if !ok {
        return Refused(LoadFailed);
      }
      if cred == null {
        return Refused(NotFound);
      }
      ghost var looked := cache.Held();
      out := RenewFound(u, cred, now, env);
      RenewStores(old(View()), roles, u, now, true, env);
      TurnedAfterLook(old(cache.Held()), looked, cache.Held(), old(store), store, u, RenewalTTL(u), now, out);
    }

    method RenewFound(u: string, cred: Credential, now: int, env: Env) returns (out: Outcome)
      requires Valid() && now != ZERO_TIME && env.nameOk
      requires u in cache.entries && cache.entries[u].credential == cred
      modifies this`store, this`intact, cache, cred
      ensures Valid() && cache.objects == old(cache.objects)
      ensures (View(), out) == Renew(old(View()), roles, u, now, true, env)
      ensures out != Refused(PutFailed) ==> intact == old(intact)
      ensures Turned(old(cache.Held()), cache.Held(), store, u, RenewalTTL(u), now, out)
    {
      assert cache.Held()[u].id == cred.id;
      var refusal := CheckRenewal(cred, env);
      if refusal.Some? {
        return Refused(refusal.value);
      }
      out := StoreRenewal(u, cred, roles[cred.id.roleName].defaultTTL, now, env.putOk);
      assert store[u].id == old(store)[u].id;
    }

    /** The checks and calls of a renewal between loading the credential and changing it. */
    method CheckRenewal(cred: Credential, env: Env) returns (refusal: Option<Error>)
      ensures refusal ==
        if !env.roleOk then Some(RoleFailed)
        else if cred.id.roleName !in roles then Some(RoleMissing)
        else if !env.configOk then Some(ConfigFailed)
        else if !env.preflightOk then Some(Preflight)
        else if !env.connectOk then Some(ConnectFailed)
        else if !env.alterOk then Some(AlterFailed)
        else if !env.statementOk then Some(StatementFailed)
        else None
    {
      if !env.roleOk {
        return Some(RoleFailed);
      }
      if cred.id.roleName !in roles {
        return Some(RoleMissing);
      }
      if !env.configOk {
        return Some(ConfigFailed);
      }
      if !env.preflightOk {
        return Some(Preflight);
      }
      if !env.connectOk {
        return Some(ConnectFailed);
      }
      if !env.alterOk {
        return Some(AlterFailed);
      }
      if !env.statementOk {
        return Some(StatementFailed);
      }
      return None;
    }

    /** The tail of both renewals: mutate the shared object, store it, cache it. */
    method StoreRenewal(u: string, cred: Credential, ttl: int, now: int, putOk: bool) returns (out: Outcome)
      requires Valid() && now != ZERO_TIME
      requires u in cache.entries && cache.entries[u].credential == cred
      modifies this`store, this`intact, cache, cred
      ensures Valid() && cache.objects == old(cache.objects)
      ensures out == if putOk then Done else Refused(PutFailed)
      ensures store == if putOk then old(store)[u := Renewed(old(store[u]), ttl, now)] else old(store)
      ensures u in cache.entries && cache.entries[u].credential == cred
      ensures cred.Snapshot() == Renewed(old(store[u]), ttl, now)
      ensures intact == (old(intact) && (putOk || cred.Snapshot() == store[u]))
      ensures OnlyNew(old(cache.entries), cache.entries, u, true)
      ensures Turned(old(cache.Held()), cache.Held(), store, u, ttl, now, out)
    {
      ghost var before, stored := cache.Held(), store;
      Mutate(u, cred, ttl, now);
      AgreeAhead(before, stored, intact, u, ttl, now);
      if !putOk {
        intact := intact && cred.Snapshot() == store[u];
        return Refused(PutFailed);
      }
      StoreWritten(u, cred, ttl, now, before);
      return Done;
    }

    /** The tail of the tail: the object as written is stored, and cached again. */
    method StoreWritten(u: string, cred: Credential, ttl: int, now: int, ghost before: map<string, Record>)
      requires now != ZERO_TIME && cache.Valid() && UnderOwnName(store) && Agree(before, store, intact) && u in before
      requires cred.Snapshot() == Renewed(store[u], ttl, now) && cache.Held() == before[u := cred.Snapshot()]
      requires u in cache.entries && cache.entries[u].credential == cred
      modifies this`store, cache
      ensures Valid() && cache.objects == old(cache.objects)
      ensures store == old(store)[u := cred.Snapshot()]
      ensures u in cache.entries && cache.entries[u].credential == cred
      ensures OnlyNew(old(cache.entries), cache.entries, u, true)
      ensures Turned(before, cache.Held(), store, u, ttl, now, Done)
    {
      ghost var stored := store;
      store := store[u := cred.Snapshot()];
      CacheCredential(u, cred, now);
      AgreeStored(before, cache.Held(), stored, intact, u, ttl, now);
    }

    /** The in-place write, which changes one cached record. */
    method Mutate(u: string, cred: Credential, ttl: int, now: int)
      requires Valid() && u in cache.entries && cache.entries[u].credential == cred
      modifies cred
      ensures cache.Valid() && cache.Held() == old(cache.Held())[u := Renewed(store[u], ttl, now)]
      ensures cred.Snapshot() == Renewed(store[u], ttl, now)
    {
      assert cache.Held()[u] == cred.Snapshot();
      forall v | v in cache.entries && v != u ensures cache.entries[v].credential != cred {
        NeverShared(u, v);
      }
      cred.lastRenewed := now;
      cred.expiresAt := now + ttl;
    }

    /** The listed usernames with a readable record of the role, up to a limit. */
    method ListSelected(order: seq<string>, unread: set<string>, role: Option<string>, limit: nat)
      returns (keys: seq<string>)
      requires Lists(order, store)
      ensures keys == Select(store, order, unread, role, limit)
    {
      keys := [];
      for i := 0 to |order|
        invariant keys == Select(store, order[..i], unread, role, limit)
      {
        if |keys| >= limit {
          SelectFull(store, order, unread, role, limit, i);
          return;
        }
        var u := order[i];
        assert order[..i + 1][..i] == order[..i];
        if u !in unread && (role == None || store[u].id.roleName == role.value) {
          keys := keys + [u];
        }
      }
      assert order[..|order|] == order;
    }

    /** The usernames a batch renewal works on. */
    method ChooseTargets(role: Role, roleName: string, requested: int, given: seq<string>, order: seq<string>,
                         unread: set<string>) returns (names: seq<string>)
      requires Lists(order, store)
      ensures names == RenewTargets(View(), role, roleName, requested, given, order, unread)
    {
      var count := requested;
      if role.batchSize > 0 && count <= 0 {
        count := role.batchSize;
      }
      if count <= 0 {
        count := 1;
      }
      if count > MAX_BATCH {
        count := MAX_BATCH;
      }
      if |given| > 0 {
        names := given;
        if |names| > count {
          names := names[..count];
        }
      } else {
        var keys := ListSelected(order, unread, Some(roleName), count);
        SelectPicks(store, order, unread, Some(roleName), count);
        names := Usernames(store, keys);
      }
    }

    method RenewCredentialBatch(roleName: string, requested: int, given: seq<string>, order: seq<string>,
                                unread: set<string>, env: Env, turns: seq<Turn>)
      returns (answer: Answer, renewed: nat, failed: nat, ghost taken: seq<Turn>)
      requires Valid() && Lists(order, store) && |turns| >= MAX_BATCH
      requires forall i :: 0 <= i < |turns| ==> turns[i].now != ZERO_TIME
      modifies this`store, this`intact, cache, cache.objects
      ensures Valid() && fresh(cache.objects - old(cache.objects))
      ensures var names := BatchTargets(old(View()), roles, roleName, requested, given, order, unread);
        SparedReads(old(cache.entries), names, turns, taken, if answer.Lines? then |names| else 0)
      ensures (View(), answer) == RenewBatch(old(View()), roles, roleName, requested, given, order, unread, env, taken)
      ensures answer.Lines? ==> renewed == Successes(answer.results) && failed == Failures(answer.results)
      ensures old(Coherent()) && answer.Lines? ==> BatchAhead(roleName, answer.results, turns)
      ensures old(intact) && (forall i :: 0 <= i < |turns| ==> turns[i].env.putOk) ==> intact
    {
      taken := turns;
      var refusal, names := PrepareBatch(roleName, requested, given, order, unread, env);
      if refusal.Some? {
        return Failed(refusal.value), 0, 0, taken;
      }
      var results;
      results, renewed, failed, taken := RenewAll(roleName, names, turns);
      answer := Lines(results);
    }

    /** The loop of a batch renewal for a role. */
    method RenewAll(roleName: string, names: seq<string>, turns: seq<Turn>)
      returns (results: seq<Result>, renewed: nat, failed: nat, ghost taken: seq<Turn>)
      requires Valid() && |names| <= |turns| && roleName in roles
      requires forall i :: 0 <= i < |turns| ==> turns[i].now != ZERO_TIME
      modifies this`store, this`intact, cache, cache.objects
      ensures Valid() && fresh(cache.objects - old(cache.objects))
      ensures SparedReads(old(cache.entries), names, turns, taken, |names|)
      ensures (View(), results) == RenewFirst(old(View()), roles[roleName].defaultTTL, names, taken, |names|)
      ensures renewed == Successes(results) && failed == Failures(results)
      ensures old(Coherent()) ==> BatchAhead(roleName, results, turns)
      ensures old(intact) && (forall i :: 0 <= i < |turns| ==> turns[i].env.putOk) ==> intact
    {
      results, renewed, failed, taken := RenewEach(names, roles[roleName].defaultTTL, turns, Coherent());
    }

    /** The cache after a batch renewal for a role is ahead of the store only where a write was lost. */
    ghost predicate BatchAhead(roleName: string, results: seq<Result>, turns: seq<Turn>)
      reads this, cache, cache.objects
      requires cache.Valid()
    {
      && roleName in roles && |results| <= |turns|
      && AheadAsReported(cache.Held(), store, roles[roleName].defaultTTL, results, turns)
    }

    /** The checks of a batch renewal, and the usernames it works on. */
    method PrepareBatch(
      roleName: string, requested: int, given: seq<string>, order: seq<string>, unread: set<string>, env: Env)
      returns (refusal: Option<Error>, names: seq<string>)
      requires Lists(order, store)
      ensures var targets := BatchTargets(View(), roles, roleName, requested, given, order, unread);
        refusal == BatchRefusal(roles, roleName, given, targets, env)
      ensures refusal == None ==> names == BatchTargets(View(), roles, roleName, requested, given, order, unread)
    {
      names := [];
      if !env.roleOk {
        return Some(RoleFailed), names;
      }
      if roleName !in roles {
        return Some(RoleMissing), names;
      }
      if !env.configOk {
        return Some(ConfigFailed), names;
      }
      if |given| > 0 && !env.nameOk {
        return Some(InvalidName), names;
      }
      if |given| == 0 && !env.countOk {
        return Some(CountFailed), names;
      }
      names := ChooseTargets(roles[roleName], roleName, requested, given, order, unread);
      if |names| == 0 {
        return Some(NothingToRenew), names;
      }
      if !env.connectOk {
        return Some(ConnectFailed), names;
      }
      if !env.preflightOk {
        return Some(Preflight), names;
      }
      return None, names;
    }

    method RenewEach(names: seq<string>, ttl: int, turns: seq<Turn>, ghost coherent: bool)
      returns (results: seq<Result>, renewed: nat, failed: nat, ghost taken: seq<Turn>)
      requires Valid() && |names| <= |turns|
      requires forall i :: 0 <= i < |turns| ==> turns[i].now != ZERO_TIME
      requires coherent ==> AheadAsReported(cache.Held(), store, ttl, [], turns)
      modifies this`store, this`intact, cache, cache.objects
      ensures Valid() && fresh(cache.objects - old(cache.objects))
      ensures SparedReads(old(cache.entries), names, turns, taken, |names|)
      ensures (View(), results) == RenewFirst(old(View()), ttl, names, taken, |names|)
      ensures renewed == Successes(results) && failed == Failures(results)
      ensures old(intact) && (forall i :: 0 <= i < |turns| ==> turns[i].env.putOk) ==> intact
      ensures |results| == |names|
      ensures coherent ==> AheadAsReported(cache.Held(), store, ttl, results, turns)
    {
      taken, results := turns, [];
      renewed, failed := 0, 0;
      ghost var start, first := View(), cache.entries;
      NoneSpared(first, names, turns);
      ghost var kept := intact && forall i :: 0 <= i < |turns| ==> turns[i].env.putOk;
      for i := 0 to |names|
        invariant Valid() && fresh(cache.objects - old(cache.objects))
        invariant |results| == i && |taken| == |turns|
        invariant taken in Sparings(first, names, turns, i) && Traced(first, cache.entries, names, taken, i)
        invariant (View(), results) == RenewFirst(start, ttl, names, taken, i)
        invariant renewed == Successes(results) && failed == Failures(results)
        invariant kept ==> intact
        invariant coherent ==> AheadAsReported(cache.Held(), store, ttl, results, turns)
      {
        ghost var known := cache.objects;
        var out;
        out, taken := RenewNext(names, ttl, turns, i, results, start, first, taken, coherent);
        assert forall o :: o in cache.objects - old(cache.objects) ==>
          o in cache.objects - known || o in known - old(cache.objects);
        CountStep(results, Result(names[i], out));
        results := results + [Result(names[i], out)];
        if out == Done {
          renewed := renewed + 1;
        } else {
          failed := failed + 1;
        }
      }
    }

    /** One username of a batch renewal, behind the results so far. */
    method RenewNext(
      names: seq<string>, ttl: int, turns: seq<Turn>, i: nat, ghost soFar: seq<Result>, ghost start: State,
      ghost first: map<string, CacheEntry>, ghost before: seq<Turn>, ghost coherent: bool)
      returns (out: Outcome, ghost taken: seq<Turn>)
      requires Valid() && i < |names| <= |turns| && turns[i].now != ZERO_TIME
      requires |soFar| == i && |before| == |turns|
      requires before in Sparings(first, names, turns, i) && Traced(first, cache.entries, names, before, i)
      requires (View(), soFar) == RenewFirst(start, ttl, names, before, i)
      requires coherent ==> AheadAsReported(cache.Held(), store, ttl, soFar, turns)
      modifies this`store, this`intact, cache, cache.objects
      ensures Valid() && fresh(cache.objects - old(cache.objects))
      ensures |taken| == |turns|
      ensures taken in Sparings(first, names, turns, i + 1) && Traced(first, cache.entries, names, taken, i + 1)
      ensures (View(), soFar + [Result(names[i], out)]) == RenewFirst(start, ttl, names, taken, i + 1)
      ensures old(intact) && turns[i].env.putOk ==> intact
      ensures coherent ==> AheadAsReported(cache.Held(), store, ttl, soFar + [Result(names[i], out)], turns)
    {
      ghost var held, state, entries := cache.Held(), View(), cache.entries;
      ghost var turn := turns[i].(getOk := turns[i].getOk || cache.Fresh(names[i], turns[i].now));
      out := RenewTurn(names[i], ttl, turns[i]);
      RenewFirstStep(start, ttl, names, before, turn, i, state, soFar, View(), out);
      SparedOneMore(first, entries, cache.entries, names, turns, before, i, turn);
      taken := before[i := turn];
      if coherent {
        RenewItemStores(state, ttl, names[i], turn);
        AheadAfterTurn(held, cache.Held(), state.store, store, ttl, soFar, turns, names[i], out);
      }
    }

    /** The body of the batch-renewal loop. */
    method RenewTurn(u: string, ttl: int, turn: Turn) returns (out: Outcome)
      requires Valid() && turn.now != ZERO_TIME
      modifies this`store, this`intact, cache, cache.objects
      ensures Valid() && fresh(cache.objects - old(cache.objects))
      ensures (View(), out)
              == RenewItem(old(View()), ttl, u, turn.(getOk := turn.getOk || old(cache.Fresh(u, turn.now))))
      ensures old(intact) && turn.env.putOk ==> intact
      ensures OnlyNew(old(cache.entries), cache.entries, u, turn.getOk || old(cache.Fresh(u, turn.now)))
      ensures Turned(old(cache.Held()), cache.Held(), store, u, ttl, turn.now, out)
      ensures old(Coherent()) ==>
        (Coherent() <==> (out == Refused(PutFailed) ==> store[u] == Renewed(store[u], ttl, turn.now)))
    {
      out := RenewTurnLoaded(u, ttl, turn);
      if Agree(old(cache.Held()), old(store), true) {
        CoherenceAfterTurn(old(cache.Held()), cache.Held(), old(store), store, u, ttl, turn.now, out);
      }
    }

    method RenewTurnLoaded(u: string, ttl: int, turn: Turn) returns (out: Outcome)
      requires Valid() && turn.now != ZERO_TIME
      modifies this`store, this`intact, cache, cache.objects
      ensures Valid() && fresh(cache.objects - old(cache.objects))
      ensures (View(), out)
              == RenewItem(old(View()), ttl, u, turn.(getOk := turn.getOk || old(cache.Fresh(u, turn.now))))
      ensures old(intact) && turn.env.putOk ==> intact
      ensures OnlyNew(old(cache.entries), cache.entries, u, turn.getOk || old(cache.Fresh(u, turn.now)))
      ensures Turned(old(cache.Held()), cache.Held(), store, u, ttl, turn.now, out)
    {
      var ok, cred := GetCachedCredential(u, turn.now, turn.getOk);
      if !ok {
        return Refused(LoadFailed);
      }
      if cred == null {
        return Refused(NotFound);
      }
      ghost var looked := cache.Held();
      out := RenewTurnFound(u, cred, ttl, turn.now, turn.env);
      RenewItemStores(old(View()), ttl, u, turn.(getOk := true));
      TurnedAfterLook(old(cache.Held()), looked, cache.Held(), old(store), store, u, ttl, turn.now, out);
    }

    method RenewTurnFound(u: string, cred: Credential, ttl: int, now: int, env: Env) returns (out: Outcome)
      requires Valid() && now != ZERO_TIME
      requires u in cache.entries && cache.entries[u].credential == cred
      modifies this`store, this`intact, cache, cred
      ensures Valid() && cache.objects == old(cache.objects)
      ensures (View(), out) == RenewItem(old(View()), ttl, u, Turn(now, true, true, env))
      ensures old(intact) && env.putOk ==> intact
      ensures OnlyNew(old(cache.entries), cache.entries, u, true)
      ensures Turned(old(cache.Held()), cache.Held(), store, u, ttl, now, out)
    {
      assert u in cache.Held();
      if !env.preflightOk {
        return Refused(Preflight);
      }
      if !env.alterOk {
        return Refused(AlterFailed);
      }
      if !env.statementOk {
        return Refused(StatementFailed);
      }
      out := StoreRenewal(u, cred, ttl, now, env.putOk);
    }

    method FindByLease(order: seq<string>, leaseId: string) returns (found: Option<string>)
      requires Lists(order, store)
      ensures found == FindLease(store, order, leaseId)
      ensures found.Some? ==> found.value in store
    {
      for i := 0 to |order|
        invariant FindLease(store, order[i..], leaseId) == FindLease(store, order, leaseId)
      {
        if store[order[i]].id.leaseId == leaseId {
          return Some(order[i]);
        }
        assert order[i..][1..] == order[i + 1..];
      }
      return None;
    }

    /** The capping of an extension's lifetime, reassigning it as the source does. */
    method CapTTL(role: Role, cred: Credential, requested: int, clock: ExtendClock) returns (granted: Option<int>)
      ensures granted == GrantedTTL(role, cred.Snapshot(), requested, clock)
    {
      if role.maxTTL > 0 && clock.limit - cred.id.createdAt >= role.maxTTL {
        return None;
      }
      var ttl := role.defaultTTL;
      if requested > 0 {
        ttl := requested;
      }
      if role.maxTTL > 0 {
        var remaining := role.maxTTL - (clock.cap - cred.id.createdAt);
        if ttl > remaining {
          ttl := remaining;
        }
        if ttl <= 0 {
          return None;
        }
      }
      return Some(ttl);
    }

    /** Extends a decoded copy, so nothing shared is touched before the store succeeds. */
    method ExtendLease(leaseId: string, requested: int, order: seq<string>, clock: ExtendClock, env: Env, now: int)
      returns (out: Outcome)
      requires Valid() && now != ZERO_TIME && Lists(order, store)
      modifies this`store, cache
      ensures Valid() && fresh(cache.objects - old(cache.objects))
      ensures (View(), out) == Extend(old(View()), roles, order, leaseId, requested, clock, env)
    {
      if leaseId == "" {
        return Refused(LeaseRequired);
      }
      if !env.countOk {
        return Refused(LoadFailed);
      }
      var found := FindByLease(order, leaseId);
      if found == None {
        return Refused(NotFound);
      }
      out := ExtendRecord(found.value, requested, clock, env, now);
    }

    /** The extension of a record that was found. */
    method ExtendRecord(u: string, requested: int, clock: ExtendClock, env: Env, now: int) returns (out: Outcome)
      requires Valid() && now != ZERO_TIME && u in store
      modifies this`store, cache
      ensures Valid() && fresh(cache.objects - old(cache.objects))
      ensures var (r, verdict) := Extended(roles, old(store[u]), requested, clock, env);
        out == verdict && store == if out == Done then old(store)[u := r] else old(store)
    {
      if !env.roleOk {
        return Refused(RoleFailed);
      }
      var cred := new Credential(store[u]);
      if cred.id.roleName !in roles {
        return Refused(RoleMissing);
      }
      if clock.expiry > cred.expiresAt {
        return Refused(Expired);
      }
      var ttl := CapTTL(roles[cred.id.roleName], cred, requested, clock);
      if ttl == None {
        return Refused(MaxTTLReached);
      }
      cred.lastRenewed := clock.renewed;
      cred.expiresAt := clock.end + ttl.value;
      if !env.putOk {
        return Refused(PutFailed);
      }
      Remember(u, cred, now);
      return Done;
    }

    // ----- revocation ---------------------------------------------------------------------

    /** Connect, revocation statement, DROP USER, delete of the record and of the cache entry. */
    method DropUser(u: string, env: Env) returns (out: Outcome)
      requires Valid()
      modifies this`store, this`users, cache
      ensures Valid() && cache.objects == old(cache.objects)
      ensures (View(), out) == DropAndForget(old(View()), u, env)
      ensures cache.entries == if out == Done then old(cache.entries) - {u} else old(cache.entries)
      ensures cache.entries == Surviving(old(cache.entries), store) && store.Keys <= old(store.Keys)
    {
      assert cache.Held().Keys == cache.entries.Keys;
      SurvivingOne(cache.entries, store, u);
      if !env.connectOk {
        return Refused(ConnectFailed);
      }
      if !env.statementOk {
        return Refused(StatementFailed);
      }
      if !env.dropOk {
        return Refused(DropFailed);
      }
      users := users - {u};
      if !env.deleteOk {
        return Refused(DeleteFailed);
      }
      store := store - {u};
      cache.Delete(u);
      AgreeRemove(cache.Held(), old(cache.Held()), old(store), intact, u);
      return Done;
    }

    method RevokeCredential(u: string, now: int, getOk: bool, env: Env) returns (out: Outcome)
      requires Valid() && now != ZERO_TIME
      modifies this`store, this`users, cache
      ensures Valid() && fresh(cache.objects - old(cache.objects))
      ensures (View(), out) == Revoke(old(View()), u, getOk || old(cache.Fresh(u, now)), env)
    {
      if !env.nameOk {
        return Refused(InvalidName);
      }
      var ok, cred := GetCachedCredential(u, now, getOk);
      if !ok {
        return Refused(LoadFailed);
      }
      if cred == null {
        return Refused(NotFound);
      }
      if !env.roleOk {
        return Refused(RoleFailed);
      }
      if !env.configOk {
        return Refused(ConfigFailed);
      }
      out := DropUser(u, env);
    }

    /** The body of the loop over given usernames. */
    method RevokeNamed(u: string, turn: Turn) returns (out: Outcome)
      requires Valid() && turn.now != ZERO_TIME
      modifies this`store, this`users, cache
      ensures Valid() && fresh(cache.objects - old(cache.objects))
      ensures (View(), out)
              == RevokeItem(Named, old(View()), u, turn.(getOk := turn.getOk || old(cache.Fresh(u, turn.now))))
      ensures OnlyNew(old(cache.entries), cache.entries, u, turn.getOk || old(cache.Fresh(u, turn.now)))
    {
      if !turn.env.nameOk {
        return Refused(InvalidName);
      }
      var ok, cred := GetCachedCredential(u, turn.now, turn.getOk);
      if !ok {
        return Refused(LoadFailed);
      }
      if cred == null {
        return Refused(NotFound);
      }
      if !turn.roleOk {
        return Refused(RoleFailed);
      }
      out := DropUser(u, turn.env);
    }

    method BulkRevokeCredentials(names: seq<string>, env: Env, turns: seq<Turn>)
      returns (answer: Answer, revoked: nat, failed: nat, ghost taken: seq<Turn>)
      requires Valid() && |names| <= |turns|
      requires forall i :: 0 <= i < |turns| ==> turns[i].now != ZERO_TIME
      modifies this`store, this`users, cache
      ensures Valid() && fresh(cache.objects - old(cache.objects))
      ensures SparedReads(old(cache.entries), names, turns, taken, if answer.Lines? then |names| else 0)
      ensures (View(), answer) == BulkRevoke(old(View()), names, env, taken)
      ensures answer.Lines? ==> revoked == Successes(answer.results) && failed == Failures(answer.results)
    {
      taken := turns;
      revoked, failed := 0, 0;
      if |names| == 0 {
        return Failed(InvalidName), 0, 0, taken;
      }
      if !env.configOk {
        return Failed(ConfigFailed), 0, 0, taken;
      }
      var results;
      results, revoked, failed, taken := RevokeGiven(names, turns);
      return Lines(results), revoked, failed, taken;
    }

    /** The loop over given usernames. */
    method RevokeGiven(names: seq<string>, turns: seq<Turn>)
      returns (results: seq<Result>, revoked: nat, failed: nat, ghost taken: seq<Turn>)
      requires Valid() && |names| <= |turns|
      requires forall i :: 0 <= i < |turns| ==> turns[i].now != ZERO_TIME
      modifies this`store, this`users, cache
      ensures Valid() && fresh(cache.objects - old(cache.objects))
      ensures SparedReads(old(cache.entries), names, turns, taken, |names|)
      ensures (View(), results) == RevokeFirst(Named, old(View()), names, taken, |names|)
      ensures revoked == Successes(results) && failed == Failures(results)
    {
      taken, results, revoked, failed := turns, [], 0, 0;
      ghost var start, first := View(), cache.entries;
      NoneSpared(first, names, turns);
      for i := 0 to |names|
        invariant Valid() && fresh(cache.objects - old(cache.objects))
        invariant |results| == i && |taken| == |turns|
        invariant taken in Sparings(first, names, turns, i) && Traced(first, cache.entries, names, taken, i)
        invariant (View(), results) == RevokeFirst(Named, start, names, taken, i)
        invariant revoked == Successes(results) && failed == Failures(results)
      {
        ghost var known := cache.objects;
        var out;
        out, taken := RevokeNext(names, turns, i, results, start, first, taken);
        assert forall o :: o in cache.objects - old(cache.objects) ==>
          o in cache.objects - known || o in known - old(cache.objects);
        CountStep(results, Result(names[i], out));
        results := results + [Result(names[i], out)];
        if out == Done {
          revoked := revoked + 1;
        } else {
          failed := failed + 1;
        }
      }
    }

    /** One given username, behind the results so far. */
    method RevokeNext(
      names: seq<string>, turns: seq<Turn>, i: nat, ghost soFar: seq<Result>, ghost start: State,
      ghost first: map<string, CacheEntry>, ghost before: seq<Turn>)
      returns (out: Outcome, ghost taken: seq<Turn>)
      requires Valid() && i < |names| <= |turns| && turns[i].now != ZERO_TIME
      requires |soFar| == i && |before| == |turns|
      requires before in Sparings(first, names, turns, i) && Traced(first, cache.entries, names, before, i)
      requires (View(), soFar) == RevokeFirst(Named, start, names, before, i)
      modifies this`store, this`users, cache
      ensures Valid() && fresh(cache.objects - old(cache.objects))
      ensures |taken| == |turns|
      ensures taken in Sparings(first, names, turns, i + 1) && Traced(first, cache.entries, names, taken, i + 1)
      ensures (View(), soFar + [Result(names[i], out)]) == RevokeFirst(Named, start, names, taken, i + 1)
    {
      ghost var state, entries := View(), cache.entries;
      ghost var turn := turns[i].(getOk := turns[i].getOk || cache.Fresh(names[i], turns[i].now));
      out := RevokeNamed(names[i], turns[i]);
      RevokeFirstStep(Named, start, names, before, turn, i, state, soFar, View(), out);
      SparedOneMore(first, entries, cache.entries, names, turns, before, i, turn);
      taken := before[i := turn];
    }

    method RevokeCredentialsByRole(
      roleName: string, order: seq<string>, unread: set<string>, env: Env, turns: seq<Turn>)
      returns (answer: Answer, revoked: nat, failed: nat)
      requires Valid() && Lists(order, store) && |order| <= |turns|
      modifies this`store, this`users, cache
      ensures Valid() && cache.objects == old(cache.objects)
      ensures (View(), answer) == RevokeByRole(old(View()), roles, roleName, order, unread, env, turns)
      ensures cache.entries == Surviving(old(cache.entries), store)
      ensures answer.Lines? ==> revoked == Successes(answer.results) && failed == Failures(answer.results)
    {
      revoked, failed := 0, 0;
      if roleName == "" {
        return Failed(RoleMissing), 0, 0;
      }
      if !env.configOk {
        return Failed(ConfigFailed), 0, 0;
      }
      if !env.roleOk {
        return Failed(RoleFailed), 0, 0;
      }
      if roleName !in roles {
        return Failed(RoleMissing), 0, 0;
      }
      if !env.countOk {
        return Failed(CountFailed), 0, 0;
      }
      var names := ListSelected(order, unread, Some(roleName), |order|);
      SelectPicks(store, order, unread, Some(roleName), |order|);
      var results;
      results, revoked, failed := RevokeOfRole(names, turns);
      return Lines(results), revoked, failed;
    }

    /** The loop over a role's credentials. */
    method RevokeOfRole(names: seq<string>, turns: seq<Turn>)
      returns (results: seq<Result>, revoked: nat, failed: nat)
      requires Valid() && |names| <= |turns|
      modifies this`store, this`users, cache
      ensures Valid() && cache.objects == old(cache.objects)
      ensures (View(), results) == RevokeFirst(OneRole, old(View()), names, turns, |names|)
      ensures cache.entries == Surviving(old(cache.entries), store)
      ensures revoked == Successes(results) && failed == Failures(results)
    {
      results, revoked, failed := [], 0, 0;
      for i := 0 to |names|
        invariant Valid() && cache.objects == old(cache.objects)
        invariant (View(), results) == RevokeFirst(OneRole, old(View()), names, turns, i)
        invariant cache.entries == Surviving(old(cache.entries), store)
        invariant revoked == Successes(results) && failed == Failures(results)
      {
        ghost var state := View();
        var out := DropUser(names[i], turns[i].env);
        SurvivingTwice(old(cache.entries), state.store, store);
        RevokeFirstStep(OneRole, old(View()), names, turns, turns[i], i, state, results, View(), out);
        assert turns[i := turns[i]] == turns;
        CountStep(results, Result(names[i], out));
        results := results + [Result(names[i], out)];
        if out == Done {
          revoked := revoked + 1;
        } else {
          failed := failed + 1;
        }
      }
    }

    /** One listed credential, behind the results so far; its role is read unless it is known. */
    method RevokeListed(
      cred: Record, turn: Turn, known: set<string>, ghost names: seq<string>, ghost rolesOf: seq<string>,
      ghost turns: seq<Turn>, ghost i: nat, ghost soFar: seq<Result>, ghost start: State, ghost before: seq<Turn>)
      returns (out: Outcome, roleCache: set<string>, ghost taken: seq<Turn>)
      requires Valid() && i < |names| == |rolesOf| <= |turns| == |before|
      requires names[i] == cred.id.username && rolesOf[i] == cred.id.roleName && turns[i] == turn
      requires before in Memories(rolesOf, turns, i) && known == RolesRead(rolesOf, turns, i)
      requires (View(), soFar) == RevokeFirst(Everyone, start, names, before, i)
      modifies this`store, this`users, cache
      ensures Valid() && cache.objects == old(cache.objects)
      ensures |taken| == |turns| && taken in Memories(rolesOf, turns, i + 1)
      ensures roleCache == RolesRead(rolesOf, turns, i + 1)
      ensures (View(), soFar + [Result(cred.id.username, out)])
              == RevokeFirst(Everyone, start, names, taken, i + 1)
      ensures cache.entries == Surviving(old(cache.entries), store) && store.Keys <= old(store.Keys)
    {
      ghost var state := View();
      var roleKnown := cred.id.roleName in known || turn.roleOk;
      roleCache := known;
      if roleKnown {
        roleCache := roleCache + {cred.id.roleName};
        out := DropUser(cred.id.username, turn.env);
      } else {
        assert cache.Held().Keys == cache.entries.Keys;
        SurvivingOne(cache.entries, store, "");
        out := Refused(RoleFailed);
      }
      taken := before[i := turn.(roleOk := roleKnown)];
      RememberedOneMore(rolesOf, turns, before, i);
      RevokeFirstStep(Everyone, start, names, before, turn.(roleOk := roleKnown), i, state, soFar, View(), out);
    }

    /** Reads each role at most once; a role that was read cannot fail later in the same call. */
    method RevokeEach(creds: seq<Record>, turns: seq<Turn>, ghost names: seq<string>)
      returns (results: seq<Result>, revoked: nat, failed: nat, ghost taken: seq<Turn>)
      requires Valid() && |names| == |creds| <= |turns|
      requires forall i :: 0 <= i < |creds| ==> creds[i].id.username == names[i]
      modifies this`store, this`users, cache
      ensures Valid() && cache.objects == old(cache.objects)
      ensures Remembered(RolesOf(creds), turns, taken, |creds|)
      ensures (View(), results) == RevokeFirst(Everyone, old(View()), names, taken, |names|)
      ensures cache.entries == Surviving(old(cache.entries), store)
      ensures revoked == Successes(results) && failed == Failures(results)
    {
      taken, results, revoked, failed := turns, [], 0, 0;
      ghost var start, first, rolesOf := View(), cache.entries, RolesOf(creds);
      var roleCache: set<string> := {};
      assert cache.Held().Keys == cache.entries.Keys;
      SurvivingOne(first, store, "");
      for i := 0 to |creds|
        invariant Valid() && cache.objects == old(cache.objects)
        invariant |taken| == |turns| && taken in Memories(rolesOf, turns, i)
        invariant roleCache == RolesRead(rolesOf, turns, i)
        invariant (View(), results) == RevokeFirst(Everyone, start, names, taken, i)
        invariant cache.entries == Surviving(first, store)
        invariant revoked == Successes(results) && failed == Failures(results)
      {
        ghost var between := store;
        var out;
        out, roleCache, taken :=
          RevokeListed(creds[i], turns[i], roleCache, names, rolesOf, turns, i, results, start, taken);
        SurvivingTwice(first, between, store);
        CountStep(results, Result(creds[i].id.username, out));
        results := results + [Result(creds[i].id.username, out)];
        if out == Done {
          revoked := revoked + 1;
        } else {
          failed := failed + 1;
        }
      }
    }

    method RevokeAllCredentials(order: seq<string>, unread: set<string>, env: Env, turns: seq<Turn>)
      returns (answer: Answer, revoked: nat, failed: nat, ghost taken: seq<Turn>)
      requires Valid() && Lists(order, store) && |order| <= |turns|
      modifies this`store, this`users, cache
      ensures Valid() && cache.objects == old(cache.objects)
      ensures var keys := Select(old(store), order, unread, None, |order|);
        && (forall k :: k in keys ==> k in old(store)) && |keys| <= |turns|
        && Remembered(RolesUnder(old(store), keys), turns, taken, if answer.Lines? then |keys| else 0)
      ensures (View(), answer) == RevokeEveryone(old(View()), order, unread, env, taken)
      ensures cache.entries == Surviving(old(cache.entries), store)
      ensures answer.Lines? ==> revoked == Successes(answer.results) && failed == Failures(answer.results)
    {
      taken := turns;
      SelectPicks(store, order, unread, None, |order|);
      if !env.configOk {
        return Failed(ConfigFailed), 0, 0, taken;
      }
      if !env.countOk {
        return Failed(CountFailed), 0, 0, taken;
      }
      var keys := ListSelected(order, unread, None, |order|);
      var records := store;
      var creds := seq(|keys|, i requires 0 <= i < |keys| && keys[i] in records => records[keys[i]]);
      var results;
      assert RolesOf(creds) == RolesUnder(store, keys);
      results, revoked, failed, taken := RevokeEach(creds, turns, Usernames(store, keys));
      return Lines(results), revoked, failed, taken;
    }

    /** The body of the cleanup loop. */
    method CleanTurn(u: string, now: int, turn: Turn) returns (removed: bool)
      requires Valid()
      modifies this`store, this`users, cache
      ensures Valid() && cache.objects == old(cache.objects)
      ensures (View(), if removed then 1 else 0) == CleanItem(old(View()), u, now, turn)
      ensures cache.entries == Surviving(old(cache.entries), store) && store.Keys <= old(store.Keys)
    {
      assert cache.Held().Keys == cache.entries.Keys;
      SurvivingOne(cache.entries, store, u);
      if !turn.getOk || u !in store || now <= store[u].expiresAt || !turn.env.dropOk {
        return false;
      }
      users := users - {u};
      if !turn.env.deleteOk {
        return false;
      }
      store := store - {u};
      cache.Delete(u);
      AgreeRemove(cache.Held(), old(cache.Held()), old(store), intact, u);
      return true;
    }

    method CleanupExpiredCredentials(order: seq<string>, now: int, env: Env, turns: seq<Turn>)
      returns (count: Option<nat>)
      requires Valid() && Lists(order, store) && |order| <= |turns|
      modifies this`store, this`users, cache
      ensures Valid() && cache.objects == old(cache.objects)
      ensures (View(), count) == Cleanup(old(View()), order, now, env, turns)
      ensures cache.entries == Surviving(old(cache.entries), store)
    {
      if !env.configOk || !env.countOk {
        return None;
      }
      var cleaned: nat := 0;
      for i := 0 to |order|
        invariant Valid() && cache.objects == old(cache.objects)
        invariant (View(), cleaned) == CleanFirst(old(View()), order, now, turns, i)
        invariant cache.entries == Surviving(old(cache.entries), store)
      {
        ghost var between := store;
        var removed := CleanTurn(order[i], now, turns[i]);
        SurvivingTwice(old(cache.entries), between, store);
        if removed {
          cleaned := cleaned + 1;
        }
      }
      return Some(cleaned);
    }

    /** The framework's revocation of a lease: drops the user and the cache entry, keeps the record. */
    method RevokeLease(leaseId: string, now: int, getOk: bool, env: Env) returns (out: Outcome)
      requires Valid() && now != ZERO_TIME
      modifies this`users, cache
      ensures Valid() && fresh(cache.objects - old(cache.objects))
      ensures var parts := LeaseParts(leaseId);
        (View(), out) == LeaseRevoke(old(View()), leaseId,
          getOk || (parts.Some? && old(cache.Fresh(parts.value.1, now))), env)
      ensures out == Done ==> LeaseParts(leaseId).None? || LeaseParts(leaseId).value.1 !in cache.entries
    {
      var parts := LeaseParts(leaseId);
      if parts == None {
        return Done;
      }
      var u := parts.value.1;
      var ok, cred := GetCachedCredential(u, now, getOk);
      if !ok {
        return Refused(LoadFailed);
      }
      if !env.configOk {
        return Refused(ConfigFailed);
      }
      if !env.roleOk {
        return Refused(RoleFailed);
      }
      if !env.connectOk {
        return Refused(ConnectFailed);
      }
      if !env.dropOk {
        return Refused(DropFailed);
      }
      users := users - {u};
      cache.Delete(u);
      return Done;
    }

    // ----- the cache on its own -----------------------------------------------------------

    method SweepCache(now: int)
      requires Valid()
      modifies cache
      ensures Valid() && cache.objects == old(cache.objects)
      ensures cache.entries ==
        map u | u in old(cache.entries) && now <= old(cache.entries[u].expiresAt) :: old(cache.entries[u])
    {
      cache.CleanupExpired(now);
    }

    /** A plugin reload starts over with an empty cache. */
    method Reload(ttl: int, maxSize: int)
      requires Valid()
      modifies this`cache, this`intact
      ensures Valid() && intact && fresh(cache) && cache.objects == {}
      ensures cache.entries == map[] && cache.ttl == ttl && cache.maxSize == maxSize
    {
      intact := true;
      cache := new CredentialCache(ttl, maxSize);
    }
  }

  /** Once a batch round is refused the remaining rounds do not happen. */
  lemma {:induction false} RefusalEnds(
    s: State, roleName: string, role: Role, region: string, draws: seq<Draw>, k: nat, n: nat)
    requires k <= n <= |draws|
    requires CreateFirst(s, roleName, role, region, draws, k).1.Refused?
    ensures CreateFirst(s, roleName, role, region, draws, n) == CreateFirst(s, roleName, role, region, draws, k)
  {
    if k == n {
    } else {
      RefusalEnds(s, roleName, role, region, draws, k, n - 1);
    }
  }

  /** A selection that has reached its limit takes nothing more from the rest of the listing. */
  lemma {:induction false} SelectFull(store: map<string, Record>, order: seq<string>, unread: set<string>,
                                      role: Option<string>, limit: nat, i: nat)
    requires i <= |order| && |Select(store, order[..i], unread, role, limit)| >= limit
    ensures Select(store, order, unread, role, limit) == Select(store, order[..i], unread, role, limit)
  {
    if i == |order| {
      assert order[..i] == order;
    } else {
      assert order[..|order| - 1][..i] == order[..i];
      SelectFull(store, order[..|order| - 1], unread, role, limit, i);
    }
  }
}
