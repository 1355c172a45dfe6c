/**
 The credential cache. It hands out the very objects it holds, so a caller that writes to one
 writes to the cache.
 */
module CredentialCaching {
  import opened Common
  import opened Vault

  /** A decoded credential, shared by reference between the cache and the handlers. */
  class Credential {
    const id: Identity
    var expiresAt: int
    var lastRenewed: int

    constructor (r: Record)
      ensures Snapshot() == r
    {
      id, expiresAt, lastRenewed := r.id, r.expiresAt, r.lastRenewed;
    }

    /** What storing the credential now would write. */
    function Snapshot(): Record
      reads this
    {
      Record(id, expiresAt, lastRenewed)
    }
  }

  datatype CacheEntry = CacheEntry(credential: Credential, expiresAt: int, createdAt: int)

  class CredentialCache {
    var entries: map<string, CacheEntry>
    const ttl: int
    const maxSize: int
    var hitCount: int
    var missCount: int
    var evictCount: int
    /** Every credential object that has been put into the cache. */
    ghost var objects: set<Credential>

    constructor (ttl: int, maxSize: int)
      ensures this.ttl == ttl && this.maxSize == maxSize && entries == map[]
      ensures hitCount == 0 && missCount == 0 && evictCount == 0
      ensures Valid() && objects == {}
    {
      this.ttl, this.maxSize, entries, objects := ttl, maxSize, map[], {};
      hitCount, missCount, evictCount := 0, 0, 0;
    }

    /** Every entry was made at a real time, and every object inside is accounted for. */
    ghost predicate Valid()
      reads this
    {
      forall u :: u in entries ==> entries[u].createdAt != ZERO_TIME && entries[u].credential in objects
    }

    /** The credentials as they are now, by the name they are cached under. */
    ghost function Held(): map<string, Record>
      reads this, objects
      requires Valid()
    {
      map u | u in entries :: entries[u].credential.Snapshot()
    }

    /** An entry expires strictly after its time. */
    predicate Fresh(u: string, now: int)
      reads this
    {
      u in entries && now <= entries[u].expiresAt
    }

    method Get(u: string, now: int) returns (cred: Credential?)
      requires Valid()
      modifies this`entries, this`hitCount, this`missCount
      ensures Valid() && Narrower(Held(), old(Held()))
      ensures old(Fresh(u, now)) ==>
        cred == old(entries[u].credential) && entries == old(entries)
        && hitCount == old(hitCount) + 1 && missCount == old(missCount)
      ensures !old(Fresh(u, now)) ==>
        cred == null && entries == old(entries) - {u}
        && hitCount == old(hitCount) && missCount == old(missCount) + 1
    {
      if u !in entries {
        missCount := missCount + 1;
        assert entries == entries - {u};
        return null;
      }
      if now > entries[u].expiresAt {
        Delete(u);
        missCount := missCount + 1;
        return null;
      }
      hitCount := hitCount + 1;
      return entries[u].credential;
    }

    method Delete(u: string)
      requires Valid()
      modifies this`entries
      ensures Valid() && Narrower(Held(), old(Held()) - {u})
      ensures entries == old(entries) - {u}
    {
      entries := entries - {u};
    }

    /** An entry no other entry is older than. */
    ghost predicate Oldest(u: string)
      reads this
    {
      u in entries && forall v :: v in entries ==> entries[u].createdAt <= entries[v].createdAt
    }

    /** Full, with an entry older than the ttl; the empty name is never evicted. */
    ghost predicate Overdue(now: int)
      reads this
    {
      |entries| >= maxSize && "" !in entries && exists v :: v in entries && now - entries[v].createdAt > ttl
    }

    /** Drops the oldest entry, and only when it is older than the ttl. */
    method EvictOldest(now: int)
      requires Valid()
      modifies this`entries, this`evictCount
      ensures Valid() && Narrower(Held(), old(Held()))
      ensures (entries == old(entries) && evictCount == old(evictCount))
              || (evictCount == old(evictCount) + 1
                  && |entries| == |old(entries)| - 1
                  && exists u :: old(Oldest(u)) && now - old(entries[u].createdAt) > ttl
                       && entries == old(entries) - {u})
      ensures "" !in old(entries) ==>
        (entries != old(entries) <==> exists u :: u in old(entries) && now - old(entries[u].createdAt) > ttl)
    {
      var oldestKey, oldestTime := "", ZERO_TIME;
      var pending := entries.Keys;
      while pending != {}
        invariant pending <= entries.Keys
        invariant oldestTime == ZERO_TIME <==> pending == entries.Keys
        invariant oldestTime != ZERO_TIME ==>
          oldestKey in entries && entries[oldestKey].createdAt == oldestTime
          && forall v :: v in entries && v !in pending ==> oldestTime <= entries[v].createdAt
        invariant oldestTime == ZERO_TIME ==> oldestKey == ""
      {
        var key :| key in pending;
        pending := pending - {key};
        if oldestTime == ZERO_TIME || entries[key].createdAt < oldestTime {
          oldestKey, oldestTime := key, entries[key].createdAt;
        }
      }
      if oldestKey != "" && now - oldestTime > ttl {
        assert Oldest(oldestKey);
        assert (entries - {oldestKey}).Keys == entries.Keys - {oldestKey};
        entries := entries - {oldestKey};
        evictCount := evictCount + 1;
      }
    }

    /** The cache is within its size. */
    ghost predicate WithinSize()
      reads this
    {
      |entries| <= maxSize
    }

    /** There is room for a new name without going over the size, or a way to make it. */
    ghost predicate HasRoom(u: string, now: int)
      reads this
    {
      u in entries || |entries| < maxSize || Overdue(now)
    }

    /**
     Puts the object itself into the cache. A full cache makes room only by giving up its oldest
     entry, when that is older than the ttl; otherwise it grows, past maxSize if it must.
     */
    method Set(u: string, cred: Credential, now: int)
      requires Valid() && now != ZERO_TIME
      modifies this`entries, this`evictCount, this`objects
      ensures Valid() && objects == old(objects) + {cred}
      ensures u in entries && entries[u] == CacheEntry(cred, now + ttl, now)
      ensures Narrower(Held() - {u}, old(Held()))
      ensures (entries == old(entries)[u := entries[u]] && evictCount == old(evictCount))
              || (evictCount == old(evictCount) + 1 && maxSize <= |old(entries)|
                  && exists v :: old(Oldest(v)) && now - old(entries[v].createdAt) > ttl
                       && entries == (old(entries) - {v})[u := entries[u]])
      ensures old(Overdue(now)) ==> evictCount == old(evictCount) + 1
      ensures maxSize >= 1 && "" !in old(entries) && old(WithinSize()) ==> (WithinSize() <==> old(HasRoom(u, now)))
    {
      if |entries| >= maxSize {
        EvictOldest(now);
      }
      Put(u, cred, now);
    }

    method Put(u: string, cred: Credential, now: int)
      requires Valid() && now != ZERO_TIME
      modifies this`entries, this`objects
      ensures Valid() && objects == old(objects) + {cred}
      ensures entries == old(entries)[u := CacheEntry(cred, now + ttl, now)]
      ensures |entries| == |old(entries)| + if u in old(entries) then 0 else 1
      ensures Narrower(Held() - {u}, old(Held()))
    {
      entries := entries[u := CacheEntry(cred, now + ttl, now)];
      objects := objects + {cred};
      assert entries.Keys == old(entries).Keys + {u};
    }

    /** The background sweep: exactly the expired entries go. */
    method CleanupExpired(now: int)
      requires Valid()
      modifies this`entries, this`evictCount
      ensures Valid() && Narrower(Held(), old(Held()))
      ensures entries == map u | u in old(entries) && now <= old(entries[u].expiresAt) :: old(entries[u])
      ensures evictCount - old(evictCount) == |old(entries)| - |entries|
    {
      var pending := entries.Keys;
      while pending != {}
        invariant pending <= entries.Keys <= old(entries.Keys)
        invariant forall u :: u in entries ==> entries[u] == old(entries[u])
        invariant forall u :: u in old(entries) && u !in pending ==>
          (u in entries <==> now <= old(entries[u].expiresAt))
        invariant evictCount - old(evictCount) == |old(entries)| - |entries|
        decreases pending
      {
        var u :| u in pending;
        pending := pending - {u};
        if now > entries[u].expiresAt {
          assert (entries - {u}).Keys == entries.Keys - {u};
          entries := entries - {u};
          evictCount := evictCount + 1;
        }
      }
    }
  }

  /** For every size: one fresh name more than it, none old enough to go, and the cache is over its size. */
  method OverfullCache(maxSize: nat, r: Record) returns (cache: CredentialCache)
    requires maxSize >= 1
    ensures cache.maxSize == maxSize && |cache.entries| == maxSize + 1 && cache.Valid() && !cache.WithinSize()
  {
    cache := new CredentialCache(300, maxSize);
    for i := 0 to maxSize + 1
      invariant fresh(cache) && cache.Valid() && cache.maxSize == maxSize && cache.ttl == 300 && |cache.entries| == i
      invariant forall u :: u in cache.entries ==> 1 <= |u| <= i && cache.entries[u].createdAt == 1
    {
      var name := seq(i + 1, _ => 'v');
      var cred := new Credential(r);
      ghost var before := cache.entries;
      assert !cache.Overdue(1) && name !in before;
      cache.Set(name, cred, 1);
      assert cache.entries.Keys == before.Keys + {name};
    }
  }
}
