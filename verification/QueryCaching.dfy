/** The TTL and LRU cache for query results, roles, configurations and statements. */
module QueryCaching {
  import opened Common

  datatype Entry<V> = Entry(value: V, expiresAt: int, createdAt: int, accessTime: int)

  predicate HasPrefix(s: string, prefix: string) {
    |s| >= |prefix| && s[..|prefix|] == prefix
  }

  /** The value last set under a key, when that was, and when the key was last set or read. */
  datatype Use<V> = Use(value: V, setAt: int, usedAt: int)

  ghost predicate Recalls<V>(e: Entry<V>, use: Use<V>, ttl: int) {
    e.value == use.value && e.expiresAt == use.setAt + ttl && e.accessTime == use.usedAt != ZERO_TIME
  }

  /** A sweep by prefix under way: keys outside `pending` are dealt with. */
  ghost predicate Swept<V>(
    before: map<string, Entry<V>>, entries: map<string, Entry<V>>, pending: set<string>, prefix: string,
    deleted: seq<string>)
  {
    && Narrower(entries, before)
    && (forall k :: k in before && k !in pending ==> (k in entries <==> !HasPrefix(k, prefix)))
    && Distinct(deleted)
    && (forall k :: k in deleted <==> k in before && k !in pending && HasPrefix(k, prefix))
  }

  lemma SweptStep<V>(
    before: map<string, Entry<V>>, entries: map<string, Entry<V>>, pending: set<string>, prefix: string,
    deleted: seq<string>, k: string)
    requires Swept(before, entries, pending, prefix, deleted) && k in pending && pending <= entries.Keys
    ensures if HasPrefix(k, prefix)
            then Swept(before, entries - {k}, pending - {k}, prefix, deleted + [k])
            else Swept(before, entries, pending - {k}, prefix, deleted)
  {}

  class QueryCache<V> {
    var entries: map<string, Entry<V>>
    const ttl: int
    const maxSize: int
    var hitCount: int
    var missCount: int
    var evictCount: int

    // The history of the cache, for the specification only.
    /** Per key, the last use of it. */
    ghost var log: map<string, Use<V>>
    /** How many lookups, how many insertions of a key not present, and how many entries Clear threw away. */
    ghost var lookups: int
    ghost var inserts: int
    ghost var cleared: int

    /** Sizes and defaults as the source's constructor chooses them. */
    constructor (ttl: int, maxSize: int)
      ensures Valid() && entries == map[] && lookups == 0 && inserts == 0 && cleared == 0
      ensures this.ttl > 0 && (ttl > 0 ==> this.ttl == ttl) && (maxSize > 0 ==> this.maxSize == maxSize)
    {
      this.ttl := if ttl <= 0 then 300 else ttl;
      this.maxSize := if maxSize <= 0 then 1000 else maxSize;
      entries := map[];
      hitCount, missCount, evictCount := 0, 0, 0;
      log := map[];
      lookups, inserts, cleared := 0, 0, 0;
    }

    /**
     Never over its size; every entry is the last value set under its key, made to expire ttl after
     that; and the counters add up to the history.
     */
    ghost predicate Valid()
      reads this
    {
      && maxSize >= 1 && |entries| <= maxSize && "" !in entries
      && (forall k :: k in entries ==> k in log && Recalls(entries[k], log[k], ttl))
      && hitCount + missCount == lookups
      && inserts == |entries| + evictCount + cleared
    }

    /** A hit is the last value set under the key, no later than ttl after it was set. */
    method Get(key: string, now: int) returns (value: Option<V>)
      requires Valid() && now != ZERO_TIME
      modifies this
      ensures Valid() && lookups == old(lookups) + 1 && inserts == old(inserts) && cleared == old(cleared)
      ensures value.Some? <==> key in old(entries) && now <= old(entries[key].expiresAt)
      ensures value.Some? ==>
        && value.value == old(entries[key].value)
        && key in old(log) && value.value == old(log[key]).value && now <= old(log[key]).setAt + ttl
        && log == old(log)[key := old(log[key]).(usedAt := now)]
        && hitCount == old(hitCount) + 1
        && entries == old(entries)[key := old(entries[key]).(accessTime := now)]
      ensures value.None? ==> hitCount == old(hitCount) && log == old(log) && entries == old(entries) - {key}
    {
      if key !in entries {
        assert entries == entries - {key};
        CountMiss();
        return None;
      }
      if now > entries[key].expiresAt {
        DeleteEntry(key);
        CountMiss();
        return None;
      }
      CountHit(key, now);
      return Some(entries[key].value);
    }

    method CountMiss()
      requires Valid()
      modifies this`missCount, this`lookups
      ensures Valid() && lookups == old(lookups) + 1
    {
      missCount, lookups := missCount + 1, lookups + 1;
    }

    method CountHit(key: string, now: int)
      requires Valid() && key in entries && now != ZERO_TIME
      modifies this`entries, this`log, this`hitCount, this`lookups
      ensures Valid() && hitCount == old(hitCount) + 1 && lookups == old(lookups) + 1
      ensures entries == old(entries)[key := old(entries[key]).(accessTime := now)]
      ensures log == old(log)[key := old(log[key]).(usedAt := now)]
    {
      entries := entries[key := entries[key].(accessTime := now)];
      log := log[key := log[key].(usedAt := now)];
      assert entries.Keys == old(entries).Keys;
      hitCount, lookups := hitCount + 1, lookups + 1;
    }

    method DeleteEntry(key: string)
      requires Valid() && key in entries
      modifies this`entries, this`evictCount
      ensures Valid()
      ensures entries == old(entries) - {key} && evictCount == old(evictCount) + 1
      ensures |entries| == |old(entries)| - 1
    {
      assert (entries - {key}).Keys == entries.Keys - {key};
      entries := entries - {key};
      evictCount := evictCount + 1;
    }

    /** No entry was used longer ago. */
    ghost predicate LeastRecentlyUsed(key: string)
      reads this
    {
      key in entries && forall k :: k in entries ==> entries[key].accessTime <= entries[k].accessTime
    }

    /** The scan of evictLRU: the entry it settles on, or the empty key when there is none. */
    method FindLRU() returns (oldestKey: string)
      requires forall k :: k in entries ==> entries[k].accessTime != ZERO_TIME
      ensures entries == map[] ==> oldestKey == ""
      ensures entries != map[] ==> LeastRecentlyUsed(oldestKey)
    {
      oldestKey := "";
      var oldestTime := ZERO_TIME;
      var pending := entries.Keys;
      while pending != {}
        invariant pending <= entries.Keys
        invariant oldestTime == ZERO_TIME ==> pending == entries.Keys && oldestKey == ""
        invariant oldestTime != ZERO_TIME ==>
          oldestKey in entries && entries[oldestKey].accessTime == oldestTime
          && forall k :: k in entries && k !in pending ==> oldestTime <= entries[k].accessTime
      {
        var key :| key in pending;
        pending := pending - {key};
        if oldestTime == ZERO_TIME || entries[key].accessTime < oldestTime {
          oldestKey, oldestTime := key, entries[key].accessTime;
        }
      }
      assert entries != map[] ==> entries.Keys != {};
    }

    /** Makes room by dropping a least recently used entry, unless that entry's key is empty. */
    method EvictLRU()
      requires Valid()
      modifies this`entries, this`evictCount
      ensures Valid()
      ensures (entries == old(entries) && evictCount == old(evictCount)
               && (old(entries) == map[] || old(LeastRecentlyUsed(""))))
              || (evictCount == old(evictCount) + 1 && |entries| == |old(entries)| - 1
                  && exists k :: k != "" && old(LeastRecentlyUsed(k)) && entries == old(entries) - {k})
    {
      var oldestKey := FindLRU();
      if oldestKey != "" {
        DeleteEntry(oldestKey);
      }
    }

    /** Sets a value; a full cache gives up one least recently used entry for a new key. */
    method Set(key: string, value: V, now: int)
      requires Valid() && now != ZERO_TIME && key != ""
      modifies this
      ensures Valid() && lookups == old(lookups) && cleared == old(cleared)
      ensures hitCount == old(hitCount) && missCount == old(missCount)
      ensures log == old(log)[key := Use(value, now, now)]
      ensures key in entries
      ensures entries[key] ==
        Entry(value, now + ttl, if key in old(entries) then old(entries[key].createdAt) else now, now)
      ensures inserts == old(inserts) + if key in old(entries) then 0 else 1
      ensures key in old(entries) || |old(entries)| < maxSize ==> entries == old(entries)[key := entries[key]]
      ensures key !in old(entries) && |old(entries)| >= maxSize ==>
        exists k :: old(LeastRecentlyUsed(k)) && entries == (old(entries) - {k})[key := entries[key]]
    {
      if key in entries {
        log := log[key := Use(value, now, now)];
        entries := entries[key := entries[key].(value := value, expiresAt := now + ttl, accessTime := now)];
        assert entries.Keys == old(entries).Keys;
        return;
      }
      if |entries| >= maxSize {
        MakeRoom();
      }
      Insert(key, value, now);
    }

    /** On a full cache evictLRU always makes room: no key is empty, and a full cache has entries. */
    method MakeRoom()
      requires Valid() && |entries| == maxSize
      modifies this`entries, this`evictCount
      ensures Valid() && |entries| == maxSize - 1
      ensures exists k :: old(LeastRecentlyUsed(k)) && entries == old(entries) - {k}
    {
      EvictLRU();
    }

    method Insert(key: string, value: V, now: int)
      requires Valid() && now != ZERO_TIME && key != "" && key !in entries && |entries| < maxSize
      modifies this`entries, this`inserts, this`log
      ensures Valid() && inserts == old(inserts) + 1
      ensures log == old(log)[key := Use(value, now, now)]
      ensures key in entries && entries == old(entries)[key := entries[key]]
      ensures entries[key] == Entry(value, now + ttl, now, now)
    {
      entries := entries[key := Entry(value, now + ttl, now, now)];
      log := log[key := Use(value, now, now)];
      assert entries.Keys == old(entries).Keys + {key};
      inserts := inserts + 1;
    }

    method Delete(key: string)
      requires Valid()
      modifies this`entries, this`evictCount
      ensures Valid() && entries == old(entries) - {key}
    {
      if key in entries {
        DeleteEntry(key);
      } else {
        assert entries == entries - {key};
      }
    }

    /** Drops exactly the keys with the prefix and lists each of them once. */
    method DeleteByPrefix(prefix: string) returns (deleted: seq<string>)
      requires Valid()
      modifies this`entries, this`evictCount
      ensures Valid()
      ensures entries == map k | k in old(entries) && !HasPrefix(k, prefix) :: old(entries[k])
      ensures Distinct(deleted) && forall k :: k in deleted <==> k in old(entries) && HasPrefix(k, prefix)
    {
      deleted := [];
      ghost var before := entries;
      var pending := entries.Keys;
      while pending != {}
        invariant Valid() && pending <= entries.Keys
        invariant Swept(before, entries, pending, prefix, deleted)
        decreases pending
      {
        var k :| k in pending;
        SweptStep(before, entries, pending, prefix, deleted, k);
        pending := pending - {k};
        if HasPrefix(k, prefix) {
          DeleteEntry(k);
          deleted := deleted + [k];
        }
      }
    }

    method Clear()
      requires Valid()
      modifies this`entries, this`cleared
      ensures Valid() && entries == map[]
    {
      cleared := cleared + |entries|;
      entries := map[];
    }

    /** The background sweep: exactly the expired entries go. */
    method CleanupExpired(now: int)
      requires Valid()
      modifies this`entries, this`evictCount
      ensures Valid()
      ensures entries == map k | k in old(entries) && now <= old(entries[k].expiresAt) :: old(entries[k])
    {
      ghost var before := entries;
      var pending := entries.Keys;
      while pending != {}
        invariant Valid() && pending <= entries.Keys
        invariant Narrower(entries, before)
        invariant forall k :: k in before && k !in pending ==> (k in entries <==> now <= before[k].expiresAt)
        decreases pending
      {
        var k :| k in pending;
        pending := pending - {k};
        if now > entries[k].expiresAt {
          DeleteEntry(k);
        }
      }
    }
  }

  // ----- any run of the cache -------------------------------------------------------------

  datatype Request<V> =
    | Get(key: string) | Set(key: string, value: V) | Delete(key: string) | DeleteByPrefix(prefix: string)
    | Sweep | Clear

  predicate Served<V>(r: Request<V>, now: int) {
    now != ZERO_TIME && (r.Set? ==> r.key != "")
  }

  function Lookups<V>(run: seq<(int, Request<V>)>): nat {
    if run == [] then 0 else Lookups(run[..|run| - 1]) + if run[|run| - 1].1.Get? then 1 else 0
  }

  /** What an unbounded cache holds under a key: the value last set, and when. */
  datatype Kept<V> = Kept(value: V, setAt: int)

  predicate Late<V>(kept: Kept<V>, ttl: int, now: int) {
    now > kept.setAt + ttl
  }

  /** One request to an unbounded cache: it forgets only what is deleted, cleared, or found to be late. */
  function Ideally<V>(m: map<string, Kept<V>>, ttl: int, now: int, r: Request<V>): map<string, Kept<V>> {
    match r
    case Get(key) => if key in m && Late(m[key], ttl, now) then m - {key} else m
    case Set(key, value) => m[key := Kept(value, now)]
    case Delete(key) => m - {key}
    case DeleteByPrefix(prefix) => map k | k in m && !HasPrefix(k, prefix) :: m[k]
    case Sweep => map k | k in m && !Late(m[k], ttl, now) :: m[k]
    case Clear => map[]
  }

  function Ideal<V>(run: seq<(int, Request<V>)>, ttl: int): map<string, Kept<V>> {
    if run == [] then map[]
    else Ideally(Ideal(run[..|run| - 1], ttl), ttl, run[|run| - 1].0, run[|run| - 1].1)
  }

  /** The answer of an unbounded cache to a lookup. */
  function Answer<V>(m: map<string, Kept<V>>, ttl: int, now: int, r: Request<V>): Option<V> {
    if r.Get? && r.key in m && !Late(m[r.key], ttl, now) then Some(m[r.key].value) else None
  }

  /** Up to some point of the run an unbounded cache has never held more than `maxSize` entries. */
  ghost predicate Fits<V>(run: seq<(int, Request<V>)>, ttl: int, maxSize: int, n: nat)
    requires n <= |run|
  {
    |Ideal(run[..n], ttl)| <= maxSize && (n > 0 ==> Fits(run, ttl, maxSize, n - 1))
  }

  /**
   Answer number `i` of a run: a hit is what an unbounded cache would answer, and so is a miss
   unless that one would by then have held more than the size allows.
   */
  ghost predicate Answered<V>(run: seq<(int, Request<V>)>, ttl: int, maxSize: int, answer: Option<V>, i: nat)
    requires i < |run|
  {
    answer.Some? || Fits(run, ttl, maxSize, i) ==> answer == Answer(Ideal(run[..i], ttl), ttl, run[i].0, run[i].1)
  }

  /** `i` requests have been answered so; an unbounded cache now holds `m`, and has fitted so far if `all`. */
  ghost predicate Played<V>(
    run: seq<(int, Request<V>)>, ttl: int, maxSize: int, i: nat, m: map<string, Kept<V>>, all: bool,
    answers: seq<Option<V>>)
    requires i <= |run|
  {
    && m == Ideal(run[..i], ttl) && (Fits(run, ttl, maxSize, i) ==> all)
    && |answers| == i && forall j :: 0 <= j < i ==> Answered(run, ttl, maxSize, answers[j], j)
  }

  ghost predicate Cleared<V>(run: seq<(int, Request<V>)>, i: nat)
    requires i <= |run|
  {
    exists j :: 0 <= j < i && run[j].1.Clear?
  }

  lemma OneMore<V>(
    run: seq<(int, Request<V>)>, ttl: int, maxSize: int, i: nat, m: map<string, Kept<V>>, all: bool,
    answers: seq<Option<V>>, answer: Option<V>)
    requires i < |run| && Played(run, ttl, maxSize, i, m, all, answers)
    requires answer.Some? || all ==> answer == Answer(m, ttl, run[i].0, run[i].1)
    ensures var next := Ideally(m, ttl, run[i].0, run[i].1);
      Played(run, ttl, maxSize, i + 1, next, all && |next| <= maxSize, answers + [answer])
  {
    IdealNext(run, ttl, i);
    var more := answers + [answer];
    assert forall j :: 0 <= j < i ==> more[j] == answers[j];
  }

  lemma IdealNext<V>(run: seq<(int, Request<V>)>, ttl: int, i: nat)
    requires i < |run|
    ensures Ideal(run[..i + 1], ttl) == Ideally(Ideal(run[..i], ttl), ttl, run[i].0, run[i].1)
    ensures Lookups(run[..i + 1]) == Lookups(run[..i]) + if run[i].1.Get? then 1 else 0
    ensures Cleared(run, i + 1) <==> Cleared(run, i) || run[i].1.Clear?
  {
    assert run[..i + 1][..i] == run[..i];
  }

  /**
   In every run of a new cache it answers as an unbounded one would, but that it may forget once
   it has been full. It stays within its size, hits and misses count the lookups, and what was
   inserted is what is left plus what was evicted, unless Clear threw it away.
   */
  method Replay<V>(c: QueryCache<V>, run: seq<(int, Request<V>)>) returns (answers: seq<Option<V>>)
    requires c.Valid() && c.entries == map[]
    requires forall i :: 0 <= i < |run| ==> Served(run[i].1, run[i].0)
    modifies c
    ensures c.Valid() && |answers| == |run|
    ensures forall i :: 0 <= i < |run| ==> Answered(run, c.ttl, c.maxSize, answers[i], i)
    ensures c.hitCount + c.missCount == old(c.hitCount + c.missCount) + Lookups(run)
    ensures (forall i :: 0 <= i < |run| ==> !run[i].1.Clear?) ==>
      c.inserts - old(c.inserts) == |c.entries| - |old(c.entries)| + c.evictCount - old(c.evictCount)
  {
    answers := [];
    ghost var m: map<string, Kept<V>>, all := map[], true;
    for i := 0 to |run|
      invariant c.Valid() && Mirrors(c.entries, m, c.ttl, all)
      invariant Played(run, c.ttl, c.maxSize, i, m, all, answers)
      invariant c.lookups == old(c.lookups) + Lookups(run[..i])
      invariant Cleared(run, i) || c.cleared == old(c.cleared)
    {
      var answer := Handle(c, run[i].0, run[i].1, m, all);
      IdealNext(run, c.ttl, i);
      OneMore(run, c.ttl, c.maxSize, i, m, all, answers, answer);
      m := Ideally(m, c.ttl, run[i].0, run[i].1);
      all := all && |m| <= c.maxSize;
      answers := answers + [answer];
    }
    assert run[..|run|] == run;
  }

  /** The cache holds only what the unbounded one does; all of it, if `all`. */
  ghost predicate Mirrors<V>(entries: map<string, Entry<V>>, m: map<string, Kept<V>>, ttl: int, all: bool) {
    && (forall k :: k in entries ==>
          k in m && entries[k].value == m[k].value && entries[k].expiresAt == m[k].setAt + ttl)
    && (all ==> forall k :: k in m ==> k in entries)
  }

  method Handle<V>(c: QueryCache<V>, now: int, request: Request<V>, ghost m: map<string, Kept<V>>, ghost all: bool)
    returns (answer: Option<V>)
    requires c.Valid() && Served(request, now) && Mirrors(c.entries, m, c.ttl, all)
    modifies c
    ensures var next := Ideally(m, c.ttl, now, request);
      c.Valid() && Mirrors(c.entries, next, c.ttl, all && |next| <= c.maxSize)
    ensures answer.Some? || all ==> answer == Answer(m, c.ttl, now, request)
    ensures c.lookups == old(c.lookups) + if request.Get? then 1 else 0
    ensures !request.Clear? ==> c.cleared == old(c.cleared)
  {
    answer := None;
    if request.Get? {
      answer := HandleGet(c, now, request.key, m, all);
    } else if request.Set? {
      HandleSet(c, now, request.key, request.value, m, all);
    } else {
      HandleRemoval(c, now, request, m, all);
    }
  }

  method HandleGet<V>(c: QueryCache<V>, now: int, key: string, ghost m: map<string, Kept<V>>, ghost all: bool)
    returns (answer: Option<V>)
    requires c.Valid() && now != ZERO_TIME && Mirrors(c.entries, m, c.ttl, all)
    modifies c
    ensures c.Valid() && Mirrors(c.entries, Ideally(m, c.ttl, now, Get(key)), c.ttl, all)
    ensures answer.Some? || all ==> answer == Answer(m, c.ttl, now, Get(key))
    ensures c.lookups == old(c.lookups) + 1 && c.cleared == old(c.cleared)
  {
    ghost var before := c.entries;
    answer := c.Get(key, now);
    LookedUp(before, c.entries, m, c.ttl, all, now, key, answer);
  }

  lemma LookedUp<V>(
    before: map<string, Entry<V>>, after: map<string, Entry<V>>, m: map<string, Kept<V>>, ttl: int, all: bool,
    now: int, key: string, answer: Option<V>)
    requires Mirrors(before, m, ttl, all)
    requires answer.Some? <==> key in before && now <= before[key].expiresAt
    requires answer.Some? ==>
      answer.value == before[key].value && after == before[key := before[key].(accessTime := now)]
    requires answer.None? ==> after == before - {key}
    ensures Mirrors(after, Ideally(m, ttl, now, Get(key)), ttl, all)
    ensures answer.Some? || all ==> answer == Answer(m, ttl, now, Get(key))
  {}

  method HandleSet<V>(c: QueryCache<V>, now: int, key: string, value: V, ghost m: map<string, Kept<V>>, ghost all: bool)
    requires c.Valid() && now != ZERO_TIME && key != "" && Mirrors(c.entries, m, c.ttl, all)
    modifies c
    ensures var next := m[key := Kept(value, now)];
      c.Valid() && Mirrors(c.entries, next, c.ttl, all && |next| <= c.maxSize)
    ensures c.lookups == old(c.lookups) && c.cleared == old(c.cleared)
  {
    ghost var next := m[key := Kept(value, now)];
    if all && key !in c.entries {
      assert c.entries.Keys == m.Keys && next.Keys == m.Keys + {key};
      assert |c.entries| == |c.entries.Keys| == |m| && |next| == |next.Keys|;
    }
    c.Set(key, value, now);
  }

  method HandleRemoval<V>(
    c: QueryCache<V>, now: int, request: Request<V>, ghost m: map<string, Kept<V>>, ghost all: bool)
    requires c.Valid() && !request.Get? && !request.Set? && Mirrors(c.entries, m, c.ttl, all)
    modifies c
    ensures c.Valid() && Mirrors(c.entries, Ideally(m, c.ttl, now, request), c.ttl, all)
    ensures c.lookups == old(c.lookups)
    ensures !request.Clear? ==> c.cleared == old(c.cleared)
  {
    if request.Delete? {
      c.Delete(request.key);
    } else if request.DeleteByPrefix? {
      var _ := c.DeleteByPrefix(request.prefix);
    } else if request.Sweep? {
      c.CleanupExpired(now);
    } else {
      c.Clear();
    }
  }
}
