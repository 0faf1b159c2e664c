/** The in-process result cache (src/lib/cache.ts): a map from key to
    timestamped record, plus the keys in insertion order. It holds at most
    `MaxCacheSize` entries, evicting the oldest-inserted key when a new key
    arrives at capacity, and treats an entry older than `CacheTtl` as gone.
    The clock is a parameter: `now` is the value `Date.now()` would give. */
module Cache {
  import opened Wrappers
  import opened Strings
  import opened JobTypes

  /** 24 hours, in milliseconds. */
  const CacheTtl: int := 24 * 60 * 60 * 1000

  const MaxCacheSize: nat := 100

  datatype CacheEntry = CacheEntry(data: JobData, timestamp: int)

  /** The two fields of a `JobCache` taken together as a value. */
  datatype CacheState = CacheState(entries: map<string, CacheEntry>, keys: seq<string>)

  const EmptyCache: CacheState := CacheState(map[], [])

  predicate NoDuplicates(keys: seq<string>) {
    forall i, j :: 0 <= i < j < |keys| ==> keys[i] != keys[j]
  }

  lemma ConsNoDuplicates(a: string, ks: seq<string>)
    ensures NoDuplicates(ks) && a !in ks ==> NoDuplicates([a] + ks)
  {
    var r := [a] + ks;
    forall i, j | 0 <= i < j < |r| && NoDuplicates(ks) && a !in ks ensures r[i] != r[j] {
      assert r[j] == ks[j - 1];
      if i > 0 {
        assert r[i] == ks[i - 1];
      }
    }
  }

  lemma SnocNoDuplicates(ks: seq<string>, a: string)
    ensures NoDuplicates(ks) && a !in ks ==> NoDuplicates(ks + [a])
  {
    var r := ks + [a];
    forall i, j | 0 <= i < j < |r| && NoDuplicates(ks) && a !in ks ensures r[i] != r[j] {
      assert r[i] == ks[i];
      if j < |ks| {
        assert r[j] == ks[j];
      }
    }
  }

  /** Dropping the last key keeps the rest distinct, and the last key is not among them. */
  lemma InitNoDuplicates(ks: seq<string>)
    requires ks != []
    ensures NoDuplicates(ks) ==> NoDuplicates(ks[..|ks| - 1]) && ks[|ks| - 1] !in ks[..|ks| - 1]
  {
  }

  /** The invariant the cache keeps: `keys` lists each key of the map
      exactly once, and there are at most `MaxCacheSize` of them. */
  ghost predicate Consistent(s: CacheState) {
    && NoDuplicates(s.keys)
    && (forall k :: k in s.entries <==> k in s.keys)
    && |s.keys| <= MaxCacheSize
  }

  /** The expiry test of `get` and `cleanup`: strictly older than the TTL. */
  predicate Expired(e: CacheEntry, now: int) {
    now - e.timestamp > CacheTtl
  }

  // ---------------------------------------------------------------------
  // the operations, on values

  /** `set(key, data)` as the code should behave: at capacity a new key
      first evicts `keys[0]` from both the list and the map. */
  function SetSpec(s: CacheState, key: string, data: JobData, now: int): CacheState {
    var evict := |s.keys| >= MaxCacheSize && key !in s.entries && |s.keys| > 0;
    var entries := if evict then s.entries - {s.keys[0]} else s.entries;
    var keys := if evict then s.keys[1..] else s.keys;
    CacheState(entries[key := CacheEntry(data, now)], if key !in entries then keys + [key] else keys)
  }

  /** `set(key, data)` exactly as written: the evicted key is deleted from
      the map only when it is truthy, so an evicted `""` stays in the map. */
  function SetAsWritten(s: CacheState, key: string, data: JobData, now: int): CacheState {
    var evict := |s.keys| >= MaxCacheSize && key !in s.entries && |s.keys| > 0;
    var entries := if evict && s.keys[0] != "" then s.entries - {s.keys[0]} else s.entries;
    var keys := if evict then s.keys[1..] else s.keys;
    CacheState(entries[key := CacheEntry(data, now)], if key !in entries then keys + [key] else keys)
  }

  /** `keys.filter(k => k !== key)`. */
  function Without(keys: seq<string>, key: string): (r: seq<string>)
    ensures forall k :: k in r <==> k in keys && k != key
    ensures NoDuplicates(keys) ==> NoDuplicates(r)
    ensures |r| <= |keys|
  {
    if keys == [] then []
    else
      var rest := Without(keys[1..], key);
      assert forall k :: k in keys <==> k == keys[0] || k in keys[1..];
      assert NoDuplicates(keys) ==> NoDuplicates(keys[1..]) && keys[0] !in keys[1..];
      ConsNoDuplicates(keys[0], rest);
      if keys[0] == key then rest else [keys[0]] + rest
  }

  /** The value `get(key)` returns. */
  function GetValue(s: CacheState, key: string, now: int): Option<JobData> {
    if key !in s.entries || Expired(s.entries[key], now) then None else Some(s.entries[key].data)
  }

  /** The state `get(key)` leaves: an expired entry is removed from both structures. */
  function GetState(s: CacheState, key: string, now: int): CacheState {
    if key in s.entries && Expired(s.entries[key], now) then CacheState(s.entries - {key}, Without(s.keys, key))
    else s
  }

  /** The map after `cleanup` has visited the keys `ks` in order, deleting
      each one whose entry (still) exists and is expired. */
  function ExpireKeys(m: map<string, CacheEntry>, ks: seq<string>, now: int): (r: map<string, CacheEntry>)
    ensures forall k :: k in r ==> k in m && r[k] == m[k]
    ensures forall k :: k in m ==> (k in r <==> !(k in ks && Expired(m[k], now)))
    decreases |ks|
  {
    if ks == [] then m
    else
      var prev := ExpireKeys(m, ks[..|ks| - 1], now);
      var k := ks[|ks| - 1];
      assert forall x :: x in ks <==> x in ks[..|ks| - 1] || x == k;
      if k in prev && Expired(prev[k], now) then prev - {k} else prev
  }

  /** The keys `cleanup`'s filter keeps, in order; `FreshKeysMembers` says
      which they are. */
  function FreshKeys(m: map<string, CacheEntry>, ks: seq<string>, now: int): (r: seq<string>)
    ensures |r| <= |ks|
    decreases |ks|
  {
    if ks == [] then []
    else
      var prev := FreshKeys(m, ks[..|ks| - 1], now);
      var k := ks[|ks| - 1];
      if k in m && Expired(m[k], now) then prev else prev + [k]
  }

  /** The filter keeps exactly the keys without an expired entry, and
      keeps distinct keys distinct. */
  lemma {:induction false} FreshKeysMembers(m: map<string, CacheEntry>, ks: seq<string>, now: int)
    ensures forall k :: k in FreshKeys(m, ks, now) <==> k in ks && !(k in m && Expired(m[k], now))
    ensures NoDuplicates(ks) ==> NoDuplicates(FreshKeys(m, ks, now))
    decreases |ks|
  {
    if ks != [] {
      var init := ks[..|ks| - 1];
      var k := ks[|ks| - 1];
      FreshKeysMembers(m, init, now);
      assert forall x :: x in ks <==> x in init || x == k;
      InitNoDuplicates(ks);
      SnocNoDuplicates(FreshKeys(m, init, now), k);
    }
  }

  /** The state `cleanup()` leaves. */
  function CleanupSpec(s: CacheState, now: int): CacheState {
    CacheState(ExpireKeys(s.entries, s.keys, now), FreshKeys(s.entries, s.keys, now))
  }

  // ---------------------------------------------------------------------
  // the class

  class JobCache {
    /** `cache`: key to timestamped record. */
    var entries: map<string, CacheEntry>
    /** `keys`: the keys in insertion order, oldest first. */
    var keys: seq<string>

    function State(): CacheState
      reads this
    {
      CacheState(entries, keys)
    }

    ghost predicate Valid()
      reads this
    {
      Consistent(State())
    }

    constructor ()
      ensures Valid() && State() == EmptyCache
    {
      entries := map[];
      keys := [];
    }

    /** `set(key, data)` at time `now`. */
    method Set(key: string, data: JobData, now: int)
      requires Valid()
      modifies this
      ensures Valid()
      ensures State() == SetSpec(old(State()), key, data, now)
    {
      SetKeepsConsistent(State(), key, data, now);
      if |keys| >= MaxCacheSize && key !in entries {
        var oldestKey := keys[0];
        keys := keys[1..];
        entries := entries - {oldestKey};
      }
      if key !in entries {
        keys := keys + [key];
      }
      entries := entries[key := CacheEntry(data, now)];
    }

    /** `get(key)` at time `now`. */
    method Get(key: string, now: int) returns (r: Option<JobData>)
      requires Valid()
      modifies this
      ensures Valid()
      ensures r == GetValue(old(State()), key, now)
      ensures State() == GetState(old(State()), key, now)
    {
      if key !in entries || Expired(entries[key], now) {
        if key in entries {
          entries := entries - {key};
          keys := Without(keys, key);
        }
        return None;
      }
      return Some(entries[key].data);
    }

    /** `clear()`. */
    method Clear()
      requires Valid()
      modifies this
      ensures Valid() && State() == EmptyCache
    {
      entries := map[];
      keys := [];
    }

    /** `size()`: the number of map entries, which is also the length of
        the key list and never above the capacity. */
    method Size() returns (n: nat)
      requires Valid()
      ensures n == |entries| && n == |keys| && n <= MaxCacheSize
    {
      ConsistentSize(State());
      n := |entries|;
    }

    /** `cleanup()` at time `now`: one pass over the keys in order. */
    method Cleanup(now: int)
      requires Valid()
      modifies this
      ensures Valid()
      ensures State() == CleanupSpec(old(State()), now)
    {
      var oldKeys := keys;
      ghost var oldEntries := entries;
      var survivors: seq<string> := [];
      for i := 0 to |oldKeys|
        invariant Consistent(CacheState(oldEntries, oldKeys))
        invariant entries == ExpireKeys(oldEntries, oldKeys[..i], now)
        invariant survivors == FreshKeys(oldEntries, oldKeys[..i], now)
      {
        var key := oldKeys[i];
        CleanupStep(oldEntries, oldKeys, i, now);
        if key in entries && Expired(entries[key], now) {
          entries := entries - {key};
        } else {
          survivors := survivors + [key];
        }
      }
      assert oldKeys[..|oldKeys|] == oldKeys;
      keys := survivors;
      CleanupKeepsConsistent(CacheState(oldEntries, oldKeys), now);
    }
  }

  // ---------------------------------------------------------------------
  // properties

  function KeySet(keys: seq<string>): set<string> {
    set k | k in keys
  }

  lemma {:induction false} DistinctKeysCount(keys: seq<string>)
    requires NoDuplicates(keys)
    ensures |KeySet(keys)| == |keys|
  {
    if keys != [] {
      DistinctKeysCount(keys[1..]);
      assert KeySet(keys) == {keys[0]} + KeySet(keys[1..]);
      assert keys[0] !in KeySet(keys[1..]);
    } else {
      assert KeySet(keys) == {};
    }
  }

  /** `size()` is the length of `keys`, so it never exceeds the capacity. */
  lemma ConsistentSize(s: CacheState)
    requires Consistent(s)
    ensures |s.entries| == |s.keys| <= MaxCacheSize
  {
    assert s.entries.Keys == KeySet(s.keys);
    DistinctKeysCount(s.keys);
  }

  /** `set` keeps the invariant: in particular, a new key at capacity
      evicts one, so the size never goes above `MaxCacheSize`. */
  lemma SetKeepsConsistent(s: CacheState, key: string, data: JobData, now: int)
    requires Consistent(s)
    ensures Consistent(SetSpec(s, key, data, now))
    ensures |SetSpec(s, key, data, now).entries| <= MaxCacheSize
  {
    var t := SetSpec(s, key, data, now);
    if key in s.entries {
      assert t.keys == s.keys;
    } else if |s.keys| >= MaxCacheSize {
      var rest := s.keys[1..];
      assert forall k :: k in s.keys <==> k == s.keys[0] || k in rest;
      assert NoDuplicates(rest) && s.keys[0] !in rest;
      SnocNoDuplicates(rest, key);
      assert t.keys == rest + [key];
    } else {
      SnocNoDuplicates(s.keys, key);
      assert t.keys == s.keys + [key];
    }
    ConsistentSize(t);
  }

  /** A value just stored is what `get` returns at the same instant. */
  lemma SetThenGet(s: CacheState, key: string, data: JobData, now: int)
    ensures GetValue(SetSpec(s, key, data, now), key, now) == Some(data)
    ensures GetState(SetSpec(s, key, data, now), key, now) == SetSpec(s, key, data, now)
  {
  }

  /** Overwriting a present key refreshes its entry, keeps its place in the
      eviction order and evicts nothing. */
  lemma OverwriteKeepsOrder(s: CacheState, key: string, data: JobData, now: int)
    requires key in s.entries
    ensures SetSpec(s, key, data, now).keys == s.keys
    ensures SetSpec(s, key, data, now).entries == s.entries[key := CacheEntry(data, now)]
  {
  }

  /** A new key at capacity evicts exactly the oldest key and goes last. */
  lemma SetEvictsOldest(s: CacheState, key: string, data: JobData, now: int)
    requires Consistent(s) && |s.keys| == MaxCacheSize && key !in s.entries
    ensures SetSpec(s, key, data, now).keys == s.keys[1..] + [key]
    ensures s.keys[0] !in SetSpec(s, key, data, now).entries
    ensures |SetSpec(s, key, data, now).entries| == MaxCacheSize
  {
    SetKeepsConsistent(s, key, data, now);
    ConsistentSize(SetSpec(s, key, data, now));
    assert s.keys[0] !in s.keys[1..];
  }

  /** An entry is still served at exactly the TTL, and is gone (from both
      structures) once it is strictly older. */
  lemma GetExpiry(s: CacheState, key: string, data: JobData, t: int, now: int)
    requires key in s.entries && s.entries[key] == CacheEntry(data, t)
    ensures now - t <= CacheTtl ==> GetValue(s, key, now) == Some(data) && GetState(s, key, now) == s
    ensures now - t > CacheTtl ==>
      GetValue(s, key, now) == None && key !in GetState(s, key, now).entries && key !in GetState(s, key, now).keys
  {
  }

  /** `get` on an absent key changes nothing. */
  lemma GetAbsentChangesNothing(s: CacheState, key: string, now: int)
    requires key !in s.entries
    ensures GetValue(s, key, now) == None && GetState(s, key, now) == s
  {
  }

  /** `get` keeps the invariant. */
  lemma GetKeepsConsistent(s: CacheState, key: string, now: int)
    requires Consistent(s)
    ensures Consistent(GetState(s, key, now))
  {
  }

  /** `cleanup` removes exactly the expired entries, leaves the others as
      they were, and keeps the invariant. */
  lemma CleanupKeepsConsistent(s: CacheState, now: int)
    requires Consistent(s)
    ensures forall k :: k in CleanupSpec(s, now).entries <==> k in s.entries && !Expired(s.entries[k], now)
    ensures forall k :: k in CleanupSpec(s, now).entries ==> CleanupSpec(s, now).entries[k] == s.entries[k]
    ensures Consistent(CleanupSpec(s, now))
  {
    FreshKeysMembers(s.entries, s.keys, now);
  }

  /** One iteration of `cleanup`'s loop: the key at position `i` is tested
      against the map as the earlier iterations left it. */
  lemma CleanupStep(m: map<string, CacheEntry>, ks: seq<string>, i: nat, now: int)
    requires Consistent(CacheState(m, ks)) && i < |ks|
    ensures var cur := ExpireKeys(m, ks[..i], now);
      var drop := ks[i] in cur && Expired(cur[ks[i]], now);
      && ExpireKeys(m, ks[..i + 1], now) == (if drop then cur - {ks[i]} else cur)
      && FreshKeys(m, ks[..i + 1], now) == FreshKeys(m, ks[..i], now) + (if drop then [] else [ks[i]])
  {
    var k := ks[i];
    assert ks[..i + 1][..i] == ks[..i];
    assert k !in ks[..i];
    assert k in m;
  }

  /** `cleanup` keeps the survivors in their insertion order: its filter
      works key by key, so it distributes over a split of the key list. */
  lemma {:induction false} CleanupKeepsOrder(m: map<string, CacheEntry>, ks1: seq<string>, ks2: seq<string>, now: int)
    ensures FreshKeys(m, ks1 + ks2, now) == FreshKeys(m, ks1, now) + FreshKeys(m, ks2, now)
    decreases |ks2|
  {
    if ks2 == [] {
      assert ks1 + ks2 == ks1;
    } else {
      var init := ks2[..|ks2| - 1];
      var k := ks2[|ks2| - 1];
      assert ks2 == init + [k];
      assert ks1 + ks2 == (ks1 + init) + [k];
      FreshKeysSnoc(m, ks1 + init, k, now);
      FreshKeysSnoc(m, init, k, now);
      CleanupKeepsOrder(m, ks1, init, now);
    }
  }

  /** The filter on one more key: that key is kept or dropped on its own. */
  lemma FreshKeysSnoc(m: map<string, CacheEntry>, ks: seq<string>, k: string, now: int)
    ensures FreshKeys(m, ks + [k], now)
      == FreshKeys(m, ks, now) + (if k in m && Expired(m[k], now) then [] else [k])
  {
    assert (ks + [k])[..|ks|] == ks;
  }

  /** `clear` leaves nothing, so `size()` is 0. */
  lemma ClearedIsEmpty()
    ensures Consistent(EmptyCache) && |EmptyCache.entries| == 0
  {
  }

  /** A key not yet present goes to the end of the order, after evicting
      the oldest key when the cache is full. */
  lemma SetNewKey(s: CacheState, key: string, data: JobData, now: int)
    requires Consistent(s) && key !in s.keys
    ensures Consistent(SetSpec(s, key, data, now))
    ensures SetSpec(s, key, data, now).keys == (if |s.keys| >= MaxCacheSize then s.keys[1..] else s.keys) + [key]
  {
    SetKeepsConsistent(s, key, data, now);
  }

  /** Dropping the first of a window over all but the last key, and adding
      the last key, slides the window one place to the right. */
  lemma SlideWindow(ks: seq<string>, lo: nat)
    requires lo < |ks| - 1
    ensures ks[..|ks| - 1][lo..][1..] + [ks[|ks| - 1]] == ks[lo + 1..]
  {
  }

  /** Storing the keys `ks` one after another, starting from an empty cache. */
  function InsertAll(ks: seq<string>, data: JobData, now: int): CacheState
    decreases |ks|
  {
    if ks == [] then EmptyCache
    else SetSpec(InsertAll(ks[..|ks| - 1], data, now), ks[|ks| - 1], data, now)
  }

  /** The last `MaxCacheSize` keys of `ks`. */
  function Newest(ks: seq<string>): (r: seq<string>)
    ensures |r| <= MaxCacheSize
  {
    ks[if |ks| > MaxCacheSize then |ks| - MaxCacheSize else 0..]
  }

  /** The window of newest keys moves on by one with each key appended. */
  lemma NewestSnoc(ks: seq<string>)
    requires ks != []
    ensures var w := Newest(ks[..|ks| - 1]);
      Newest(ks) == (if |w| >= MaxCacheSize then w[1..] else w) + [ks[|ks| - 1]]
  {
    var n := |ks|;
    var front := ks[..n - 1];
    var lo := if n - 1 > MaxCacheSize then n - 1 - MaxCacheSize else 0;
    if n - 1 >= MaxCacheSize {
      SlideWindow(ks, lo);
    } else {
      assert front + [ks[n - 1]] == ks;
    }
  }

  /** Storing the next distinct key moves the window of newest keys on by one. */
  lemma InsertNext(prev: CacheState, ks: seq<string>, data: JobData, now: int)
    requires NoDuplicates(ks) && ks != []
    requires Consistent(prev) && prev.keys == Newest(ks[..|ks| - 1])
    ensures Consistent(SetSpec(prev, ks[|ks| - 1], data, now))
    ensures SetSpec(prev, ks[|ks| - 1], data, now).keys == Newest(ks)
  {
    var n := |ks|;
    var front := ks[..n - 1];
    var key := ks[n - 1];
    InitNoDuplicates(ks);
    var lo := if n - 1 > MaxCacheSize then n - 1 - MaxCacheSize else 0;
    assert forall x :: x in front[lo..] ==> x in front;
    assert key !in prev.keys;
    SetNewKey(prev, key, data, now);
    NewestSnoc(ks);
  }

  /** After distinct keys are stored one by one, the cache holds exactly the
      last `MaxCacheSize` of them, oldest first. */
  lemma {:induction false} InsertAllKeepsNewest(ks: seq<string>, data: JobData, now: int)
    requires NoDuplicates(ks)
    ensures Consistent(InsertAll(ks, data, now))
    ensures InsertAll(ks, data, now).keys == Newest(ks)
    decreases |ks|
  {
    if ks != [] {
      var front := ks[..|ks| - 1];
      InitNoDuplicates(ks);
      InsertAllKeepsNewest(front, data, now);
      InsertNext(InsertAll(front, data, now), ks, data, now);
    }
  }

  /** Storing 101 distinct keys leaves exactly 100, without the first one. */
  lemma OneOverCapacityDropsFirst(ks: seq<string>, data: JobData, now: int)
    requires NoDuplicates(ks) && |ks| == MaxCacheSize + 1
    ensures ks[0] !in InsertAll(ks, data, now).entries
    ensures forall j :: 1 <= j < |ks| ==> ks[j] in InsertAll(ks, data, now).entries
    ensures |InsertAll(ks, data, now).entries| == MaxCacheSize
  {
    InsertAllKeepsNewest(ks, data, now);
    var s := InsertAll(ks, data, now);
    ConsistentSize(s);
    assert s.keys == ks[1..];
    forall j | 1 <= j < |ks| ensures ks[j] in s.entries {
      assert ks[j] == s.keys[j - 1];
    }
  }

  // ---------------------------------------------------------------------
  // the empty-key eviction, as written

  /** With the code as written, evicting an empty-string key at capacity
      leaves it in the map but not in `keys`: the two structures disagree
      and `size()` reports 101. */
  lemma EmptyKeyEvictionOverflows(s: CacheState, key: string, data: JobData, now: int)
    requires Consistent(s) && |s.keys| == MaxCacheSize && s.keys[0] == "" && key !in s.entries
    ensures "" in SetAsWritten(s, key, data, now).entries
    ensures "" !in SetAsWritten(s, key, data, now).keys
    ensures |SetAsWritten(s, key, data, now).entries| == MaxCacheSize + 1
  {
    ConsistentSize(s);
    assert "" !in s.keys[1..];
  }

  /** A reachable state meeting the conditions above: the keys "" and
      "1" to "99" stored in that order. */
  lemma EmptyKeyEvictionReachable(data: JobData, now: int)
    ensures exists s: CacheState :: Consistent(s) && |s.keys| == MaxCacheSize && s.keys[0] == "" && "x" !in s.entries
  {
    var ks := seq(MaxCacheSize, i requires 0 <= i < MaxCacheSize => if i == 0 then "" else NatToDecimal(i));
    forall i, j | 0 <= i < j < |ks| ensures ks[i] != ks[j] {
      if i > 0 {
        DecimalRoundTrip(i);
        DecimalRoundTrip(j);
      }
    }
    var entries := map k | k in ks :: CacheEntry(data, now);
    var s := CacheState(entries, ks);
    forall k | k in ks ensures k != "x" {
      var i :| 0 <= i < |ks| && ks[i] == k;
      if i > 0 {
        assert IsDigit(k[0]);
      }
    }
    assert Consistent(s);
  }
}
