/** `LRUCache`: an ordered map from key to entry, kept in recency order
    (least recently used first), with a hard size bound and a time-to-live
    per entry. The current time is a parameter `now`; `set` reads the clock
    twice in Python, and the two readings are one `now` here. */
module LruCache {
  import opened Wrappers

  /** One cached result, as stored under its key. */
  datatype Entry<V> = Entry(key: string, value: V, expiresAt: int, createdAt: int)

  /** The cache: its entries in recency order, and its configuration. */
  datatype Cache<V> = Cache(entries: seq<Entry<V>>, maxSize: int, defaultTtl: int)

  /** What `get` returns, paired with the cache as `get` leaves it. */
  datatype Read<V> = Read(cache: Cache<V>, found: Option<V>)

  /** An OrderedDict never holds a key twice. */
  predicate DistinctKeys<V>(s: seq<Entry<V>>)
  {
    forall i, j :: 0 <= i < j < |s| ==> s[i].key != s[j].key
  }

  predicate Valid<V>(c: Cache<V>)
  {
    DistinctKeys(c.entries)
  }

  /** The size bound every `set` restores. */
  predicate WithinBound<V>(c: Cache<V>)
  {
    |c.entries| <= c.maxSize
  }

  function Keys<V>(s: seq<Entry<V>>): set<string>
  {
    set i | 0 <= i < |s| :: s[i].key
  }

  /** Lazy expiry compares strictly: an entry expiring exactly now is still live. */
  predicate Expired<V>(e: Entry<V>, now: int)
  {
    e.expiresAt < now
  }

  /** `s` without the entries stored under `key`, the rest in their order. */
  function Remove<V>(s: seq<Entry<V>>, key: string): (r: seq<Entry<V>>)
    ensures |r| <= |s|
  {
    if s == [] then []
    else if s[0].key == key then Remove(s[1..], key)
    else [s[0]] + Remove(s[1..], key)
  }

  /** `LRUCache(max_size, default_ttl)`: an empty cache. */
  function Create<V>(maxSize: int, defaultTtl: int): (c: Cache<V>)
    ensures Valid(c) && Size(c) == 0
    ensures maxSize >= 0 ==> WithinBound(c)
  {
    Cache([], maxSize, defaultTtl)
  }

  /** `size()`: every stored entry, expired or not. */
  function Size<V>(c: Cache<V>): nat
  {
    |c.entries|
  }

  /** `clear()`. */
  function Clear<V>(c: Cache<V>): (r: Cache<V>)
    ensures Size(r) == 0 && Valid(r)
    ensures r.maxSize == c.maxSize && r.defaultTtl == c.defaultTtl
  {
    c.(entries := [])
  }

  lemma {:induction false} RemoveMissing<V>(s: seq<Entry<V>>, key: string)
    requires key !in Keys(s)
    ensures Remove(s, key) == s
  {
    if s != [] {
      assert s[0].key in Keys(s);
      assert Keys(s[1..]) <= Keys(s) by {
        forall k | k in Keys(s[1..]) ensures k in Keys(s) {
          var j :| 0 <= j < |s[1..]| && s[1..][j].key == k;
          assert s[j + 1].key == k;
        }
      }
      RemoveMissing(s[1..], key);
      assert s == [s[0]] + s[1..];
    }
  }

  /** Removing a stored key cuts out exactly its one entry. */
  lemma {:induction false} RemoveAt<V>(s: seq<Entry<V>>, i: nat)
    requires DistinctKeys(s) && i < |s|
    ensures Remove(s, s[i].key) == s[..i] + s[i + 1..]
  {
    if i == 0 {
      assert s[1..] == s[..0] + s[1..];
      assert s[i].key !in Keys(s[1..]) by {
        forall j | 0 <= j < |s[1..]| ensures s[1..][j].key != s[0].key {
          assert s[1..][j] == s[j + 1];
        }
      }
      RemoveMissing(s[1..], s[i].key);
    } else {
      RemoveAt(s[1..], i - 1);
      assert s[1..][i - 1] == s[i];
      assert s[..i] == [s[0]] + s[1..][..i - 1];
      assert s[i + 1..] == s[1..][i..];
    }
  }

  lemma SliceOutDistinct<V>(s: seq<Entry<V>>, i: nat, e: Entry<V>)
    requires DistinctKeys(s) && i < |s| && e.key == s[i].key
    ensures DistinctKeys(s[..i] + s[i + 1..])
    ensures DistinctKeys(s[..i] + s[i + 1..] + [e])
    ensures Keys(s[..i] + s[i + 1..] + [e]) == Keys(s)
  {
    var t := s[..i] + s[i + 1..];
    var u := t + [e];
    forall a | 0 <= a < |t| ensures t[a] == s[if a < i then a else a + 1] {
    }
    forall a, b | 0 <= a < b < |u| ensures u[a].key != u[b].key {
      var a' := if a < i then a else a + 1;
      var b' := if b == |t| then i else if b < i then b else b + 1;
      assert u[a].key == s[a'].key && u[b].key == s[b'].key;
    }
    forall k | k in Keys(s) ensures k in Keys(u) {
      var j :| 0 <= j < |s| && s[j].key == k;
      if j < i { assert u[j] == s[j]; }
      else if j == i { assert u[|t|] == e; }
      else { assert u[j - 1] == s[j]; }
    }
    forall k | k in Keys(u) ensures k in Keys(s) {
      var j :| 0 <= j < |u| && u[j].key == k;
      if j == |t| { assert s[i].key == k; }
      else if j < i { assert s[j] == u[j]; }
      else { assert s[j + 1] == u[j]; }
    }
  }

  /** The position of the entry stored under `key`. */
  function IndexOf<V>(s: seq<Entry<V>>, key: string): (i: nat)
    requires key in Keys(s)
    ensures i < |s| && s[i].key == key
  {
    if s[0].key == key then 0
    else
      assert key in Keys(s[1..]) by {
        var j :| 0 <= j < |s| && s[j].key == key;
        assert s[1..][j - 1] == s[j];
      }
      1 + IndexOf(s[1..], key)
  }

  /** `get(key)` at time `now`. A missing key leaves the cache as it is; an
      expired entry is deleted and reported missing; a live entry is
      returned and moved to the most recently used end. */
  function Get<V>(c: Cache<V>, key: string, now: int): (r: Read<V>)
    ensures r.cache.maxSize == c.maxSize && r.cache.defaultTtl == c.defaultTtl
    ensures r.found.Some? ==> key in Keys(c.entries)
  {
    if key !in Keys(c.entries) then
      Read(c, None)
    else
      var e := c.entries[IndexOf(c.entries, key)];
      if e.expiresAt < now then
        Read(c.(entries := Remove(c.entries, key)), None)
      else
        Read(c.(entries := Remove(c.entries, key) + [e]), Some(e.value))
  }

  lemma KeyAt<V>(s: seq<Entry<V>>, i: nat, j: nat)
    requires DistinctKeys(s) && i < |s| && j < |s| && s[i].key == s[j].key
    ensures i == j
  {
  }

  /** `get` on a missing key returns nothing and changes nothing. */
  lemma GetMissing<V>(c: Cache<V>, key: string, now: int)
    requires key !in Keys(c.entries)
    ensures Get(c, key, now) == Read(c, None)
  {
  }

  /** `get` on an expired entry (`expires_at < now`) reports a miss and
      deletes that entry only, keeping the others in their order. */
  lemma GetExpired<V>(c: Cache<V>, i: nat, now: int)
    requires Valid(c) && i < |c.entries| && Expired(c.entries[i], now)
    ensures Get(c, c.entries[i].key, now).found == None
    ensures Get(c, c.entries[i].key, now).cache.entries == c.entries[..i] + c.entries[i + 1..]
    ensures Valid(Get(c, c.entries[i].key, now).cache)
  {
    var key := c.entries[i].key;
    assert key in Keys(c.entries);
    KeyAt(c.entries, i, IndexOf(c.entries, key));
    RemoveAt(c.entries, i);
    SliceOutDistinct(c.entries, i, c.entries[i]);
  }

  /** `get` on a live entry (`expires_at >= now`, so an entry expiring exactly
      now still counts) returns its value and moves it to the most recently
      used end; the other entries keep their relative order and the set of
      keys does not change. */
  lemma GetHit<V>(c: Cache<V>, i: nat, now: int)
    requires Valid(c) && i < |c.entries| && !Expired(c.entries[i], now)
    ensures Get(c, c.entries[i].key, now).found == Some(c.entries[i].value)
    ensures Get(c, c.entries[i].key, now).cache.entries == c.entries[..i] + c.entries[i + 1..] + [c.entries[i]]
    ensures Keys(Get(c, c.entries[i].key, now).cache.entries) == Keys(c.entries)
    ensures Valid(Get(c, c.entries[i].key, now).cache)
  {
    var key := c.entries[i].key;
    assert key in Keys(c.entries);
    KeyAt(c.entries, i, IndexOf(c.entries, key));
    RemoveAt(c.entries, i);
    SliceOutDistinct(c.entries, i, c.entries[i]);
  }

  /** The entry `set` stores: `ttl` when one is given (0 included), the
      default otherwise. */
  function NewEntry<V>(c: Cache<V>, key: string, value: V, ttl: Option<int>, now: int): (e: Entry<V>)
    ensures e.key == key && e.value == value && e.createdAt == now
    ensures ttl.Some? ==> e.expiresAt == now + ttl.value
    ensures ttl.None? ==> e.expiresAt == now + c.defaultTtl
  {
    Entry(key, value, now + ttl.GetOr(c.defaultTtl), now)
  }

  /** `set(value, key, ttl)` at time `now`: store the entry at the most
      recently used end, replacing any entry under the same key, then evict
      the least recently used entry if the cache has grown past `maxSize`. */
  function Set<V>(c: Cache<V>, key: string, value: V, ttl: Option<int>, now: int): (r: Cache<V>)
    ensures r.maxSize == c.maxSize && r.defaultTtl == c.defaultTtl
  {
    var stored := Remove(c.entries, key) + [NewEntry(c, key, value, ttl, now)];
    if |stored| > c.maxSize then c.(entries := stored[1..]) else c.(entries := stored)
  }

  lemma AppendFresh<V>(s: seq<Entry<V>>, e: Entry<V>)
    requires DistinctKeys(s) && e.key !in Keys(s)
    ensures DistinctKeys(s + [e]) && DistinctKeys((s + [e])[1..])
    ensures Keys(s + [e]) == Keys(s) + {e.key}
  {
    forall j | 0 <= j < |s| ensures s[j].key != e.key {
      assert s[j].key in Keys(s);
    }
    var t := s + [e];
    forall k | k in Keys(t) ensures k in Keys(s) + {e.key} {
      var j :| 0 <= j < |t| && t[j].key == k;
      if j < |s| { assert t[j] == s[j]; }
    }
    forall k | k in Keys(s) + {e.key} ensures k in Keys(t) {
      if k == e.key { assert t[|s|] == e; } else {
        var j :| 0 <= j < |s| && s[j].key == k;
        assert t[j] == s[j];
      }
    }
  }

  lemma DropFrontDistinct<V>(s: seq<Entry<V>>)
    requires DistinctKeys(s) && s != []
    ensures DistinctKeys(s[1..])
  {
    forall a, b | 0 <= a < b < |s[1..]| ensures s[1..][a].key != s[1..][b].key {
      assert s[1..][a] == s[a + 1] && s[1..][b] == s[b + 1];
    }
  }

  /** `set` on a stored key replaces its value and expiry, moves it to the
      most recently used end, keeps the others in their order, and leaves
      the size unchanged. */
  lemma SetReplaces<V>(c: Cache<V>, i: nat, value: V, ttl: Option<int>, now: int)
    requires Valid(c) && WithinBound(c) && i < |c.entries|
    ensures Set(c, c.entries[i].key, value, ttl, now).entries
      == c.entries[..i] + c.entries[i + 1..] + [NewEntry(c, c.entries[i].key, value, ttl, now)]
    ensures Size(Set(c, c.entries[i].key, value, ttl, now)) == Size(c)
    ensures Valid(Set(c, c.entries[i].key, value, ttl, now))
  {
    RemoveAt(c.entries, i);
    SliceOutDistinct(c.entries, i, NewEntry(c, c.entries[i].key, value, ttl, now));
  }

  /** `set` on a new key while there is room appends it. */
  lemma SetInserts<V>(c: Cache<V>, key: string, value: V, ttl: Option<int>, now: int)
    requires Valid(c) && key !in Keys(c.entries) && |c.entries| < c.maxSize
    ensures Set(c, key, value, ttl, now).entries == c.entries + [NewEntry(c, key, value, ttl, now)]
    ensures Valid(Set(c, key, value, ttl, now))
  {
    RemoveMissing(c.entries, key);
    AppendFresh(c.entries, NewEntry(c, key, value, ttl, now));
  }

  /** `set` on a new key in a full cache evicts exactly the front (least
      recently used) entry, whether or not it has expired, and keeps the
      others in their order. */
  lemma SetEvicts<V>(c: Cache<V>, key: string, value: V, ttl: Option<int>, now: int)
    requires Valid(c) && key !in Keys(c.entries) && |c.entries| >= c.maxSize
    ensures Set(c, key, value, ttl, now).entries == (c.entries + [NewEntry(c, key, value, ttl, now)])[1..]
    ensures |c.entries| > 0 ==>
      Set(c, key, value, ttl, now).entries == c.entries[1..] + [NewEntry(c, key, value, ttl, now)]
    ensures Valid(Set(c, key, value, ttl, now))
  {
    RemoveMissing(c.entries, key);
    AppendFresh(c.entries, NewEntry(c, key, value, ttl, now));
  }

  /** After `set`, `size() <= max_size`, the keys stay distinct, and when
      `max_size >= 1` the key just set is the most recently used entry,
      holding the value and expiring `ttl` seconds from now: an explicit
      `ttl` is used as given, even 0, and only `None` falls back to the
      default. */
  lemma SetBound<V>(c: Cache<V>, key: string, value: V, ttl: Option<int>, now: int)
    requires Valid(c) && WithinBound(c)
    ensures WithinBound(Set(c, key, value, ttl, now))
    ensures Valid(Set(c, key, value, ttl, now))
    ensures c.maxSize >= 1 ==>
      var r := Set(c, key, value, ttl, now);
      && |r.entries| > 0
      && r.entries[|r.entries| - 1] == NewEntry(c, key, value, ttl, now)
      && r.entries[|r.entries| - 1].key == key
      && r.entries[|r.entries| - 1].value == value
      && (forall t :: ttl == Some(t) ==> r.entries[|r.entries| - 1].expiresAt == now + t)
      && (ttl == None ==> r.entries[|r.entries| - 1].expiresAt == now + c.defaultTtl)
  {
    if key in Keys(c.entries) {
      SetReplaces(c, IndexOf(c.entries, key), value, ttl, now);
    } else if |c.entries| < c.maxSize {
      SetInserts(c, key, value, ttl, now);
    } else {
      SetEvicts(c, key, value, ttl, now);
    }
  }

  /** A `get` after a `set` of the same key finds the value exactly while the
      entry has not expired: up to and including `now + ttl`. */
  lemma SetThenGet<V>(c: Cache<V>, key: string, value: V, ttl: Option<int>, now: int, later: int)
    requires Valid(c) && WithinBound(c) && c.maxSize >= 1
    ensures Get(Set(c, key, value, ttl, now), key, later).found
      == if later <= now + ttl.GetOr(c.defaultTtl) then Some(value) else None
  {
    SetBound(c, key, value, ttl, now);
    var r := Set(c, key, value, ttl, now);
    var i := |r.entries| - 1;
    if later <= now + ttl.GetOr(c.defaultTtl) {
      GetHit(r, i, later);
    } else {
      GetExpired(r, i, later);
    }
  }

  /** The entries `cleanup()` keeps: the live ones, in their order. */
  function LiveEntries<V>(s: seq<Entry<V>>, now: int): (r: seq<Entry<V>>)
    ensures |r| <= |s|
  {
    if s == [] then []
    else if Expired(s[0], now) then LiveEntries(s[1..], now)
    else [s[0]] + LiveEntries(s[1..], now)
  }

  function CountExpired<V>(s: seq<Entry<V>>, now: int): nat
  {
    if s == [] then 0
    else (if Expired(s[0], now) then 1 else 0) + CountExpired(s[1..], now)
  }

  /** The keys of the expired entries, front to back. The recursion peels
      off the last entry so that each step matches one append of
      `cleanup`'s first loop. */
  function ExpiredKeys<V>(s: seq<Entry<V>>, now: int): seq<string>
  {
    if s == [] then []
    else
      var last := s[|s| - 1];
      ExpiredKeys(s[..|s| - 1], now) + if Expired(last, now) then [last.key] else []
  }

  function AsSet(ks: seq<string>): set<string>
  {
    set k | k in ks
  }

  /** `s` without the entries whose keys are in `ks`. */
  function Without<V>(s: seq<Entry<V>>, ks: set<string>): seq<Entry<V>>
  {
    if s == [] then []
    else if s[0].key in ks then Without(s[1..], ks)
    else [s[0]] + Without(s[1..], ks)
  }

  lemma {:induction false} WithoutNothing<V>(s: seq<Entry<V>>)
    ensures Without(s, {}) == s
  {
    if s != [] {
      WithoutNothing(s[1..]);
      assert s == [s[0]] + s[1..];
    }
  }

  lemma {:induction false} RemoveWithout<V>(s: seq<Entry<V>>, ks: set<string>, k: string)
    ensures Remove(Without(s, ks), k) == Without(s, ks + {k})
  {
    if s != [] {
      RemoveWithout(s[1..], ks, k);
    }
  }

  lemma {:induction false} ExpiredKeysMembers<V>(s: seq<Entry<V>>, now: int)
    ensures forall k :: k in ExpiredKeys(s, now) <==>
      exists j :: 0 <= j < |s| && s[j].key == k && Expired(s[j], now)
    ensures |ExpiredKeys(s, now)| == CountExpired(s, now)
  {
    if s != [] {
      var init := s[..|s| - 1];
      ExpiredKeysMembers(init, now);
      CountExpiredSnoc(init, s[|s| - 1], now);
      assert s == init + [s[|s| - 1]];
      forall k | (exists j :: 0 <= j < |s| && s[j].key == k && Expired(s[j], now))
        ensures k in ExpiredKeys(s, now) {
        var j :| 0 <= j < |s| && s[j].key == k && Expired(s[j], now);
        if j < |s| - 1 { assert init[j] == s[j]; }
      }
      forall k | k in ExpiredKeys(s, now)
        ensures exists j :: 0 <= j < |s| && s[j].key == k && Expired(s[j], now) {
        if k in ExpiredKeys(init, now) {
          var j :| 0 <= j < |init| && init[j].key == k && Expired(init[j], now);
          assert s[j] == init[j];
        }
      }
    }
  }

  lemma {:induction false} CountExpiredSnoc<V>(s: seq<Entry<V>>, e: Entry<V>, now: int)
    ensures CountExpired(s + [e], now) == CountExpired(s, now) + if Expired(e, now) then 1 else 0
  {
    if s != [] {
      CountExpiredSnoc(s[1..], e, now);
      assert (s + [e])[1..] == s[1..] + [e];
    }
  }

  lemma {:induction false} WithinLive<V>(s: seq<Entry<V>>, ks: set<string>, now: int)
    requires forall j :: 0 <= j < |s| ==> (s[j].key in ks <==> Expired(s[j], now))
    ensures Without(s, ks) == LiveEntries(s, now)
  {
    if s != [] {
      assert forall j :: 0 <= j < |s[1..]| ==> s[1..][j] == s[j + 1];
      WithinLive(s[1..], ks, now);
    }
  }

  /** Deleting the expired keys one by one leaves exactly the live entries. */
  lemma WithoutExpiredKeys<V>(s: seq<Entry<V>>, now: int)
    requires DistinctKeys(s)
    ensures Without(s, AsSet(ExpiredKeys(s, now))) == LiveEntries(s, now)
  {
    var ks := AsSet(ExpiredKeys(s, now));
    ExpiredKeysMembers(s, now);
    forall j | 0 <= j < |s| ensures s[j].key in ks <==> Expired(s[j], now) {
      if s[j].key in ks {
        var m :| 0 <= m < |s| && s[m].key == s[j].key && Expired(s[m], now);
        KeyAt(s, m, j);
      }
    }
    WithinLive(s, ks, now);
  }

  lemma {:induction false} LiveAndExpired<V>(s: seq<Entry<V>>, now: int)
    ensures |LiveEntries(s, now)| + CountExpired(s, now) == |s|
  {
    if s != [] {
      LiveAndExpired(s[1..], now);
    }
  }

  /** Dropping the expired entries keeps the keys distinct and adds none. */
  lemma {:induction false} LiveEntriesDistinct<V>(s: seq<Entry<V>>, now: int)
    requires DistinctKeys(s)
    ensures DistinctKeys(LiveEntries(s, now))
    ensures Keys(LiveEntries(s, now)) <= Keys(s)
  {
    if s != [] {
      var t := s[1..];
      assert DistinctKeys(t) by {
        forall i, j | 0 <= i < j < |t| ensures t[i].key != t[j].key {
          assert t[i] == s[i + 1] && t[j] == s[j + 1];
        }
      }
      LiveEntriesDistinct(t, now);
      assert s[0].key !in Keys(t) by {
        forall i | 0 <= i < |t| ensures t[i].key != s[0].key {
          assert t[i] == s[i + 1];
        }
      }
      forall k | k in Keys(t) ensures k in Keys(s) {
        var i :| 0 <= i < |t| && t[i].key == k;
        assert s[i + 1] == t[i];
      }
      if !Expired(s[0], now) {
        var l := LiveEntries(t, now);
        assert LiveEntries(s, now) == [s[0]] + l;
        forall i, j | 0 <= i < j < |[s[0]] + l| ensures ([s[0]] + l)[i].key != ([s[0]] + l)[j].key {
          if i == 0 {
            assert ([s[0]] + l)[j] == l[j - 1];
            assert l[j - 1].key in Keys(l);
          } else {
            assert ([s[0]] + l)[i] == l[i - 1] && ([s[0]] + l)[j] == l[j - 1];
          }
        }
        forall k | k in Keys([s[0]] + l) ensures k in Keys(s) {
          var i :| 0 <= i < |[s[0]] + l| && ([s[0]] + l)[i].key == k;
          if i > 0 { assert ([s[0]] + l)[i] == l[i - 1]; assert l[i - 1].key in Keys(l); }
        }
      }
    }
  }

  /** `cleanup()` at time `now`: collect the keys of the expired entries,
      delete them one by one, and return how many were deleted. The swept
      cache is well formed and within its bound, and nothing in it has
      expired at `now`, so a second `cleanup()` at the same time returns 0. */
  method Cleanup<V>(c: Cache<V>, now: int) returns (r: Cache<V>, removed: nat)
    requires Valid(c)
    ensures r.entries == LiveEntries(c.entries, now)
    ensures removed == CountExpired(c.entries, now)
    ensures removed == Size(c) - Size(r)
    ensures r.maxSize == c.maxSize && r.defaultTtl == c.defaultTtl
    ensures Valid(r) && (WithinBound(c) ==> WithinBound(r))
    ensures CountExpired(r.entries, now) == 0
  {
    var keysToRemove: seq<string> := [];
    var i := 0;
    while i < |c.entries|
      invariant 0 <= i <= |c.entries|
      invariant keysToRemove == ExpiredKeys(c.entries[..i], now)
    {
      assert c.entries[..i + 1][..i] == c.entries[..i];
      if c.entries[i].expiresAt < now {
        keysToRemove := keysToRemove + [c.entries[i].key];
      }
      i := i + 1;
    }
    assert c.entries[..i] == c.entries;
    var entries := c.entries;
    WithoutNothing(c.entries);
    assert AsSet(keysToRemove[..0]) == {};
    removed := 0;
    var j := 0;
    while j < |keysToRemove|
      invariant 0 <= j <= |keysToRemove|
      invariant removed == j
      invariant entries == Without(c.entries, AsSet(keysToRemove[..j]))
    {
      RemoveWithout(c.entries, AsSet(keysToRemove[..j]), keysToRemove[j]);
      assert AsSet(keysToRemove[..j + 1]) == AsSet(keysToRemove[..j]) + {keysToRemove[j]} by {
        assert keysToRemove[..j + 1] == keysToRemove[..j] + [keysToRemove[j]];
      }
      entries := Remove(entries, keysToRemove[j]);
      removed := removed + 1;
      j := j + 1;
    }
    assert keysToRemove[..j] == keysToRemove;
    WithoutExpiredKeys(c.entries, now);
    ExpiredKeysMembers(c.entries, now);
    LiveAndExpired(c.entries, now);
    LiveEntriesDistinct(c.entries, now);
    LiveEntriesSpec(c.entries, now);
    r := c.(entries := entries);
  }

  /** The survivors of a sweep are exactly the live entries, and a second
      sweep at the same time removes nothing. */
  lemma {:induction false} LiveEntriesSpec<V>(s: seq<Entry<V>>, now: int)
    ensures forall e :: e in LiveEntries(s, now) <==> e in s && !Expired(e, now)
    ensures CountExpired(LiveEntries(s, now), now) == 0
    ensures LiveEntries(LiveEntries(s, now), now) == LiveEntries(s, now)
  {
    if s != [] {
      LiveEntriesSpec(s[1..], now);
      assert s == [s[0]] + s[1..];
    }
  }
}
