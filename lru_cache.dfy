/**
 * A bounded LRU map: a `LinkedHashMap` in access order whose eldest entry is
 * dropped after an insertion takes the size past the capacity. The map is
 * modelled as the sequence of its entries, least recently accessed first;
 * each public call is one atomic step (the lock is not modelled).
 */
module LruCache {
  import opened Wrappers

  // ----- the entry sequence, least recently accessed first -----

  function KeysOf<K, V>(s: seq<(K, V)>): set<K> {
    set i | 0 <= i < |s| :: s[i].0
  }

  ghost predicate DistinctKeys<K, V>(s: seq<(K, V)>) {
    forall i, j :: 0 <= i < j < |s| ==> s[i].0 != s[j].0
  }

  /** `cache[key]`: the value stored for `k`, or null. */
  function Lookup<K(==), V>(s: seq<(K, V)>, k: K): Option<V> {
    if s == [] then None
    else if s[0].0 == k then Some(s[0].1)
    else Lookup(s[1..], k)
  }

  /** The entries without `k`. */
  function Without<K(==), V>(s: seq<(K, V)>, k: K): seq<(K, V)> {
    if s == [] then []
    else if s[0].0 == k then Without(s[1..], k)
    else [s[0]] + Without(s[1..], k)
  }

  /** An access to `k` in access order: a present key moves to the most recent end. */
  function Touch<K(==), V>(s: seq<(K, V)>, k: K): seq<(K, V)> {
    match Lookup(s, k)
    case None => s
    case Some(v) => Without(s, k) + [(k, v)]
  }

  /** `removeEldestEntry` returning `size > capacity`: drop the eldest entry. */
  function Evict<K, V>(s: seq<(K, V)>, capacity: nat): seq<(K, V)> {
    if |s| > capacity then s[1..] else s
  }

  /** `cache[key] = value`: replace and move to the end, or append and then evict. */
  function Store<K(==), V>(s: seq<(K, V)>, k: K, v: V, capacity: nat): seq<(K, V)> {
    if Lookup(s, k).Some? then Without(s, k) + [(k, v)]
    else Evict(s + [(k, v)], capacity)
  }

  // ----- properties of the entry sequence -----

  lemma KeysOfConcat<K, V>(a: seq<(K, V)>, b: seq<(K, V)>)
    ensures KeysOf(a + b) == KeysOf(a) + KeysOf(b)
  {
    forall j | j in KeysOf(a + b) ensures j in KeysOf(a) + KeysOf(b) {
      var i :| 0 <= i < |a + b| && (a + b)[i].0 == j;
      if i < |a| { assert a[i] == (a + b)[i]; } else { assert b[i - |a|] == (a + b)[i]; }
    }
    forall j | j in KeysOf(a) ensures j in KeysOf(a + b) {
      var i :| 0 <= i < |a| && a[i].0 == j;
      assert (a + b)[i] == a[i];
    }
    forall j | j in KeysOf(b) ensures j in KeysOf(a + b) {
      var i :| 0 <= i < |b| && b[i].0 == j;
      assert (a + b)[|a| + i] == b[i];
    }
  }

  lemma KeysOfOne<K, V>(e: (K, V))
    ensures KeysOf([e]) == {e.0}
  {
    assert [e][0] == e;
  }

  lemma KeysOfCons<K, V>(s: seq<(K, V)>)
    requires s != []
    ensures KeysOf(s) == {s[0].0} + KeysOf(s[1..])
  {
    assert s == [s[0]] + s[1..];
    KeysOfConcat([s[0]], s[1..]);
    KeysOfOne(s[0]);
  }

  lemma DistinctTail<K, V>(s: seq<(K, V)>)
    requires DistinctKeys(s) && s != []
    ensures DistinctKeys(s[1..]) && s[0].0 !in KeysOf(s[1..])
  {
    forall a, b | 0 <= a < b < |s[1..]| ensures s[1..][a].0 != s[1..][b].0 {
      assert s[1..][a] == s[a + 1] && s[1..][b] == s[b + 1];
    }
    forall j | 0 <= j < |s[1..]| ensures s[1..][j].0 != s[0].0 {
      assert s[1..][j] == s[j + 1];
    }
  }

  lemma {:induction false} LookupPresent<K, V>(s: seq<(K, V)>, k: K)
    ensures Lookup(s, k).Some? <==> k in KeysOf(s)
    ensures forall i :: 0 <= i < |s| && s[i].0 == k && DistinctKeys(s) ==> Lookup(s, k) == Some(s[i].1)
  {
    if s != [] {
      LookupPresent(s[1..], k);
      KeysOfCons(s);
      forall i | 0 <= i < |s| && s[i].0 == k && DistinctKeys(s) ensures Lookup(s, k) == Some(s[i].1) {
        if i > 0 {
          assert s[1..][i - 1] == s[i];
          DistinctTail(s);
        }
      }
    }
  }

  lemma {:induction false} WithoutFacts<K, V>(s: seq<(K, V)>, k: K)
    ensures KeysOf(Without(s, k)) == KeysOf(s) - {k}
    ensures forall j :: j != k ==> Lookup(Without(s, k), j) == Lookup(s, j)
    ensures Lookup(Without(s, k), k) == None
    ensures DistinctKeys(s) ==> DistinctKeys(Without(s, k))
    ensures k !in KeysOf(s) ==> Without(s, k) == s
  {
    if s != [] {
      WithoutFacts(s[1..], k);
      LookupPresent(s, k);
      LookupPresent(s[1..], k);
      KeysOfCons(s);
      var w := Without(s[1..], k);
      if s[0].0 != k {
        KeysOfConcat([s[0]], w);
        KeysOfOne(s[0]);
        if DistinctKeys(s) {
          DistinctTail(s);
          assert s[0].0 !in KeysOf(w);
          forall a, b | 0 <= a < b < |[s[0]] + w| ensures ([s[0]] + w)[a].0 != ([s[0]] + w)[b].0 {
            if a == 0 {
              assert ([s[0]] + w)[b].0 == w[b - 1].0;
              assert w[b - 1].0 in KeysOf(w);
            } else {
              assert ([s[0]] + w)[a] == w[a - 1] && ([s[0]] + w)[b] == w[b - 1];
            }
          }
        }
        if k !in KeysOf(s) {
          assert s == [s[0]] + s[1..];
        }
      } else {
        if DistinctKeys(s) {
          DistinctTail(s);
        }
      }
    }
  }

  /** With distinct keys, removing `k` cuts exactly the entry of `k` and keeps the others in order. */
  lemma {:induction false} WithoutCutsOne<K, V>(s: seq<(K, V)>, k: K, i: nat)
    requires DistinctKeys(s)
    requires i < |s| && s[i].0 == k
    ensures Without(s, k) == s[..i] + s[i + 1..]
  {
    DistinctTail(s);
    if i == 0 {
      WithoutFacts(s[1..], k);
    } else {
      WithoutCutsOne(s[1..], k, i - 1);
      assert s[1..][..i - 1] + s[1..][i..] == s[1..i] + s[i + 1..];
      assert s[..i] == [s[0]] + s[1..i];
    }
  }

  /** The number of entries is the number of distinct keys (`size()`). */
  lemma {:induction false} SizeIsKeyCount<K, V>(s: seq<(K, V)>)
    requires DistinctKeys(s)
    ensures |s| == |KeysOf(s)|
  {
    if s != [] {
      var n := |s| - 1;
      var init := s[..n];
      assert DistinctKeys(init) by {
        forall a, b | 0 <= a < b < |init| ensures init[a].0 != init[b].0 {
          assert init[a] == s[a] && init[b] == s[b];
        }
      }
      SizeIsKeyCount(init);
      assert KeysOf(s) == KeysOf(init) + {s[n].0} by {
        forall j | j in KeysOf(s) ensures j in KeysOf(init) + {s[n].0} {
          var i :| 0 <= i < |s| && s[i].0 == j;
          if i < n { assert init[i].0 == j; }
        }
        forall j | j in KeysOf(init) ensures j in KeysOf(s) {
          var i :| 0 <= i < |init| && init[i].0 == j;
          assert s[i].0 == j;
        }
      }
      forall i | 0 <= i < |init| ensures init[i].0 != s[n].0 {
        assert init[i] == s[i];
      }
    }
  }

  /** Appending an entry whose key is new keeps the keys distinct. */
  lemma AppendFresh<K, V>(s: seq<(K, V)>, k: K, v: V)
    requires DistinctKeys(s) && k !in KeysOf(s)
    ensures DistinctKeys(s + [(k, v)])
    ensures KeysOf(s + [(k, v)]) == KeysOf(s) + {k}
  {
    var t := s + [(k, v)];
    forall a, b | 0 <= a < b < |t| ensures t[a].0 != t[b].0 {
      if b == |s| {
        assert t[a] == s[a];
        assert s[a].0 in KeysOf(s);
      } else {
        assert t[a] == s[a] && t[b] == s[b];
      }
    }
    assert KeysOf(t) == KeysOf(s) + {k} by {
      forall j | j in KeysOf(t) ensures j in KeysOf(s) + {k} {
        var i :| 0 <= i < |t| && t[i].0 == j;
        if i < |s| { assert s[i].0 == j; }
      }
      forall j | j in KeysOf(s) ensures j in KeysOf(t) {
        var i :| 0 <= i < |s| && s[i].0 == j;
        assert t[i].0 == j;
      }
      assert t[|s|].0 == k;
    }
  }

  /**
   * An access (`get`, or `getOrPut` on a present key) keeps the keys, the
   * values and the size, makes `k` the most recent entry, and keeps the
   * relative order of the others.
   */
  lemma TouchFacts<K, V>(s: seq<(K, V)>, k: K)
    requires DistinctKeys(s)
    ensures DistinctKeys(Touch(s, k)) && KeysOf(Touch(s, k)) == KeysOf(s) && |Touch(s, k)| == |s|
    ensures forall j :: Lookup(Touch(s, k), j) == Lookup(s, j)
    ensures Lookup(s, k).Some? ==> Touch(s, k)[|s| - 1] == (k, Lookup(s, k).value)
    ensures Without(Touch(s, k), k) == Without(s, k)
    ensures k !in KeysOf(s) ==> Touch(s, k) == s
  {
    LookupPresent(s, k);
    WithoutFacts(s, k);
    if k in KeysOf(s) {
      var i :| 0 <= i < |s| && s[i].0 == k;
      var v := Lookup(s, k).value;
      var w := Without(s, k);
      WithoutCutsOne(s, k, i);
      AppendFresh(w, k, v);
      SizeIsKeyCount(s);
      forall j ensures Lookup(Touch(s, k), j) == Lookup(s, j) {
        LookupAppend(w, k, v, j);
      }
      WithoutAppend(w, k, v);
    }
  }

  /** Looking up in a sequence extended at the end. */
  lemma {:induction false} LookupAppend<K, V>(s: seq<(K, V)>, k: K, v: V, j: K)
    ensures Lookup(s + [(k, v)], j) == if Lookup(s, j).Some? then Lookup(s, j) else if j == k then Some(v) else None
  {
    if s == [] {
      assert [(k, v)][1..] == [];
    } else {
      assert (s + [(k, v)])[1..] == s[1..] + [(k, v)];
      LookupAppend(s[1..], k, v, j);
    }
  }

  lemma {:induction false} WithoutAppend<K, V>(s: seq<(K, V)>, k: K, v: V)
    requires k !in KeysOf(s)
    ensures Without(s + [(k, v)], k) == s
  {
    if s == [] {
      assert [(k, v)][1..] == [];
    } else {
      assert (s + [(k, v)])[1..] == s[1..] + [(k, v)];
      assert s[0].0 in KeysOf(s);
      KeysOfCons(s);
      WithoutAppend(s[1..], k, v);
      assert s == [s[0]] + s[1..];
    }
  }

  /**
   * `put` and the insertion of `getOrPut` keep the keys distinct and the size
   * within the capacity; the new value is stored when there is room for it.
   * A present key is replaced in place of size and becomes most recent; an
   * absent key is appended, and only when that takes the size past the
   * capacity is one entry dropped: the eldest.
   */
  lemma StoreFacts<K, V>(s: seq<(K, V)>, k: K, v: V, capacity: nat)
    requires DistinctKeys(s) && |s| <= capacity
    ensures var t := Store(s, k, v, capacity);
      && DistinctKeys(t) && |t| <= capacity
      && (capacity > 0 ==> Lookup(t, k) == Some(v) && t[|t| - 1] == (k, v))
      && (forall j :: j != k ==> Lookup(t, j) == Lookup(s, j) || (s != [] && j == s[0].0 && Lookup(t, j) == None))
    ensures k in KeysOf(s) ==>
      Store(s, k, v, capacity) == Without(s, k) + [(k, v)] && |Store(s, k, v, capacity)| == |s|
    ensures k !in KeysOf(s) && |s| < capacity ==> Store(s, k, v, capacity) == s + [(k, v)]
    ensures k !in KeysOf(s) && |s| == capacity ==> Store(s, k, v, capacity) == (s + [(k, v)])[1..]
    ensures KeysOf(s) - KeysOf(Store(s, k, v, capacity)) <= (if k !in KeysOf(s) && |s| == capacity > 0 then {s[0].0} else {})
  {
    var t := Store(s, k, v, capacity);
    LookupPresent(s, k);
    if k in KeysOf(s) {
      TouchFacts(s, k);
      var w := Without(s, k);
      WithoutFacts(s, k);
      AppendFresh(w, k, v);
      var i :| 0 <= i < |s| && s[i].0 == k;
      WithoutCutsOne(s, k, i);
      forall j ensures j != k ==> Lookup(t, j) == Lookup(s, j) {
        LookupAppend(w, k, v, j);
      }
      LookupAppend(w, k, v, k);
      LookupPresent(w, k);
    } else {
      var u := s + [(k, v)];
      AppendFresh(s, k, v);
      forall j ensures Lookup(u, j) == if Lookup(s, j).Some? then Lookup(s, j) else if j == k then Some(v) else None {
        LookupAppend(s, k, v, j);
      }
      if |s| == capacity {
        if capacity > 0 {
          DistinctTail(u);
          assert u == [u[0]] + u[1..];
          forall j | j != u[0].0 ensures Lookup(u[1..], j) == Lookup(u, j) {
          }
          LookupPresent(u[1..], u[0].0);
          assert u[0] == s[0];
          KeysOfCons(u);
          assert u[1..][|u[1..]| - 1] == (k, v);
        } else {
          assert s == [];
        }
      }
    }
  }

  /** `remove(k)` drops the entry of `k` only, keeping the others in order; an absent key changes nothing. */
  lemma RemoveFacts<K, V>(s: seq<(K, V)>, k: K)
    requires DistinctKeys(s)
    ensures DistinctKeys(Without(s, k)) && KeysOf(Without(s, k)) == KeysOf(s) - {k}
    ensures forall j :: j != k ==> Lookup(Without(s, k), j) == Lookup(s, j)
    ensures forall i :: 0 <= i < |s| && s[i].0 == k ==> Without(s, k) == s[..i] + s[i + 1..]
    ensures k !in KeysOf(s) ==> Without(s, k) == s
  {
    WithoutFacts(s, k);
    forall i | 0 <= i < |s| && s[i].0 == k ensures Without(s, k) == s[..i] + s[i + 1..] {
      WithoutCutsOne(s, k, i);
    }
  }

  /** A stored value is one of the entries. */
  lemma {:induction false} LookupMember<K, V>(s: seq<(K, V)>, k: K)
    ensures Lookup(s, k).Some? ==> (k, Lookup(s, k).value) in s
  {
    if s != [] && s[0].0 != k {
      LookupMember(s[1..], k);
    }
  }

  lemma {:induction false} WithoutMembers<K, V>(s: seq<(K, V)>, k: K)
    ensures forall e :: e in Without(s, k) ==> e in s
  {
    if s != [] {
      WithoutMembers(s[1..], k);
    }
  }

  /** An access or a `put` brings in no entry other than the one stored. */
  lemma StoreTouchMembers<K, V>(s: seq<(K, V)>, k: K, v: V, capacity: nat)
    ensures forall e :: e in Touch(s, k) ==> e in s
    ensures forall e :: e in Store(s, k, v, capacity) ==> e in s || e == (k, v)
  {
    WithoutMembers(s, k);
    LookupMember(s, k);
    var u := s + [(k, v)];
    forall e | e in Evict(u, capacity) ensures e in u {
      if |u| > capacity {
        var i :| 0 <= i < |u[1..]| && u[1..][i] == e;
        assert u[i + 1] == e;
      }
    }
  }

  // ----- recency -----

  /**
   * The order of the entries agrees with the time of their last access: the
   * ghost `stamp` records, for each key, the clock value of its last access.
   */
  ghost predicate InAccessOrder<K, V>(s: seq<(K, V)>, stamp: map<K, nat>) {
    && (forall i :: 0 <= i < |s| ==> s[i].0 in stamp)
    && (forall i, j :: 0 <= i < j < |s| ==> stamp[s[i].0] < stamp[s[j].0])
  }

  /**
   * The only key `put` can lose is an old one that is the least recently
   * accessed of all: eviction drops the eldest entry of access order.
   */
  lemma StoreEvictsLeastRecent<K, V>(s: seq<(K, V)>, k: K, v: V, capacity: nat, stamp: map<K, nat>)
    requires DistinctKeys(s) && |s| <= capacity && InAccessOrder(s, stamp)
    ensures forall j :: j in KeysOf(s) - KeysOf(Store(s, k, v, capacity)) ==>
      j != k && j in stamp && forall i :: 0 <= i < |s| ==> stamp[j] <= stamp[s[i].0]
  {
    StoreFacts(s, k, v, capacity);
  }

  lemma AccessOrderTail<K, V>(s: seq<(K, V)>, stamp: map<K, nat>)
    requires InAccessOrder(s, stamp) && s != []
    ensures InAccessOrder(s[1..], stamp)
    ensures forall e :: e in s[1..] ==> stamp[s[0].0] < stamp[e.0]
  {
    forall a, b | 0 <= a < b < |s[1..]| ensures stamp[s[1..][a].0] < stamp[s[1..][b].0] {
      assert s[1..][a] == s[a + 1] && s[1..][b] == s[b + 1];
    }
    forall e | e in s[1..] ensures stamp[s[0].0] < stamp[e.0] {
      var m :| 0 <= m < |s[1..]| && s[1..][m] == e;
      assert s[m + 1] == e;
    }
  }

  lemma AccessOrderCons<K, V>(x: (K, V), w: seq<(K, V)>, stamp: map<K, nat>)
    requires InAccessOrder(w, stamp) && x.0 in stamp
    requires forall e :: e in w ==> stamp[x.0] < stamp[e.0]
    ensures InAccessOrder([x] + w, stamp)
  {
    var t := [x] + w;
    forall a, b | 0 <= a < b < |t| ensures stamp[t[a].0] < stamp[t[b].0] {
      assert t[b] == w[b - 1];
      if a > 0 {
        assert t[a] == w[a - 1];
      } else {
        assert w[b - 1] in w;
      }
    }
  }

  lemma {:induction false} WithoutSubsequence<K, V>(s: seq<(K, V)>, k: K, stamp: map<K, nat>)
    requires InAccessOrder(s, stamp)
    ensures InAccessOrder(Without(s, k), stamp)
  {
    if s != [] {
      AccessOrderTail(s, stamp);
      WithoutSubsequence(s[1..], k, stamp);
      WithoutMembers(s[1..], k);
      if s[0].0 != k {
        AccessOrderCons(s[0], Without(s[1..], k), stamp);
      }
    }
  }

  /** Stamping the accessed key with a fresh clock value keeps the order by recency after an access. */
  lemma TouchKeepsAccessOrder<K, V>(s: seq<(K, V)>, k: K, stamp: map<K, nat>, clock: nat)
    requires DistinctKeys(s) && InAccessOrder(s, stamp)
    requires forall j :: j in stamp ==> stamp[j] < clock
    ensures InAccessOrder(Touch(s, k), if k in KeysOf(s) then stamp[k := clock] else stamp)
  {
    LookupPresent(s, k);
    if k in KeysOf(s) {
      var w := Without(s, k);
      WithoutSubsequence(s, k, stamp);
      WithoutFacts(s, k);
      StampedAppend(w, k, Lookup(s, k).value, stamp, clock);
    }
  }

  /** Appending `k` stamped with the newest clock value keeps the order by recency. */
  lemma StampedAppend<K, V>(w: seq<(K, V)>, k: K, v: V, stamp: map<K, nat>, clock: nat)
    requires InAccessOrder(w, stamp) && k !in KeysOf(w)
    requires forall j :: j in stamp ==> stamp[j] < clock
    ensures InAccessOrder(w + [(k, v)], stamp[k := clock])
  {
    var t := w + [(k, v)];
    var st := stamp[k := clock];
    forall i | 0 <= i < |w| ensures w[i].0 != k {
      assert w[i].0 in KeysOf(w);
    }
    forall a, b | 0 <= a < b < |t| ensures st[t[a].0] < st[t[b].0] {
      assert t[a] == w[a];
      if b < |w| { assert t[b] == w[b]; }
    }
  }

  /** `put` and the insertion of `getOrPut` keep the order by recency, the stored key stamped newest. */
  lemma StoreKeepsAccessOrder<K, V>(s: seq<(K, V)>, k: K, v: V, capacity: nat, stamp: map<K, nat>, clock: nat)
    requires DistinctKeys(s) && InAccessOrder(s, stamp)
    requires forall j :: j in stamp ==> stamp[j] < clock
    ensures InAccessOrder(Store(s, k, v, capacity), stamp[k := clock])
  {
    LookupPresent(s, k);
    if k in KeysOf(s) {
      WithoutSubsequence(s, k, stamp);
      WithoutFacts(s, k);
      StampedAppend(Without(s, k), k, v, stamp, clock);
    } else {
      StampedAppend(s, k, v, stamp, clock);
      var u := s + [(k, v)];
      if |u| > capacity {
        var st := stamp[k := clock];
        forall a, b | 0 <= a < b < |u[1..]| ensures st[u[1..][a].0] < st[u[1..][b].0] {
          assert u[1..][a] == u[a + 1] && u[1..][b] == u[b + 1];
        }
      }
    }
  }

  /** Removal keeps the order by recency. */
  lemma RemoveKeepsAccessOrder<K, V>(s: seq<(K, V)>, k: K, stamp: map<K, nat>)
    requires InAccessOrder(s, stamp)
    ensures InAccessOrder(Without(s, k), stamp)
  {
    WithoutSubsequence(s, k, stamp);
  }

  // ----- the cache object -----

  class LRUCache<K(==), V> {
    const capacity: nat
    /** The `LinkedHashMap`'s entries, least recently accessed first. */
    var entries: seq<(K, V)>
    /** The clock value of each key's last access, and the clock. */
    ghost var stamp: map<K, nat>
    ghost var clock: nat

    ghost predicate Valid()
      reads this
    {
      && DistinctKeys(entries)
      && |entries| <= capacity
      && InAccessOrder(entries, stamp)
      && (forall j :: j in stamp ==> stamp[j] < clock)
    }

    /** `LRUCache(capacity)`; a negative capacity makes the `LinkedHashMap` constructor throw. */
    constructor (capacity: int)
      requires capacity >= 0
      ensures Valid() && this.capacity == capacity && entries == []
    {
      this.capacity := capacity;
      entries := [];
      stamp := map[];
      clock := 0;
    }

    /** `get`: the stored value or null; a present key becomes most recent, an absent key changes nothing. */
    method Get(key: K) returns (r: Option<V>)
      requires Valid()
      modifies this
      ensures Valid()
      ensures r == Lookup(old(entries), key)
      ensures r.Some? <==> key in KeysOf(old(entries))
      ensures entries == Touch(old(entries), key)
      ensures r.None? ==> entries == old(entries) && stamp == old(stamp) && clock == old(clock)
      ensures r.Some? ==> stamp == old(stamp)[key := old(clock)] && clock == old(clock) + 1
    {
      LookupPresent(entries, key);
      TouchKeepsAccessOrder(entries, key, stamp, clock);
      TouchFacts(entries, key);
      r := Lookup(entries, key);
      if r.Some? {
        entries := Touch(entries, key);
        stamp := stamp[key := clock];
        clock := clock + 1;
      }
    }

    /** `put`: store the value, the key becoming most recent, evicting the eldest entry on overflow. */
    method Put(key: K, value: V)
      requires Valid()
      modifies this
      ensures Valid()
      ensures entries == Store(old(entries), key, value, capacity)
      ensures stamp == old(stamp)[key := old(clock)] && clock == old(clock) + 1
    {
      StoreFacts(entries, key, value, capacity);
      StoreKeepsAccessOrder(entries, key, value, capacity, stamp, clock);
      entries := Store(entries, key, value, capacity);
      stamp := stamp[key := clock];
      clock := clock + 1;
    }

    /**
     * `getOrPut`: on a present key the stored value, the default unused; on an
     * absent key the default is used once, stored as most recent, and returned.
     * `invoked` says whether `defaultValue` ran.
     */
    method GetOrPut(key: K, default: V) returns (r: V, invoked: bool)
      requires Valid()
      modifies this
      ensures Valid()
      ensures invoked <==> key !in KeysOf(old(entries))
      ensures r == Lookup(old(entries), key).GetOr(default)
      ensures entries == if invoked then Store(old(entries), key, default, capacity) else Touch(old(entries), key)
      ensures stamp == old(stamp)[key := old(clock)] && clock == old(clock) + 1
    {
      var found := Get(key);
      match found {
        case Some(v) =>
          r, invoked := v, false;
        case None =>
          r, invoked := default, true;
          Put(key, default);
      }
    }

    /** `remove`: drop the entry of the key, if any. */
    method Remove(key: K)
      requires Valid()
      modifies this
      ensures Valid()
      ensures entries == Without(old(entries), key)
      ensures stamp == old(stamp) && clock == old(clock)
    {
      RemoveFacts(entries, key);
      RemoveKeepsAccessOrder(entries, key, stamp);
      entries := Without(entries, key);
    }

    /** `size`: the number of distinct keys held. */
    method Size() returns (n: int)
      requires Valid()
      ensures n == |KeysOf(entries)| && n <= capacity
    {
      SizeIsKeyCount(entries);
      n := |entries|;
    }
  }
}
