/**
 * The `entries.associateBy { it.key }[k]` idiom that every enum of the core
 * uses for its `getByValue`/`getById`: a map built from the declared entries,
 * in declaration order, where a later entry with the same key replaces an
 * earlier one, then one lookup.
 */
module EnumLookup {
  import opened Wrappers

  /** Keys of the entries are pairwise distinct. */
  ghost predicate DistinctKeys<T, K>(entries: seq<T>, key: T -> K) {
    forall i, j :: 0 <= i < j < |entries| ==> key(entries[i]) != key(entries[j])
  }

  /** The lookup `entries.associateBy(key)[k]`: the last entry whose key is `k`, or null. */
  function AssociateBy<T, K(==)>(entries: seq<T>, key: T -> K, k: K): (r: Option<T>)
    ensures r.Some? ==> r.value in entries && key(r.value) == k
    ensures r.None? <==> forall i :: 0 <= i < |entries| ==> key(entries[i]) != k
  {
    if entries == [] then None
    else if key(entries[|entries| - 1]) == k then Some(entries[|entries| - 1])
    else AssociateBy(entries[..|entries| - 1], key, k)
  }

  /** With distinct keys, looking an entry up by its own key finds that entry. */
  lemma {:induction false} AssociateByFindsEntry<T, K>(entries: seq<T>, key: T -> K, e: T)
    requires DistinctKeys(entries, key)
    requires e in entries
    ensures AssociateBy(entries, key, key(e)) == Some(e)
  {
    var n := |entries| - 1;
    if entries[n] != e {
      var prefix := entries[..n];
      assert e in prefix by {
        var i :| 0 <= i < |entries| && entries[i] == e;
        assert i < n;
        assert prefix[i] == e;
      }
      var i :| 0 <= i < n && prefix[i] == e;
      assert entries[i] == e;
      assert key(entries[n]) != key(e);
      assert DistinctKeys(prefix, key) by {
        forall a, b | 0 <= a < b < |prefix| ensures key(prefix[a]) != key(prefix[b]) {
          assert prefix[a] == entries[a] && prefix[b] == entries[b];
        }
      }
      AssociateByFindsEntry(prefix, key, e);
    }
  }
}
