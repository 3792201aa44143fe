/** Facts about finite sets and maps that several parts need: a subset is no larger,
    and as large only if it is the whole set; two maps with the same keys and the same
    values at them are one map.  Sizes are what the limits on sessions and nodes are
    about, and whole maps are what the snapshot compares. */
module Collections {

  lemma {:induction false} SubsetSmaller<T>(all: set<T>, some: set<T>)
    requires some <= all
    ensures |some| <= |all| && (|some| == |all| <==> some == all)
  {
    if some != {} {
      var x :| x in some;
      SubsetSmaller(all - {x}, some - {x});
      assert some == some - {x} + {x} && all == all - {x} + {x};
    }
  }

  /** Maps that agree key by key are equal. */
  lemma SameMap<K, V>(a: map<K, V>, b: map<K, V>)
    requires a.Keys == b.Keys && forall k :: k in a ==> a[k] == b[k]
    ensures a == b
  {
  }
}
