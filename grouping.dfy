/**
 * `df.groupby(col)`: the distinct keys of a column in order of first appearance
 * and, for each key, the rows carrying it. As in pandas, rows whose key is null
 * belong to no group.
 */
module Grouping {
  import opened Wrappers
  import opened Seqs

  /** The rows of `s` whose key is `k`, in their original order. */
  function Group<T(!new), K(==)>(s: seq<T>, key: T -> Option<K>, k: K): (g: seq<T>)
    ensures forall x :: x in g ==> x in s && key(x) == Some(k)
    ensures forall x :: x in s && key(x) == Some(k) ==> x in g
    ensures IsSubsequence(g, s)
    ensures forall x :: multiset(g)[x] == if key(x) == Some(k) then multiset(s)[x] else 0
  {
    var g := Filter(s, x => key(x) == Some(k));
    assert forall x :: x !in s ==> x !in g && x !in multiset(g);
    g
  }

  /** The rows of `s` that have a key at all. */
  function Keyed<T(!new), K>(s: seq<T>, key: T -> Option<K>): (r: seq<T>)
    ensures forall x :: x in r ==> x in s && key(x).Some?
    ensures forall x :: x in s && key(x).Some? ==> x in r
    ensures (forall x :: x in s ==> key(x).Some?) ==> r == s
    ensures forall x :: multiset(r)[x] == if key(x).Some? then multiset(s)[x] else 0
  {
    var p := x => key(x).Some?;
    assert forall x :: x !in s ==> x !in Filter(s, p) && x !in multiset(Filter(s, p));
    assert (forall x :: x in s ==> p(x)) ==> Filter(s, p) == s by {
      if forall x :: x in s ==> p(x) {
        FilterKeepsAll(s, p);
      }
    }
    Filter(s, p)
  }

  /** The distinct non-null keys of `s`, in order of first appearance. */
  function Keys<T, K(==)>(s: seq<T>, key: T -> Option<K>): (ks: seq<K>)
    ensures NoDup(ks)
    ensures forall k :: k in ks ==> exists x :: x in s && key(x) == Some(k)
    ensures forall x :: x in s && key(x).Some? ==> key(x).value in ks
  {
    if s == [] then []
    else
      var init, last := s[..|s| - 1], s[|s| - 1];
      assert s == init + [last];
      var ks0 := Keys(init, key);
      match key(last)
      case None => ks0
      case Some(k) => if k in ks0 then ks0 else ks0 + [k]
  }

  /** Every key of `s` has a non-empty group, and only those. */
  lemma KeyHasGroup<T(!new), K>(s: seq<T>, key: T -> Option<K>, k: K)
    ensures k in Keys(s, key) <==> Group(s, key, k) != []
  {
    if k in Keys(s, key) {
      var x :| x in s && key(x) == Some(k);
      assert x in Group(s, key, k);
    }
  }

  /** The sizes of the groups of the keys `ks`, added up. */
  function TotalSize<T(!new), K(==)>(s: seq<T>, key: T -> Option<K>, ks: seq<K>): nat
  {
    if ks == [] then 0 else TotalSize(s, key, ks[..|ks| - 1]) + |Group(s, key, ks[|ks| - 1])|
  }

  /** Adding one row to the table grows the total of the groups of `ks` by the number of times its key occurs in `ks`. */
  lemma {:induction false} TotalSizeStep<T(!new), K>(init: seq<T>, last: T, key: T -> Option<K>, ks: seq<K>)
    requires NoDup(ks)
    ensures TotalSize(init + [last], key, ks)
         == TotalSize(init, key, ks) + (if key(last).Some? && key(last).value in ks then 1 else 0)
  {
    var s := init + [last];
    assert s[..|s| - 1] == init;
    if ks != [] {
      var front, k := ks[..|ks| - 1], ks[|ks| - 1];
      assert ks == front + [k];
      assert NoDup(front);
      TotalSizeStep(init, last, key, front);
      assert |Group(s, key, k)| == |Group(init, key, k)| + (if key(last) == Some(k) then 1 else 0);
    }
  }

  /**
   * Count conservation: the groups partition the rows that have a key, so their
   * sizes add up to the number of such rows.
   */
  lemma {:induction false} Conservation<T(!new), K>(s: seq<T>, key: T -> Option<K>)
    ensures TotalSize(s, key, Keys(s, key)) == |Keyed(s, key)|
  {
    if s != [] {
      var init, last := s[..|s| - 1], s[|s| - 1];
      assert s == init + [last];
      Conservation(init, key);
      var ks0 := Keys(init, key);
      TotalSizeStep(init, last, key, ks0);
      match key(last)
      case None =>
      case Some(k) =>
        if k !in ks0 {
          var ks := ks0 + [k];
          assert ks[..|ks| - 1] == ks0;
          KeyHasGroup(init, key, k);
          assert TotalSize(s, key, ks) == TotalSize(s, key, ks0) + |Group(s, key, k)|;
          assert |Group(s, key, k)| == |Group(init, key, k)| + 1;
        }
    }
  }
}
