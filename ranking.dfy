/**
 * Ordering tables by a numeric column: `sort_values(col, ascending=False)`,
 * `head(n)` and `nlargest(n, col)`. pandas does not promise an order among
 * rows with equal keys, so nothing here is stated about ties.
 */
module Ranking {
  import opened Seqs

  /** `s` is in non-increasing order of `key`. */
  ghost predicate SortedDesc<T>(s: seq<T>, key: T -> int)
  {
    forall i, j :: 0 <= i < j < |s| ==> key(s[i]) >= key(s[j])
  }

  /** `s` is in non-decreasing order of `key`. */
  ghost predicate SortedAsc<T>(s: seq<T>, key: T -> int)
  {
    forall i, j :: 0 <= i < j < |s| ==> key(s[i]) <= key(s[j])
  }

  /** Places `x` in the sorted `s` ahead of the first row whose key does not exceed its own. */
  function Insert<T>(x: T, s: seq<T>, key: T -> int): (r: seq<T>)
    requires SortedDesc(s, key)
    ensures |r| == |s| + 1
    ensures SortedDesc(r, key)
    ensures multiset(r) == multiset(s) + multiset{x}
    ensures forall y :: y in r ==> y == x || y in s
    ensures NoDup(s) && x !in s ==> NoDup(r)
  {
    if s == [] || key(s[0]) <= key(x) then
      ConsFacts(x, s, key);
      [x] + s
    else
      ConsFacts(s[0], s[1..], key);
      var rest := Insert(x, s[1..], key);
      InsertBehind(x, s, rest, key);
      [s[0]] + rest
  }

  /** Putting the head of `s` back in front of `x` inserted into the tail of `s` inserts `x` into `s`. */
  lemma InsertBehind<T>(x: T, s: seq<T>, rest: seq<T>, key: T -> int)
    requires s != [] && SortedDesc(s, key) && key(s[0]) > key(x)
    requires |rest| == |s| && SortedDesc(rest, key)
    requires multiset(rest) == multiset(s[1..]) + multiset{x}
    requires forall y :: y in rest ==> y == x || y in s[1..]
    requires NoDup(s[1..]) && x !in s[1..] ==> NoDup(rest)
    ensures SortedDesc([s[0]] + rest, key)
    ensures multiset([s[0]] + rest) == multiset(s) + multiset{x}
    ensures forall y :: y in [s[0]] + rest ==> y == x || y in s
    ensures NoDup(s) && x !in s ==> NoDup([s[0]] + rest)
  {
    BehindSorted(x, s, rest, key);
    BehindMembers(x, s, rest);
    BehindMultiset(x, s, rest);
    BehindNoDup(x, s, rest);
  }

  lemma BehindSorted<T>(x: T, s: seq<T>, rest: seq<T>, key: T -> int)
    requires s != [] && SortedDesc(s, key) && key(s[0]) > key(x)
    requires SortedDesc(rest, key)
    requires forall y :: y in rest ==> y == x || y in s[1..]
    ensures SortedDesc([s[0]] + rest, key)
  {
    forall y | y in rest ensures key(s[0]) >= key(y) {
      if y != x {
        var j :| 0 <= j < |s[1..]| && s[1..][j] == y;
        assert s[j + 1] == y;
      }
    }
    SortedConsUp(s[0], rest, key);
  }

  lemma BehindMembers<T>(x: T, s: seq<T>, rest: seq<T>)
    requires s != []
    requires forall y :: y in rest ==> y == x || y in s[1..]
    ensures forall y :: y in [s[0]] + rest ==> y == x || y in s
  {
    assert s == [s[0]] + s[1..];
  }

  lemma BehindMultiset<T>(x: T, s: seq<T>, rest: seq<T>)
    requires s != []
    requires multiset(rest) == multiset(s[1..]) + multiset{x}
    ensures multiset([s[0]] + rest) == multiset(s) + multiset{x}
  {
    assert s == [s[0]] + s[1..];
  }

  lemma BehindNoDup<T>(x: T, s: seq<T>, rest: seq<T>)
    requires s != []
    requires forall y :: y in rest ==> y == x || y in s[1..]
    requires NoDup(s[1..]) && x !in s[1..] ==> NoDup(rest)
    ensures NoDup(s) && x !in s ==> NoDup([s[0]] + rest)
  {
    assert s == [s[0]] + s[1..];
    NoDupCons(s[0], s[1..]);
    if NoDup(s) && x !in s {
      assert s[0] !in rest;
      NoDupCons(s[0], rest);
    }
  }

  /** How sortedness and distinctness of `[head] + tail` relate to those of `tail`. */
  lemma ConsFacts<T>(head: T, tail: seq<T>, key: T -> int)
    ensures SortedDesc([head] + tail, key) <==>
      SortedDesc(tail, key) && forall y :: y in tail ==> key(head) >= key(y)
    ensures NoDup([head] + tail) <==> NoDup(tail) && head !in tail
  {
    SortedCons(head, tail, key);
    NoDupCons(head, tail);
  }

  lemma SortedCons<T>(head: T, tail: seq<T>, key: T -> int)
    ensures SortedDesc([head] + tail, key) <==>
      SortedDesc(tail, key) && forall y :: y in tail ==> key(head) >= key(y)
  {
    if SortedDesc([head] + tail, key) {
      SortedUncons(head, tail, key);
    }
    if SortedDesc(tail, key) && forall y :: y in tail ==> key(head) >= key(y) {
      SortedConsUp(head, tail, key);
    }
  }

  lemma SortedUncons<T>(head: T, tail: seq<T>, key: T -> int)
    requires SortedDesc([head] + tail, key)
    ensures SortedDesc(tail, key) && forall y :: y in tail ==> key(head) >= key(y)
  {
    var s := [head] + tail;
    forall i, j | 0 <= i < j < |tail| ensures key(tail[i]) >= key(tail[j]) {
      assert s[i + 1] == tail[i] && s[j + 1] == tail[j];
    }
    forall y | y in tail ensures key(head) >= key(y) {
      var j :| 0 <= j < |tail| && tail[j] == y;
      assert s[0] == head && s[j + 1] == y;
    }
  }

  lemma SortedConsUp<T>(head: T, tail: seq<T>, key: T -> int)
    requires SortedDesc(tail, key) && forall y :: y in tail ==> key(head) >= key(y)
    ensures SortedDesc([head] + tail, key)
  {
    var s := [head] + tail;
    forall i, j | 0 <= i < j < |s| ensures key(s[i]) >= key(s[j]) {
      assert s[j] == tail[j - 1];
      if i > 0 {
        assert s[i] == tail[i - 1];
      } else {
        assert tail[j - 1] in tail;
      }
    }
  }

  lemma NoDupCons<T>(head: T, tail: seq<T>)
    ensures NoDup([head] + tail) <==> NoDup(tail) && head !in tail
  {
    var s := [head] + tail;
    assert forall j :: 0 <= j < |tail| ==> s[j + 1] == tail[j];
    if NoDup(s) {
      forall i, j | 0 <= i < j < |tail| ensures tail[i] != tail[j] {
        assert s[i + 1] != s[j + 1];
      }
      forall j | 0 <= j < |tail| ensures tail[j] != head {
        assert s[0] != s[j + 1];
      }
    }
    if NoDup(tail) && head !in tail {
      forall i, j | 0 <= i < j < |s| ensures s[i] != s[j] {
        if i > 0 {
          assert tail[i - 1] != tail[j - 1];
        }
      }
    }
  }

  /** The rows of `s` in non-increasing order of `key` (insertion sort). */
  function SortDesc<T>(s: seq<T>, key: T -> int): (r: seq<T>)
    ensures |r| == |s|
    ensures SortedDesc(r, key)
    ensures multiset(r) == multiset(s)
    ensures NoDup(s) ==> NoDup(r)
  {
    if s == [] then []
    else
      assert s == [s[0]] + s[1..];
      var rest := SortDesc(s[1..], key);
      assert NoDup(s) ==> s[0] !in multiset(rest);
      Insert(s[0], rest, key)
  }

  /** The rows of `s` in non-decreasing order of `key`: `sort_values(col)`. */
  function SortAsc<T>(s: seq<T>, key: T -> int): (r: seq<T>)
    ensures |r| == |s|
    ensures SortedAsc(r, key)
    ensures multiset(r) == multiset(s)
    ensures NoDup(s) ==> NoDup(r)
  {
    SortDesc(s, x => -key(x))
  }

  /**
   * The `n` rows of `s` with the largest keys, largest first: `nlargest(n, col)`,
   * or `sort_values(col, ascending=False).head(n)`. Every row left out has a key
   * no larger than that of any row kept.
   */
  function TopN<T>(s: seq<T>, key: T -> int, n: nat): (r: seq<T>)
    ensures |r| == if n < |s| then n else |s|
    ensures SortedDesc(r, key)
    ensures multiset(r) <= multiset(s)
    ensures forall x, y :: x in multiset(s) - multiset(r) && y in r ==> key(x) <= key(y)
    ensures forall x, y :: x in s && x !in r && y in r ==> key(x) <= key(y)
    ensures NoDup(s) ==> NoDup(r)
  {
    var sorted := SortDesc(s, key);
    var k := if n < |s| then n else |s|;
    PrefixFacts(s, sorted, key, k);
    sorted[..k]
  }

  /** What the first `k` rows of a sorted permutation of `s` keep and leave out. */
  lemma PrefixFacts<T>(s: seq<T>, sorted: seq<T>, key: T -> int, k: nat)
    requires SortedDesc(sorted, key) && multiset(sorted) == multiset(s) && k <= |sorted|
    requires NoDup(s) ==> NoDup(sorted)
    ensures SortedDesc(sorted[..k], key)
    ensures multiset(sorted[..k]) <= multiset(s)
    ensures forall x, y :: x in multiset(s) - multiset(sorted[..k]) && y in sorted[..k] ==> key(x) <= key(y)
    ensures forall x, y :: x in s && x !in sorted[..k] && y in sorted[..k] ==> key(x) <= key(y)
    ensures NoDup(s) ==> NoDup(sorted[..k])
  {
    var kept, dropped := sorted[..k], sorted[k..];
    PrefixOrder(sorted, key, k);
    assert sorted == kept + dropped;
    assert multiset(sorted) == multiset(kept) + multiset(dropped);
    SplitSorted(sorted, key, k);
    assert forall x :: x in multiset(s) - multiset(kept) ==> x in dropped;
    assert forall x :: x in s && x !in kept ==> x in multiset(s) - multiset(kept);
  }

  /** A prefix of a sorted sequence is sorted, and a prefix of one without duplicates has none. */
  lemma PrefixOrder<T>(s: seq<T>, key: T -> int, k: nat)
    requires k <= |s|
    ensures SortedDesc(s, key) ==> SortedDesc(s[..k], key)
    ensures NoDup(s) ==> NoDup(s[..k])
  {
    assert forall i :: 0 <= i < k ==> s[..k][i] == s[i];
  }

  /** In a sorted sequence every row after position `k` has a key no larger than any row before it. */
  lemma SplitSorted<T>(s: seq<T>, key: T -> int, k: nat)
    requires SortedDesc(s, key) && k <= |s|
    ensures forall x, y :: x in s[k..] && y in s[..k] ==> key(x) <= key(y)
  {
    forall x, y | x in s[k..] && y in s[..k] ensures key(x) <= key(y) {
      var j :| 0 <= j < |s[k..]| && s[k..][j] == x;
      var i :| 0 <= i < k && s[..k][i] == y;
      assert s[i] == y && s[k + j] == x;
    }
  }

  /** Deleting rows from a sorted sequence keeps it sorted. */
  lemma {:induction false} FilterSortedAsc<T>(s: seq<T>, p: T -> bool, key: T -> int)
    requires SortedAsc(s, key)
    ensures SortedAsc(Filter(s, p), key)
  {
    if s != [] {
      var init, last := s[..|s| - 1], s[|s| - 1];
      assert s == init + [last];
      assert SortedAsc(init, key) by {
        forall i, j | 0 <= i < j < |init| ensures key(init[i]) <= key(init[j]) {
          assert init[i] == s[i] && init[j] == s[j];
        }
      }
      FilterSortedAsc(init, p, key);
      if p(last) {
        var r0 := Filter(init, p);
        var r := r0 + [last];
        forall i, j | 0 <= i < j < |r| ensures key(r[i]) <= key(r[j]) {
          assert r[i] == r0[i];
          if j == |r0| {
            assert r0[i] in r0;
            var k :| 0 <= k < |init| && init[k] == r0[i];
            assert s[k] == init[k];
          } else {
            assert r[j] == r0[j];
          }
        }
      }
    }
  }
}
