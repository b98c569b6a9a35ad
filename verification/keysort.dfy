/**
 * Python's `sorted(names, key=key)` for integer keys: a stable insertion
 * sort. A key that cannot be computed raises in the program before any
 * comparison; callers check `FirstUnkeyed` first.
 */
module KeySort {
  import opened Results

  /** Every element has a key. */
  predicate Keyed(xs: seq<string>, key: string -> Option<int>) {
    forall i :: 0 <= i < |xs| ==> key(xs[i]).Some?
  }

  /** The keys never decrease from left to right. */
  predicate SortedBy(xs: seq<string>, key: string -> Option<int>)
    requires Keyed(xs, key)
  {
    forall i, j :: 0 <= i < j < |xs| ==> key(xs[i]).value <= key(xs[j]).value
  }

  /** The first element whose key cannot be computed, if any. */
  function FirstUnkeyed(xs: seq<string>, key: string -> Option<int>): (r: Option<string>)
    ensures r.None? <==> Keyed(xs, key)
    ensures r.Some? ==> r.value in xs && key(r.value).None?
  {
    if |xs| == 0 then None
    else if key(xs[0]).None? then Some(xs[0])
    else
      var r := FirstUnkeyed(xs[1..], key);
      assert forall i :: 1 <= i < |xs| ==> xs[i] == xs[1..][i - 1];
      r
  }

  /** Places `x` after every element whose key is not greater than its own. */
  function Insert(x: string, xs: seq<string>, key: string -> Option<int>): (r: seq<string>)
    requires key(x).Some? && Keyed(xs, key)
    ensures Keyed(r, key)
    ensures multiset(r) == multiset(xs) + multiset{x}
    ensures |r| == |xs| + 1
  {
    if |xs| == 0 || key(x).value < key(xs[0]).value then
      [x] + xs
    else
      assert xs == [xs[0]] + xs[1..];
      [xs[0]] + Insert(x, xs[1..], key)
  }

  /** Every element of `xs` has a key no less than `y`'s. */
  predicate AllAtLeast(y: string, xs: seq<string>, key: string -> Option<int>)
    requires key(y).Some? && Keyed(xs, key)
  {
    forall z :: z in multiset(xs) ==> key(z).Some? && key(y).value <= key(z).value
  }

  /** Inserting into a sorted sequence keeps it sorted. */
  lemma {:induction false} InsertKeepsSorted(x: string, xs: seq<string>, key: string -> Option<int>)
    requires key(x).Some? && Keyed(xs, key) && SortedBy(xs, key)
    ensures SortedBy(Insert(x, xs, key), key)
    decreases |xs|
  {
    if |xs| == 0 || key(x).value < key(xs[0]).value {
      assert AllAtLeast(x, xs, key) by {
        forall z | z in multiset(xs) ensures key(z).Some? && key(x).value <= key(z).value {
          var j :| 0 <= j < |xs| && xs[j] == z;
        }
      }
      ConsSorted(x, xs, key);
    } else {
      TailSorted(xs, key);
      InsertKeepsSorted(x, xs[1..], key);
      var tail := Insert(x, xs[1..], key);
      assert AllAtLeast(xs[0], tail, key) by {
        forall z | z in multiset(tail) ensures key(z).Some? && key(xs[0]).value <= key(z).value {
          if z != x {
            assert z in multiset(xs[1..]);
            var j :| 0 <= j < |xs[1..]| && xs[1..][j] == z;
            assert xs[j + 1] == z;
          }
        }
      }
      ConsSorted(xs[0], tail, key);
    }
  }

  /** A least-keyed element in front of a sorted sequence keeps it sorted. */
  lemma ConsSorted(y: string, ys: seq<string>, key: string -> Option<int>)
    requires key(y).Some? && Keyed(ys, key) && SortedBy(ys, key)
    requires AllAtLeast(y, ys, key)
    ensures Keyed([y] + ys, key) && SortedBy([y] + ys, key)
  {
    forall j | 0 <= j < |ys| ensures key(y).value <= key(ys[j]).value {
      assert ys[j] in multiset(ys);
    }
  }

  function Sort(xs: seq<string>, key: string -> Option<int>): (r: seq<string>)
    requires Keyed(xs, key)
    ensures Keyed(r, key) && SortedBy(r, key)
    ensures multiset(r) == multiset(xs)
    ensures |r| == |xs|
  {
    if |xs| == 0 then
      []
    else
      var init := xs[..|xs| - 1];
      assert xs == init + [xs[|xs| - 1]];
      var sorted := Sort(init, key);
      InsertKeepsSorted(xs[|xs| - 1], sorted, key);
      Insert(xs[|xs| - 1], sorted, key)
  }

  /** The first element of a key-sorted sequence has the least key. */
  lemma HeadHasLeastKey(a: seq<string>, key: string -> Option<int>, y: string)
    requires Keyed(a, key) && SortedBy(a, key)
    requires y in a
    ensures key(y).Some? && key(a[0]).value <= key(y).value
  {
    var i :| 0 <= i < |a| && a[i] == y;
  }

  /** Dropping the first element keeps a sequence keyed and sorted. */
  lemma TailSorted(a: seq<string>, key: string -> Option<int>)
    requires 1 <= |a| && Keyed(a, key) && SortedBy(a, key)
    ensures Keyed(a[1..], key) && SortedBy(a[1..], key)
  {
    assert forall i :: 0 <= i < |a| - 1 ==> a[1..][i] == a[i + 1];
  }

  /** No two distinct elements share a key. */
  predicate KeysDistinct(a: seq<string>, key: string -> Option<int>) {
    forall i, j :: 0 <= i < |a| && 0 <= j < |a| && key(a[i]) == key(a[j]) ==> a[i] == a[j]
  }

  lemma DistinctTail(a: seq<string>, key: string -> Option<int>)
    requires 1 <= |a| && KeysDistinct(a, key)
    ensures KeysDistinct(a[1..], key)
  {
    assert forall i :: 0 <= i < |a| - 1 ==> a[1..][i] == a[i + 1];
  }

  /** Sorted arrangements of the same distinct-keyed names start alike. */
  lemma HeadsAgree(a: seq<string>, b: seq<string>, key: string -> Option<int>)
    requires 1 <= |a| && 1 <= |b|
    requires Keyed(a, key) && SortedBy(a, key)
    requires Keyed(b, key) && SortedBy(b, key)
    requires multiset(a) == multiset(b)
    requires KeysDistinct(a, key)
    ensures a[0] == b[0]
  {
    assert a[0] in multiset(b);
    assert b[0] in multiset(a);
    HeadHasLeastKey(b, key, a[0]);
    HeadHasLeastKey(a, key, b[0]);
    var i :| 0 <= i < |a| && a[i] == b[0];
    assert key(a[0]) == key(a[i]);
  }

  /**
   * Two key-sorted arrangements of the same names are the same sequence when
   * no two of the names share a key.
   */
  lemma {:induction false} SortedPermutationUnique(a: seq<string>, b: seq<string>, key: string -> Option<int>)
    requires Keyed(a, key) && SortedBy(a, key)
    requires Keyed(b, key) && SortedBy(b, key)
    requires multiset(a) == multiset(b)
    requires KeysDistinct(a, key)
    ensures a == b
    decreases |a|
  {
    assert |a| == |multiset(a)| == |multiset(b)| == |b|;
    if |a| > 0 {
      HeadsAgree(a, b, key);
      assert a == [a[0]] + a[1..];
      assert b == [b[0]] + b[1..];
      assert multiset(a[1..]) == multiset(b[1..]) by {
        assert multiset(a) == multiset([a[0]]) + multiset(a[1..]);
        assert multiset(b) == multiset([b[0]]) + multiset(b[1..]);
        assert multiset(a[1..]) == multiset(a) - multiset([a[0]]);
        assert multiset(b[1..]) == multiset(b) - multiset([b[0]]);
      }
      TailSorted(a, key);
      TailSorted(b, key);
      DistinctTail(a, key);
      SortedPermutationUnique(a[1..], b[1..], key);
    }
  }
}
