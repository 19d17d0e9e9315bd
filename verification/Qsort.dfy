/** The library sort (lib/qsort.c): Algorithm Q with the pivot kept in place, median of
    three for large partitions, recursion on the smaller side only, and an insertion sort
    for small or already ordered partitions. It works on an array of bytes and treats it
    as elements of `size` bytes each. */
module Qsort {
  import opened Bytes

  const THRESH := 4
  const MTHRESH := 6

  // ------------------------------------------------------------ comparators

  type Comparator = (Elem, Elem) -> int

  ghost predicate Le(cmp: Comparator, x: Elem, y: Elem) {
    cmp(x, y) <= 0
  }

  ghost predicate Mirrored(cmp: Comparator, x: Elem, y: Elem) {
    cmp(x, y) < 0 <==> cmp(y, x) > 0
  }

  ghost predicate Chained(cmp: Comparator, x: Elem, y: Elem, z: Elem) {
    Le(cmp, x, y) && Le(cmp, y, z) ==> Le(cmp, x, z)
  }

  /** What qsort asks of its comparator: it orders all elements consistently. */
  ghost predicate Consistent(cmp: Comparator) {
    && (forall x, y :: Mirrored(cmp, x, y))
    && (forall x, y, z :: Chained(cmp, x, y, z))
  }

  ghost predicate Sorted(cmp: Comparator, v: seq<Elem>, lo: int, hi: int)
    requires 0 <= lo <= hi <= |v|
  {
    forall i, j :: lo <= i < j < hi ==> Le(cmp, v[i], v[j])
  }

  /** Every element of the range is at most, or at least, `x`. */
  ghost predicate AllLe(cmp: Comparator, v: seq<Elem>, lo: int, hi: int, x: Elem)
    requires 0 <= lo <= hi <= |v|
  {
    forall i :: lo <= i < hi ==> Le(cmp, v[i], x)
  }

  ghost predicate AllGe(cmp: Comparator, v: seq<Elem>, lo: int, hi: int, x: Elem)
    requires 0 <= lo <= hi <= |v|
  {
    forall i :: lo <= i < hi ==> Le(cmp, x, v[i])
  }

  // ------------------------------------------------------------ rearrangements

  /** `w` is `v` with the elements from `lo` up to `hi` rearranged and no others touched. */
  ghost predicate Rearranged<T>(v: seq<T>, w: seq<T>, lo: int, hi: int) {
    && |v| == |w| && 0 <= lo <= hi <= |v|
    && (forall i :: 0 <= i < |v| && !(lo <= i < hi) ==> w[i] == v[i])
    && multiset(w) == multiset(v)
  }

  lemma {:induction false} CountInThree<T>(v: seq<T>, lo: int, hi: int, x: T)
    requires 0 <= lo <= hi <= |v|
    ensures multiset(v)[x] == multiset(v[..lo])[x] + multiset(v[lo..hi])[x] + multiset(v[hi..])[x]
  {
    assert v == v[..lo] + v[lo..hi] + v[hi..];
  }

  /** An element of the range afterwards was in the range before. */
  lemma {:induction false} RearrangedFrom<T>(v: seq<T>, w: seq<T>, lo: int, hi: int, i: int) returns (k: int)
    requires Rearranged(v, w, lo, hi) && lo <= i < hi
    ensures lo <= k < hi && w[i] == v[k]
  {
    CountInThree(v, lo, hi, w[i]);
    CountInThree(w, lo, hi, w[i]);
    assert v[..lo] == w[..lo] && v[hi..] == w[hi..];
    assert w[lo..hi][i - lo] == w[i];
    assert w[i] in multiset(w[lo..hi]);
    assert w[i] in multiset(v[lo..hi]);
    assert w[i] in v[lo..hi];
    var u :| 0 <= u < hi - lo && v[lo..hi][u] == w[i];
    k := lo + u;
  }

  /** A rearrangement followed by one within the same range. */
  lemma {:induction false} RearrangedFurther<T>(u: seq<T>, v: seq<T>, w: seq<T>, lo: int, hi: int, b: int, e: int)
    requires Rearranged(u, v, lo, hi) && Rearranged(v, w, b, e) && lo <= b && e <= hi
    ensures Rearranged(u, w, lo, hi)
  {
  }

  lemma {:induction false} SwapRearranges<T>(v: seq<T>, i: int, j: int, lo: int, hi: int)
    requires 0 <= lo <= i < hi <= |v| && lo <= j < hi
    ensures Rearranged(v, Swapped(v, i, j), lo, hi)
  {
  }

  lemma {:induction false} RotateRearranges<T>(v: seq<T>, i: int, j: int, lo: int, hi: int)
    requires 0 <= lo <= i <= j < hi <= |v|
    ensures Rearranged(v, Rotated(v, i, j), lo, hi)
  {
    assert v == v[..i] + v[i..j] + [v[j]] + v[j + 1..];
  }

  lemma {:induction false} RearrangedKeepsBounds(cmp: Comparator, v: seq<Elem>, w: seq<Elem>, lo: int, hi: int, x: Elem)
    requires Rearranged(v, w, lo, hi)
    ensures AllLe(cmp, v, lo, hi, x) ==> AllLe(cmp, w, lo, hi, x)
    ensures AllGe(cmp, v, lo, hi, x) ==> AllGe(cmp, w, lo, hi, x)
  {
    forall i | lo <= i < hi
      ensures AllLe(cmp, v, lo, hi, x) ==> Le(cmp, w[i], x)
      ensures AllGe(cmp, v, lo, hi, x) ==> Le(cmp, x, w[i])
    {
      var k := RearrangedFrom(v, w, lo, hi, i);
    }
  }

  // ------------------------------------------------------------ insertion sort

  /** Dropping element `j` into its place `i` keeps the run before it sorted. */
  lemma {:induction false} InsertKeepsSorted(cmp: Comparator, v: seq<Elem>, lo: int, i: int, j: int)
    requires 0 <= lo <= i <= j < |v| && Sorted(cmp, v, lo, j)
    requires AllLe(cmp, v, lo, i, v[j]) && AllGe(cmp, v, i, j, v[j])
    ensures |Rotated(v, i, j)| == |v| && Sorted(cmp, Rotated(v, i, j), lo, j + 1)
  {
    var w := Rotated(v, i, j);
    forall x, y | lo <= x < y < j + 1
      ensures Le(cmp, w[x], w[y])
    {
      RotatedAt(v, i, j, x);
      RotatedAt(v, i, j, y);
    }
  }

  lemma {:induction false} BelowIsLe(cmp: Comparator, v: seq<Elem>, lo: int, i: int, x: Elem)
    requires Consistent(cmp) && 0 <= lo <= i <= |v| && Sorted(cmp, v, lo, i)
    requires lo < i ==> Le(cmp, v[i - 1], x)
    ensures AllLe(cmp, v, lo, i, x)
  {
    forall k | lo <= k < i
      ensures Le(cmp, v[k], x)
    {
      assert Chained(cmp, v[k], v[i - 1], x);
    }
  }

  /** The array as elements; every method below works on arrays of whole elements. */
  ghost predicate Shaped(a: array<int>, size: int, n: nat) {
    0 < size && a.Length == Off(size, n)
  }

  method Compare(a: array<int>, size: int, n: nat, cmp: Comparator, i: int, j: int) returns (c: int)
    requires Shaped(a, size, n) && 0 <= i < n && 0 <= j < n
    ensures c == cmp(View(a[..], size, n)[i], View(a[..], size, n)[j])
  {
    ViewAt(a[..], size, n, i);
    ViewAt(a[..], size, n, j);
    assert a[..][Off(size, i)..Off(size, i) + size] == a[Off(size, i)..Off(size, i) + size];
    assert a[..][Off(size, j)..Off(size, j) + size] == a[Off(size, j)..Off(size, j) + size];
    c := cmp(a[Off(size, i)..Off(size, i) + size], a[Off(size, j)..Off(size, j) + size]);
  }

  /** The scan of insertion_sort: where element `t1` belongs in the sorted run before it. */
  method FindSlot(a: array<int>, size: int, n: nat, cmp: Comparator, bot: int, t1: int) returns (t2: int)
    requires Shaped(a, size, n) && Consistent(cmp) && 0 <= bot <= t1 < n
    requires Sorted(cmp, View(a[..], size, n), bot, t1)
    ensures bot <= t2 <= t1
    ensures var v := View(a[..], size, n); AllLe(cmp, v, bot, t2, v[t1]) && AllGe(cmp, v, t2, t1, v[t1])
  {
    ghost var v := View(a[..], size, n);
    t2 := t1 - 1;
    while t2 >= bot
      invariant bot - 1 <= t2 < t1
      invariant AllGe(cmp, v, t2 + 1, t1, v[t1])
    {
      var c := Compare(a, size, n, cmp, t1, t2);
      assert Mirrored(cmp, v[t1], v[t2]) && Mirrored(cmp, v[t2], v[t1]);
      if !(c < 0) {
        break;
      }
      t2 := t2 - 1;
    }
    t2 := t2 + 1;
    BelowIsLe(cmp, v, bot, t2, v[t1]);
  }

  lemma {:induction false} RotatedInPlace<T>(v: seq<T>, i: int)
    requires 0 <= i < |v|
    ensures Rotated(v, i, i) == v
  {
  }

  /** One turn of insertion_sort's outer loop. */
  method InsertOne(a: array<int>, size: int, n: nat, cmp: Comparator, bot: int, t1: int)
    requires Shaped(a, size, n) && Consistent(cmp) && 0 <= bot <= t1 < n
    requires Sorted(cmp, View(a[..], size, n), bot, t1)
    modifies a
    ensures Rearranged(old(View(a[..], size, n)), View(a[..], size, n), bot, t1 + 1)
    ensures Sorted(cmp, View(a[..], size, n), bot, t1 + 1)
  {
    ghost var v := View(a[..], size, n);
    var t2 := FindSlot(a, size, n, cmp, bot, t1);
    InsertKeepsSorted(cmp, v, bot, t2, t1);
    RotateRearranges(v, t2, t1, bot, t1 + 1);
    if t1 != t2 {
      Rotate(a, size, n, t2, t1);
    } else {
      RotatedInPlace(v, t1);
    }
  }

  method InsertionSort(a: array<int>, size: int, n: nat, cmp: Comparator, bot: int, nmemb: int)
    requires Shaped(a, size, n) && Consistent(cmp) && 0 <= bot && 0 <= nmemb && bot + nmemb <= n
    modifies a
    ensures Rearranged(old(View(a[..], size, n)), View(a[..], size, n), bot, bot + nmemb)
    ensures Sorted(cmp, View(a[..], size, n), bot, bot + nmemb)
  {
    ghost var v0 := View(a[..], size, n);
    var top := bot + nmemb;
    var t1 := bot + 1;
    while t1 < top
      invariant bot + 1 <= t1 && (t1 <= top || nmemb == 0)
      invariant Rearranged(v0, View(a[..], size, n), bot, top)
      invariant nmemb > 0 ==> Sorted(cmp, View(a[..], size, n), bot, t1)
    {
      ghost var v := View(a[..], size, n);
      InsertOne(a, size, n, cmp, bot, t1);
      RearrangedFurther(v0, v, View(a[..], size, n), bot, top, bot, t1 + 1);
      t1 := t1 + 1;
    }
  }

  // ------------------------------------------------------------ the pivot

  /** Which of the elements at `bot`, `mid` and `top` quick_sort takes as pivot. */
  method Median(a: array<int>, size: int, n: nat, cmp: Comparator, bot: int, mid: int, top: int) returns (t1: int)
    requires Shaped(a, size, n) && Consistent(cmp) && 0 <= bot < mid < top < n
    ensures var v := View(a[..], size, n);
            || (t1 == bot && Between(cmp, v[mid], v[bot], v[top]))
            || (t1 == mid && Between(cmp, v[bot], v[mid], v[top]))
            || (t1 == top && Between(cmp, v[bot], v[top], v[mid]))
  {
    ghost var v := View(a[..], size, n);
    var n1 := Compare(a, size, n, cmp, bot, mid);
    var n2 := Compare(a, size, n, cmp, mid, top);
    assert Mirrored(cmp, v[bot], v[mid]) && Mirrored(cmp, v[mid], v[bot]);
    assert Mirrored(cmp, v[top], v[mid]) && Mirrored(cmp, v[mid], v[top]);
    assert Mirrored(cmp, v[bot], v[top]) && Mirrored(cmp, v[top], v[bot]);
    if n1 < 0 && n2 > 0 {
      var n3 := Compare(a, size, n, cmp, bot, top);
      t1 := if n3 < 0 then top else bot;
    } else if n1 > 0 && n2 < 0 {
      var n3 := Compare(a, size, n, cmp, bot, top);
      t1 := if n3 > 0 then top else bot;
    } else {
      t1 := mid;
    }
  }

  /** `y` lies between `x` and `z`, whichever way round they are. */
  ghost predicate Between(cmp: Comparator, x: Elem, y: Elem, z: Elem) {
    (Le(cmp, x, y) && Le(cmp, y, z)) || (Le(cmp, z, y) && Le(cmp, y, x))
  }

  // ------------------------------------------------------------ partitioning

  /** Elements before `bot` are at most the pivot at `mid`, those after `top` at least it. */
  ghost predicate Split(cmp: Comparator, v: seq<Elem>, lo: int, hi: int, bot: int, mid: int, top: int) {
    && 0 <= lo <= bot <= mid <= top < hi <= |v|
    && AllLe(cmp, v, lo, bot, v[mid]) && AllGe(cmp, v, top + 1, hi, v[mid])
  }

  /** The pivot trades places with a smaller element at `top`. */
  lemma {:induction false} PivotUpKeepsSplit(cmp: Comparator, v: seq<Elem>, lo: int, hi: int, mid: int, top: int)
    requires Split(cmp, v, lo, hi, mid, mid, top) && mid < top && Le(cmp, v[top], v[mid])
    ensures Split(cmp, Swapped(v, mid, top), lo, hi, mid + 1, top, top)
  {
  }

  /** A larger element at `bot` trades places with a smaller one at `top`. */
  lemma {:induction false} ExchangeKeepsSplit(cmp: Comparator, v: seq<Elem>, lo: int, hi: int, bot: int, mid: int,
                                              top: int)
    requires Split(cmp, v, lo, hi, bot, mid, top) && bot < mid < top
    requires Le(cmp, v[top], v[mid]) && Le(cmp, v[mid], v[bot])
    ensures Split(cmp, Swapped(v, bot, top), lo, hi, bot + 1, mid, top - 1)
  {
  }

  /** The pivot trades places with a larger element at `bot`. */
  lemma {:induction false} PivotDownKeepsSplit(cmp: Comparator, v: seq<Elem>, lo: int, hi: int, bot: int, mid: int)
    requires Split(cmp, v, lo, hi, bot, mid, mid) && bot < mid && Le(cmp, v[mid], v[bot])
    ensures Split(cmp, Swapped(v, bot, mid), lo, hi, bot, bot, mid - 1)
  {
  }

  /** The first inner loop: past elements already on the right side of the pivot. */
  method ScanUp(a: array<int>, size: int, n: nat, cmp: Comparator, lo: int, hi: int, bot0: int, mid: int,
                top: int) returns (bot: int)
    requires Shaped(a, size, n) && Consistent(cmp) && Split(cmp, View(a[..], size, n), lo, hi, bot0, mid, top)
    ensures bot0 <= bot && Split(cmp, View(a[..], size, n), lo, hi, bot, mid, top)
    ensures bot < mid ==> Le(cmp, View(a[..], size, n)[mid], View(a[..], size, n)[bot])
  {
    ghost var v := View(a[..], size, n);
    bot := bot0;
    while bot < mid
      invariant bot0 <= bot && Split(cmp, v, lo, hi, bot, mid, top)
    {
      var c := Compare(a, size, n, cmp, bot, mid);
      assert Mirrored(cmp, v[mid], v[bot]);
      if !(c <= 0) {
        break;
      }
      bot := bot + 1;
    }
  }

  /** The second inner loop. */
  method ScanDown(a: array<int>, size: int, n: nat, cmp: Comparator, lo: int, hi: int, bot: int, mid: int,
                  top0: int) returns (top: int)
    requires Shaped(a, size, n) && Consistent(cmp) && Split(cmp, View(a[..], size, n), lo, hi, bot, mid, top0)
    ensures top <= top0 && Split(cmp, View(a[..], size, n), lo, hi, bot, mid, top)
    ensures mid < top ==> Le(cmp, View(a[..], size, n)[top], View(a[..], size, n)[mid])
  {
    ghost var v := View(a[..], size, n);
    top := top0;
    while top > mid
      invariant top <= top0 && Split(cmp, v, lo, hi, bot, mid, top)
    {
      var c := Compare(a, size, n, cmp, mid, top);
      assert Mirrored(cmp, v[top], v[mid]);
      if !(c <= 0) {
        break;
      }
      top := top - 1;
    }
  }

  /** Algorithm Q: from a pivot at `mid0` to a pivot at `mid` with everything on its side. */
  method Separate(a: array<int>, size: int, n: nat, cmp: Comparator, lo: int, hi: int, mid0: int) returns (mid: int,
                  didswap: bool)
    requires Shaped(a, size, n) && Consistent(cmp) && 0 <= lo <= mid0 < hi <= n
    modifies a
    ensures Rearranged(old(View(a[..], size, n)), View(a[..], size, n), lo, hi)
    ensures Split(cmp, View(a[..], size, n), lo, hi, mid, mid, mid)
    ensures !didswap ==> mid == mid0 && View(a[..], size, n) == old(View(a[..], size, n))
  {
    var bot, top := lo, hi - 1;
    mid, didswap := mid0, false;
    ghost var v0 := View(a[..], size, n);
    while true
      invariant Rearranged(v0, View(a[..], size, n), lo, hi)
      invariant Split(cmp, View(a[..], size, n), lo, hi, bot, mid, top)
      invariant !didswap ==> mid == mid0 && View(a[..], size, n) == v0
      decreases top - bot
    {
      bot := ScanUp(a, size, n, cmp, lo, hi, bot, mid, top);
      top := ScanDown(a, size, n, cmp, lo, hi, bot, mid, top);
      ghost var v := View(a[..], size, n);
      var newbot, replace;
      if top > mid {
        newbot := bot + 1;
        if bot == mid {
          PivotUpKeepsSplit(cmp, v, lo, hi, mid, top);
          mid, replace := top, top;
        } else {
          ExchangeKeepsSplit(cmp, v, lo, hi, bot, mid, top);
          replace := top;
          top := top - 1;
        }
      } else if bot == mid {
        break;
      } else {
        PivotDownKeepsSplit(cmp, v, lo, hi, bot, mid);
        replace, newbot, mid := mid, bot, bot;
        top := top - 1;
      }
      Swap(a, size, n, bot, replace);
      SwapRearranges(v, bot, replace, lo, hi);
      RearrangedFurther(v0, v, Swapped(v, bot, replace), lo, hi, lo, hi);
      bot, didswap := newbot, true;
    }
  }

  // ------------------------------------------------------------ quick_sort

  /** The range from `lo` to `hi` is sorted but for what remains from `b` to `e`. */
  ghost predicate Framed(cmp: Comparator, v: seq<Elem>, lo: int, hi: int, b: int, e: int) {
    && 0 <= lo <= b <= e <= hi <= |v|
    && (forall i, j :: lo <= i < j < hi && !(b <= i && j < e) ==> Le(cmp, v[i], v[j]))
  }

  lemma {:induction false} RearrangedKeepsFrame(cmp: Comparator, v: seq<Elem>, w: seq<Elem>, lo: int, hi: int, b: int,
                                                e: int)
    requires Framed(cmp, v, lo, hi, b, e) && Rearranged(v, w, b, e)
    ensures Framed(cmp, w, lo, hi, b, e)
  {
    forall i, j | lo <= i < j < hi && !(b <= i && j < e)
      ensures Le(cmp, w[i], w[j])
    {
      var i' := Source(v, w, b, e, i);
      var j' := Source(v, w, b, e, j);
    }
  }

  /** Where an element came from; inside the range, somewhere inside it. */
  lemma {:induction false} Source<T>(v: seq<T>, w: seq<T>, lo: int, hi: int, i: int) returns (k: int)
    requires Rearranged(v, w, lo, hi) && 0 <= i < |v|
    ensures 0 <= k < |v| && w[i] == v[k]
    ensures if lo <= i < hi then lo <= k < hi else k == i
  {
    if lo <= i < hi {
      k := RearrangedFrom(v, w, lo, hi, i);
    } else {
      k := i;
    }
  }

  /** Once one side of the pivot is sorted only the other side remains. */
  lemma {:induction false} SortedSideNarrows(cmp: Comparator, v: seq<Elem>, b: int, e: int, mid: int)
    requires Consistent(cmp) && Split(cmp, v, b, e, mid, mid, mid)
    ensures Sorted(cmp, v, b, mid) ==> Framed(cmp, v, b, e, mid + 1, e)
    ensures Sorted(cmp, v, mid + 1, e) ==> Framed(cmp, v, b, e, b, mid)
  {
    forall i, j | b <= i < mid < j < e
      ensures Le(cmp, v[i], v[j])
    {
      assert Chained(cmp, v[i], v[mid], v[j]);
    }
  }

  /** A frame inside a frame. */
  lemma {:induction false} FramedInside(cmp: Comparator, v: seq<Elem>, w: seq<Elem>, lo: int, hi: int, b: int, e: int,
                                        b': int, e': int)
    requires Framed(cmp, v, lo, hi, b, e) && Rearranged(v, w, b, e) && Framed(cmp, w, b, e, b', e')
    ensures Framed(cmp, w, lo, hi, b', e')
  {
    RearrangedKeepsFrame(cmp, v, w, lo, hi, b, e);
  }

  /** Rearranging one side of the pivot keeps it the pivot. */
  lemma {:induction false} RearrangedKeepsSplit(cmp: Comparator, v: seq<Elem>, w: seq<Elem>, b: int, e: int, mid: int,
                                                lo: int, hi: int)
    requires Split(cmp, v, b, e, mid, mid, mid) && Rearranged(v, w, lo, hi)
    requires (lo == b && hi == mid) || (lo == mid + 1 && hi == e)
    ensures Split(cmp, w, b, e, mid, mid, mid) && Rearranged(v, w, b, e)
  {
    RearrangedKeepsBounds(cmp, v, w, lo, hi, v[mid]);
  }

  /** The SORT macro for two elements. */
  method SortTwo(a: array<int>, size: int, n: nat, cmp: Comparator, bot: int)
    requires Shaped(a, size, n) && Consistent(cmp) && 0 <= bot && bot + 2 <= n
    modifies a
    ensures Rearranged(old(View(a[..], size, n)), View(a[..], size, n), bot, bot + 2)
    ensures Sorted(cmp, View(a[..], size, n), bot, bot + 2)
  {
    ghost var v := View(a[..], size, n);
    var t1 := bot + 1;
    var c := Compare(a, size, n, cmp, t1, bot);
    assert Mirrored(cmp, v[t1], v[bot]) && Mirrored(cmp, v[bot], v[t1]);
    if c < 0 {
      Swap(a, size, n, t1, bot);
      SwapRearranges(v, t1, bot, bot, bot + 2);
    }
  }

  /** The SORT macro, for partitions below the threshold. */
  method SmallSort(a: array<int>, size: int, n: nat, cmp: Comparator, bot: int, nmemb: int)
    requires Shaped(a, size, n) && Consistent(cmp) && 0 <= bot && 0 <= nmemb && bot + nmemb <= n
    modifies a
    ensures Rearranged(old(View(a[..], size, n)), View(a[..], size, n), bot, bot + nmemb)
    ensures Sorted(cmp, View(a[..], size, n), bot, bot + nmemb)
  {
    if nmemb > 1 {
      if nmemb == 2 {
        SortTwo(a, size, n, cmp, bot);
      } else {
        InsertionSort(a, size, n, cmp, bot, nmemb);
      }
    }
  }

  function Pow2(d: nat): int {
    if d == 0 then 1 else 2 * Pow2(d - 1)
  }

  /** One side of a partition: recursion when it is big enough, SORT otherwise. */
  method SortSide(a: array<int>, size: int, n: nat, cmp: Comparator, bot: int, nmemb: int) returns (ghost depth: nat)
    requires Shaped(a, size, n) && Consistent(cmp) && 0 <= bot && 0 <= nmemb && bot + nmemb <= n
    modifies a
    ensures Rearranged(old(View(a[..], size, n)), View(a[..], size, n), bot, bot + nmemb)
    ensures Sorted(cmp, View(a[..], size, n), bot, bot + nmemb)
    ensures depth > 0 ==> Pow2(depth) <= 2 * nmemb
    decreases nmemb, 4
  {
    if nmemb >= THRESH {
      ghost var d := QuickSort(a, size, n, cmp, bot, nmemb);
      depth := d + 1;
    } else {
      SmallSort(a, size, n, cmp, bot, nmemb);
      depth := 0;
    }
  }

  /** Sort the side of the pivot with fewer elements; the other side remains. */
  method SortSmaller(a: array<int>, size: int, n: nat, cmp: Comparator, bot: int, nmemb: int, mid: int)
      returns (bot': int, nmemb': int, ghost depth: nat)
    requires Shaped(a, size, n) && Consistent(cmp) && Split(cmp, View(a[..], size, n), bot, bot + nmemb, mid, mid, mid)
    modifies a
    ensures Rearranged(old(View(a[..], size, n)), View(a[..], size, n), bot, bot + nmemb)
    ensures 0 <= nmemb' < nmemb && Framed(cmp, View(a[..], size, n), bot, bot + nmemb, bot', bot' + nmemb')
    ensures Pow2(depth) <= nmemb
    decreases nmemb, 0
  {
    ghost var v := View(a[..], size, n);
    ghost var e := bot + nmemb;
    var nlower := mid - bot;
    var nupper := nmemb - nlower - 1;
    if nlower > nupper {
      depth := SortSide(a, size, n, cmp, mid + 1, nupper);
      RearrangedKeepsSplit(cmp, v, View(a[..], size, n), bot, e, mid, mid + 1, e);
      bot', nmemb' := bot, nlower;
    } else {
      depth := SortSide(a, size, n, cmp, bot, nlower);
      RearrangedKeepsSplit(cmp, v, View(a[..], size, n), bot, e, mid, bot, mid);
      bot', nmemb' := mid + 1, nupper;
    }
    SortedSideNarrows(cmp, View(a[..], size, n), bot, e, mid);
  }

  /** The part of quick_sort after partitioning: sort the smaller side, and the larger too
      if it is small; otherwise leave the larger for the next pass. */
  method SortSides(a: array<int>, size: int, n: nat, cmp: Comparator, bot: int, nmemb: int, mid: int)
      returns (done: bool, bot': int, nmemb': int, ghost depth: nat)
    requires Shaped(a, size, n) && Consistent(cmp) && Split(cmp, View(a[..], size, n), bot, bot + nmemb, mid, mid, mid)
    modifies a
    ensures Rearranged(old(View(a[..], size, n)), View(a[..], size, n), bot, bot + nmemb)
    ensures done ==> Sorted(cmp, View(a[..], size, n), bot, bot + nmemb)
    ensures !done ==> THRESH <= nmemb' < nmemb
                      && Framed(cmp, View(a[..], size, n), bot, bot + nmemb, bot', bot' + nmemb')
    ensures Pow2(depth) <= nmemb
    decreases nmemb, 1
  {
    ghost var v := View(a[..], size, n);
    bot', nmemb', depth := SortSmaller(a, size, n, cmp, bot, nmemb, mid);
    done := nmemb' < THRESH;
    if done {
      ghost var w := View(a[..], size, n);
      SmallSort(a, size, n, cmp, bot', nmemb');
      FrameDone(cmp, w, View(a[..], size, n), bot, bot + nmemb, bot', bot' + nmemb');
      RearrangedFurther(v, w, View(a[..], size, n), bot, bot + nmemb, bot', bot' + nmemb');
    }
  }

  /** Move the median of three to the middle, for partitions that are worth it. */
  method ChoosePivot(a: array<int>, size: int, n: nat, cmp: Comparator, bot: int, nmemb: int, mid: int)
    requires Shaped(a, size, n) && Consistent(cmp) && 0 <= bot && 0 < nmemb && bot + nmemb <= n
    requires mid == bot + nmemb / 2
    modifies a
    ensures Rearranged(old(View(a[..], size, n)), View(a[..], size, n), bot, bot + nmemb)
  {
    if nmemb >= MTHRESH {
      ghost var v := View(a[..], size, n);
      var t1 := Median(a, size, n, cmp, bot, mid, bot + nmemb - 1);
      if t1 != mid {
        Swap(a, size, n, t1, mid);
        SwapRearranges(v, t1, mid, bot, bot + nmemb);
      }
    }
  }

  /** The first part of a pass of quick_sort: choose the pivot, then separate around it. */
  method Partition(a: array<int>, size: int, n: nat, cmp: Comparator, bot: int, nmemb: int) returns (mid: int,
                   didswap: bool)
    requires Shaped(a, size, n) && Consistent(cmp) && 0 <= bot && 0 < nmemb && bot + nmemb <= n
    modifies a
    ensures Rearranged(old(View(a[..], size, n)), View(a[..], size, n), bot, bot + nmemb)
    ensures Split(cmp, View(a[..], size, n), bot, bot + nmemb, mid, mid, mid)
  {
    ghost var v := View(a[..], size, n);
    mid := bot + nmemb / 2;
    ChoosePivot(a, size, n, cmp, bot, nmemb, mid);
    ghost var v1 := View(a[..], size, n);
    mid, didswap := Separate(a, size, n, cmp, bot, bot + nmemb, mid);
    RearrangedFurther(v, v1, View(a[..], size, n), bot, bot + nmemb, bot, bot + nmemb);
  }

  lemma {:induction false} FrameDone(cmp: Comparator, v: seq<Elem>, w: seq<Elem>, lo: int, hi: int, b: int, e: int)
    requires Framed(cmp, v, lo, hi, b, e) && Rearranged(v, w, b, e) && Sorted(cmp, w, b, e)
    ensures Sorted(cmp, w, lo, hi)
  {
    RearrangedKeepsFrame(cmp, v, w, lo, hi, b, e);
  }

  /** One pass of quick_sort over the part that remains to be sorted. */
  method Pass(a: array<int>, size: int, n: nat, cmp: Comparator, bot: int, nmemb: int)
      returns (done: bool, bot': int, nmemb': int, ghost depth: nat)
    requires Shaped(a, size, n) && Consistent(cmp) && 0 <= bot && THRESH <= nmemb && bot + nmemb <= n
    modifies a
    ensures Rearranged(old(View(a[..], size, n)), View(a[..], size, n), bot, bot + nmemb)
    ensures done ==> Sorted(cmp, View(a[..], size, n), bot, bot + nmemb)
    ensures !done ==> THRESH <= nmemb' < nmemb
                      && Framed(cmp, View(a[..], size, n), bot, bot + nmemb, bot', bot' + nmemb')
    ensures Pow2(depth) <= nmemb
    decreases nmemb, 2
  {
    ghost var v := View(a[..], size, n);
    var mid, didswap := Partition(a, size, n, cmp, bot, nmemb);
    ghost var w := View(a[..], size, n);
    if !didswap {
      InsertionSort(a, size, n, cmp, bot, nmemb);
      done, bot', nmemb', depth := true, bot, nmemb, 0;
    } else {
      done, bot', nmemb', depth := SortSides(a, size, n, cmp, bot, nmemb, mid);
    }
    RearrangedFurther(v, w, View(a[..], size, n), bot, bot + nmemb, bot, bot + nmemb);
  }

  /** quick_sort. The recursion depth is at most the base-2 logarithm of the element count. */
  method QuickSort(a: array<int>, size: int, n: nat, cmp: Comparator, lo: int, count: int) returns (ghost depth: nat)
    requires Shaped(a, size, n) && Consistent(cmp) && 0 <= lo && THRESH <= count && lo + count <= n
    modifies a
    ensures Rearranged(old(View(a[..], size, n)), View(a[..], size, n), lo, lo + count)
    ensures Sorted(cmp, View(a[..], size, n), lo, lo + count)
    ensures Pow2(depth) <= count
    decreases count, 3
  {
    ghost var v0 := View(a[..], size, n);
    var bot, nmemb := lo, count;
    depth := 0;
    while true
      invariant THRESH <= nmemb <= count
      invariant Rearranged(v0, View(a[..], size, n), lo, lo + count)
      invariant Framed(cmp, View(a[..], size, n), lo, lo + count, bot, bot + nmemb)
      invariant Pow2(depth) <= count
      decreases nmemb
    {
      ghost var v := View(a[..], size, n);
      var done, bot', nmemb';
      ghost var d;
      done, bot', nmemb', d := Pass(a, size, n, cmp, bot, nmemb);
      ghost var w := View(a[..], size, n);
      depth := if d > depth then d else depth;
      RearrangedFurther(v0, v, w, lo, lo + count, bot, bot + nmemb);
      if done {
        FrameDone(cmp, v, w, lo, lo + count, bot, bot + nmemb);
        return;
      }
      FramedInside(cmp, v, w, lo, lo + count, bot, bot + nmemb, bot', bot' + nmemb');
      bot, nmemb := bot', nmemb';
    }
  }

  /** qsort: the elements of the array end up sorted and are the same elements as before. */
  method Qsort(a: array<int>, size: int, nmemb: nat, cmp: Comparator)
    requires Shaped(a, size, nmemb) && Consistent(cmp)
    modifies a
    ensures Sorted(cmp, View(a[..], size, nmemb), 0, nmemb)
    ensures multiset(View(a[..], size, nmemb)) == multiset(old(View(a[..], size, nmemb)))
  {
    ghost var v := View(a[..], size, nmemb);
    if nmemb <= 1 {
      return;
    }
    if nmemb >= THRESH {
      ghost var _ := QuickSort(a, size, nmemb, cmp, 0, nmemb);
    } else {
      InsertionSort(a, size, nmemb, cmp, 0, nmemb);
    }
    ghost var w := View(a[..], size, nmemb);
    assert v[0..nmemb] == v && w[0..nmemb] == w;
  }
}
