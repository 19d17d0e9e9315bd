/** Elements of `size` bytes laid out one after another in an array of bytes, and the two
    ways the library sort moves them: byte-by-byte exchange of two elements, and byte-by-byte
    rotation of a run of elements (lib/qsort.c SWAP and insertion_sort). */
module Bytes {

  type Elem = seq<int>

  // ------------------------------------------------------------ offsets

  /** Where element `i` begins: `i * size`. */
  function Off(size: int, i: int): int
    decreases i
  {
    if i <= 0 then 0 else Off(size, i - 1) + size
  }

  lemma {:induction false} OffIsProduct(size: int, i: nat)
    ensures Off(size, i) == size * i
  {
    if i > 0 {
      OffIsProduct(size, i - 1);
    }
  }

  /** Elements come in order and do not overlap. */
  lemma {:induction false} ElementsApart(size: int, i: int, j: int)
    requires 0 <= i < j && 0 < size
    ensures 0 <= Off(size, i) && Off(size, i) + size <= Off(size, j)
    decreases j
  {
    if i < j - 1 {
      ElementsApart(size, i, j - 1);
    } else if i > 0 {
      ElementsApart(size, 0, i);
    }
  }

  // ------------------------------------------------------------ the view as elements

  /** The elements an array of bytes holds. */
  function View(s: seq<int>, size: int, n: nat): (v: seq<Elem>)
    requires 0 < size && |s| == Off(size, n)
    ensures |v| == n
  {
    if n == 0 then []
    else
      ElementsApart(size, n - 1, n);
      View(s[..Off(size, n - 1)], size, n - 1) + [s[Off(size, n - 1)..]]
  }

  lemma {:induction false} ViewAt(s: seq<int>, size: int, n: nat, i: int)
    requires 0 < size && |s| == Off(size, n) && 0 <= i < n
    ensures 0 <= Off(size, i) && Off(size, i) + size <= |s|
    ensures View(s, size, n)[i] == s[Off(size, i)..Off(size, i) + size]
  {
    ElementsApart(size, i, n);
    if i < n - 1 {
      ElementsApart(size, i, n - 1);
      ViewAt(s[..Off(size, n - 1)], size, n - 1, i);
    }
  }

  /** `s'` holds at `p` what `s` holds at `q`, for `size` bytes. */
  lemma {:induction false} SliceCopied(s: seq<int>, s': seq<int>, p: int, q: int, size: int)
    requires 0 <= p && p + size <= |s'| && 0 <= q && q + size <= |s| && 0 <= size
    requires forall u :: p <= u < p + size ==> s'[u] == s[u - p + q]
    ensures s'[p..p + size] == s[q..q + size]
  {
    var x, y := s'[p..p + size], s[q..q + size];
    forall w | 0 <= w < size
      ensures x[w] == y[w]
    {
      assert x[w] == s'[p + w];
    }
  }

  // ------------------------------------------------------------ exchanging two elements

  /** Exchanging elements at the level of elements. */
  function Swapped<T>(v: seq<T>, i: int, j: int): seq<T>
    requires 0 <= i < |v| && 0 <= j < |v|
  {
    v[i := v[j]][j := v[i]]
  }

  /** The byte that ends up at `u` when `count` bytes at `p` and at `q` are exchanged. */
  function SwapSource(p: int, q: int, count: int, u: int): int {
    if p <= u < p + count then u - p + q else if q <= u < q + count then u - q + p else u
  }

  ghost predicate BytesSwapped(s: seq<int>, s': seq<int>, p: int, q: int, count: int) {
    && |s'| == |s| && 0 <= p && p + count <= |s| && 0 <= q && q + count <= |s|
    && Apart(p, q, count)
    && (forall u {:trigger s'[u]} :: 0 <= u < |s| ==> s'[u] == s[SwapSource(p, q, count, u)])
  }

  /** What lies at `k` after the exchange lay at `g` before it. */
  lemma {:induction false} SwappedSlice(s: seq<int>, s': seq<int>, p: int, q: int, size: int, k: int, g: int)
    requires BytesSwapped(s, s', p, q, size) && 0 <= size && 0 <= k && k + size <= |s|
    requires (k == p && g == q) || (k == q && g == p) || (k == g && Apart(k, p, size) && Apart(k, q, size))
    ensures s'[k..k + size] == s[g..g + size]
  {
    SliceCopied(s, s', k, g, size);
  }

  predicate Apart(p: int, q: int, size: int) {
    p + size <= q || q + size <= p
  }

  lemma {:induction false} DistinctApart(size: int, i: int, j: int)
    requires 0 <= i && 0 <= j && i != j && 0 < size
    ensures Apart(Off(size, i), Off(size, j), size)
  {
    ElementsApart(size, if i < j then i else j, if i < j then j else i);
  }

  /** Which element supplies place `k` when `i` and `j` are exchanged. */
  function SwapFrom(i: int, j: int, k: int): int {
    if k == i then j else if k == j then i else k
  }

  lemma {:induction false} SwapOffsets(size: int, i: int, j: int, k: int)
    requires 0 < size && 0 <= i && 0 <= j && i != j && 0 <= k
    ensures var p, q, x, g := Off(size, i), Off(size, j), Off(size, k), Off(size, SwapFrom(i, j, k));
            (x == p && g == q) || (x == q && g == p) || (x == g && Apart(x, p, size) && Apart(x, q, size))
  {
    if k != i && k != j {
      DistinctApart(size, k, i);
      DistinctApart(size, k, j);
    }
  }

  lemma {:induction false} SwappedElement(s: seq<int>, s': seq<int>, size: int, n: nat, i: int, j: int, k: int)
    requires 0 < size && |s| == Off(size, n) && 0 <= i < n && 0 <= j < n && i != j && 0 <= k < n
    requires BytesSwapped(s, s', Off(size, i), Off(size, j), size)
    ensures View(s', size, n)[k] == View(s, size, n)[SwapFrom(i, j, k)]
  {
    var g := SwapFrom(i, j, k);
    ViewAt(s', size, n, k);
    ViewAt(s, size, n, g);
    SwapOffsets(size, i, j, k);
    SwappedSlice(s, s', Off(size, i), Off(size, j), size, Off(size, k), Off(size, g));
  }

  lemma {:induction false} BytesSwappedSwapsElements(s: seq<int>, s': seq<int>, size: int, n: nat, i: int, j: int)
    requires 0 < size && |s| == Off(size, n) && 0 <= i < n && 0 <= j < n && i != j
    requires BytesSwapped(s, s', Off(size, i), Off(size, j), size)
    ensures View(s', size, n) == Swapped(View(s, size, n), i, j)
  {
    forall k | 0 <= k < n
      ensures View(s', size, n)[k] == Swapped(View(s, size, n), i, j)[k]
    {
      SwappedElement(s, s', size, n, i, j, k);
    }
  }

  /** The loop of SWAP: exchange the bytes at `p` and at `q` one at a time. */
  method SwapBytes(a: array<int>, p: int, q: int, size: int)
    requires 0 < size && 0 <= p && p + size <= a.Length && 0 <= q && q + size <= a.Length && Apart(p, q, size)
    modifies a
    ensures BytesSwapped(old(a[..]), a[..], p, q, size)
  {
    ghost var s := a[..];
    var done := 0;
    while done < size
      invariant 0 <= done <= size
      invariant forall u {:trigger a[u]} :: 0 <= u < |s| ==> a[u] == s[SwapSource(p, q, done, u)]
    {
      var ch := a[p + done];
      a[p + done] := a[q + done];
      a[q + done] := ch;
      done := done + 1;
    }
  }

  /** SWAP of elements `i` and `j`. */
  method Swap(a: array<int>, size: int, n: nat, i: int, j: int)
    requires 0 < size && a.Length == Off(size, n) && 0 <= i < n && 0 <= j < n && i != j
    modifies a
    ensures View(a[..], size, n) == Swapped(old(View(a[..], size, n)), i, j)
  {
    ghost var s := a[..];
    ViewAt(s, size, n, i);
    ViewAt(s, size, n, j);
    DistinctApart(size, i, j);
    SwapBytes(a, Off(size, i), Off(size, j), size);
    BytesSwappedSwapsElements(s, a[..], size, n, i, j);
  }

  // ------------------------------------------------------------ rotating a run of elements

  /** Moving element `j` down to place `i`, the ones between up by one. */
  function Rotated<T>(v: seq<T>, i: int, j: int): seq<T>
    requires 0 <= i <= j < |v|
  {
    v[..i] + [v[j]] + v[i..j] + v[j + 1..]
  }

  lemma {:induction false} RotatedAt<T>(v: seq<T>, i: int, j: int, k: int)
    requires 0 <= i <= j < |v| && 0 <= k < |v|
    ensures |Rotated(v, i, j)| == |v|
    ensures Rotated(v, i, j)[k] == v[RotateFrom(i, j, k)]
  {
  }

  /** The byte that ends up at `u` when the elements from `p` to `q` are rotated. */
  function RotateSource(p: int, q: int, size: int, u: int): int {
    if p <= u < p + size then u - p + q else if p + size <= u < q + size then u - size else u
  }

  ghost predicate BytesRotated(s: seq<int>, s': seq<int>, p: int, q: int, size: int) {
    && |s'| == |s| && 0 <= size && 0 <= p && p + size <= q && q + size <= |s|
    && (forall u {:trigger s'[u]} :: 0 <= u < |s| ==> s'[u] == s[RotateSource(p, q, size, u)])
  }

  lemma {:induction false} RotatedSlice(s: seq<int>, s': seq<int>, p: int, q: int, size: int, k: int, g: int)
    requires BytesRotated(s, s', p, q, size) && 0 <= size && 0 <= k && k + size <= |s|
    requires (k == p && g == q) || (p + size <= k <= q && g == k - size) || (k == g && (k + size <= p || q + size <= k))
    ensures s'[k..k + size] == s[g..g + size]
  {
    SliceCopied(s, s', k, g, size);
  }

  /** Which element supplies place `k` when `j` goes down to `i`. */
  function RotateFrom(i: int, j: int, k: int): int {
    if k == i then j else if i < k <= j then k - 1 else k
  }

  lemma {:induction false} RotateOffsets(size: int, i: int, j: int, k: int)
    requires 0 < size && 0 <= i < j && 0 <= k
    ensures var p, q, x, g := Off(size, i), Off(size, j), Off(size, k), Off(size, RotateFrom(i, j, k));
            (x == p && g == q) || (p + size <= x <= q && g == x - size) || (x == g && (x + size <= p || q + size <= x))
  {
    if k < i {
      ElementsApart(size, k, i);
    } else if i < k <= j {
      ElementsApart(size, i, k);
      if k < j { ElementsApart(size, k, j); }
    } else if j < k {
      ElementsApart(size, j, k);
    }
  }

  lemma {:induction false} RotatedElement(s: seq<int>, s': seq<int>, size: int, n: nat, i: int, j: int, k: int)
    requires 0 < size && |s| == Off(size, n) && 0 <= i < j < n && 0 <= k < n
    requires BytesRotated(s, s', Off(size, i), Off(size, j), size)
    ensures View(s', size, n)[k] == View(s, size, n)[RotateFrom(i, j, k)]
  {
    var g := RotateFrom(i, j, k);
    var x, y := Off(size, k), Off(size, g);
    ViewAt(s', size, n, k);
    assert s'[x..x + size] == s[y..y + size] by {
      RotateOffsets(size, i, j, k);
      RotatedSlice(s, s', Off(size, i), Off(size, j), size, x, y);
    }
    ViewAt(s, size, n, g);
  }

  lemma {:induction false} BytesRotatedRotatesElements(s: seq<int>, s': seq<int>, size: int, n: nat, i: int, j: int)
    requires 0 < size && |s| == Off(size, n) && 0 <= i < j < n
    requires BytesRotated(s, s', Off(size, i), Off(size, j), size)
    ensures View(s', size, n) == Rotated(View(s, size, n), i, j)
  {
    forall k | 0 <= k < n
      ensures View(s', size, n)[k] == Rotated(View(s, size, n), i, j)[k]
    {
      RotatedElement(s, s', size, n, i, j, k);
      RotatedAt(View(s, size, n), i, j, k);
    }
  }

  /** The position within its element of the byte `x` bytes into a run of elements. */
  function Col(size: int, x: int): (c: int)
    requires 0 < size
    ensures 0 <= x ==> 0 <= c < size
    decreases x
  {
    if x < size then x else Col(size, x - size)
  }

  /** Bytes of one column are at least an element apart. */
  lemma {:induction false} ColUnique(size: int, x: int, y: int)
    requires 0 <= x < y < x + size
    ensures Col(size, x) != Col(size, y)
    decreases y
  {
    if x >= size {
      ColUnique(size, x - size, y - size);
    }
  }

  lemma {:induction false} ColOfElement(size: int, i: int, j: int, k: int)
    requires 0 <= i <= j && 0 <= k < size
    ensures 0 <= Off(size, j) - Off(size, i) && Col(size, Off(size, j) - Off(size, i) + k) == k
    decreases j
  {
    if i < j {
      ColOfElement(size, i, j - 1, k);
    }
  }

  /** Which byte sits at `u` once columns below `k`, and of column `k` the bytes above `s1`,
      have been moved up by one element. */
  function BubbleSource(p: int, q: int, size: int, k: int, s1: int, u: int): int
    requires 0 < size
  {
    if !(p <= u < q + size) then u
    else if Col(size, u - p) < k then RotateSource(p, q, size, u)
    else if Col(size, u - p) == k && s1 < u then u - size
    else u
  }

  /** Moving the mark down one element, or up from the top of the column, affects only the
      byte at the upper end. */
  lemma {:induction false} BubbleMark(p: int, q: int, size: int, k: int, lower: int, upper: int, u: int)
    requires 0 < size && p <= lower <= upper <= lower + size && u != upper
    requires Col(size, lower - p) == k
    ensures BubbleSource(p, q, size, k, lower, u) == BubbleSource(p, q, size, k, upper, u)
  {
    if lower < u < upper {
      ColUnique(size, lower - p, u - p);
    }
  }

  /** Filling the front of column `k` completes it. */
  lemma {:induction false} BubbleFront(p: int, q: int, size: int, k: int, u: int)
    requires 0 <= k < size && p + size <= q && Col(size, q + k - p) == k && u != p + k
    ensures BubbleSource(p, q, size, k, p + k, u) == BubbleSource(p, q, size, k + 1, q + size, u)
  {
    if p <= u < p + k {
      assert Col(size, u - p) == u - p;
    }
    if p + k < u < p + size {
      assert Col(size, u - p) == u - p;
    }
  }

  /** The inner loop: column `k` of the run moves up, leaving its front to be filled. */
  method ShiftColumn(a: array<int>, p: int, q: int, size: int, k: int, ghost s: seq<int>) returns (s1: int)
    requires 0 < size && 0 <= k < size && 0 <= p && p + size <= q && q + size <= a.Length == |s|
    requires Col(size, q + k - p) == k
    requires forall u {:trigger a[u]} :: 0 <= u < |s| ==> a[u] == s[BubbleSource(p, q, size, k, q + k, u)]
    modifies a
    ensures s1 == p + k
    ensures forall u {:trigger a[u]} :: 0 <= u < |s| ==> a[u] == s[BubbleSource(p, q, size, k, p + k, u)]
  {
    s1 := q + k;
    var s2 := s1 - size;
    while s2 >= p
      invariant s2 == s1 - size && p <= s1 <= q + k && Col(size, s1 - p) == k
      invariant forall u {:trigger a[u]} :: 0 <= u < |s| ==> a[u] == s[BubbleSource(p, q, size, k, s1, u)]
    {
      ghost var before := a[..];
      a[s1] := a[s2];
      forall u | 0 <= u < |s|
        ensures a[u] == s[BubbleSource(p, q, size, k, s2, u)]
      {
        if u != s1 {
          BubbleMark(p, q, size, k, s2, s1, u);
          assert a[u] == before[u];
        }
      }
      s1 := s2;
      s2 := s2 - size;
    }
  }

  /** Bubble one byte: column `k` of the run moves up and its last byte goes to the front. */
  method BubbleByte(a: array<int>, p: int, q: int, size: int, k: int, ghost s: seq<int>)
    requires 0 < size && 0 <= k < size && 0 <= p && p + size <= q && q + size <= a.Length == |s|
    requires Col(size, q + k - p) == k
    requires forall u {:trigger a[u]} :: 0 <= u < |s| ==> a[u] == s[BubbleSource(p, q, size, k, q + size, u)]
    modifies a
    ensures forall u {:trigger a[u]} :: 0 <= u < |s| ==> a[u] == s[BubbleSource(p, q, size, k + 1, q + size, u)]
  {
    var ch := a[q + k];
    forall u | 0 <= u < |s|
      ensures a[u] == s[BubbleSource(p, q, size, k, q + k, u)]
    {
      if u != q + size {
        BubbleMark(p, q, size, k, q + k, q + size, u);
      }
    }
    var s1 := ShiftColumn(a, p, q, size, k, s);
    ghost var before := a[..];
    a[s1] := ch;
    forall u | 0 <= u < |s|
      ensures a[u] == s[BubbleSource(p, q, size, k + 1, q + size, u)]
    {
      if u != s1 {
        BubbleFront(p, q, size, k, u);
        assert a[u] == before[u];
      }
    }
  }

  /** The byte loop of insertion_sort: element `j` goes down to place `i`. */
  method Rotate(a: array<int>, size: int, n: nat, i: int, j: int)
    requires 0 < size && a.Length == Off(size, n) && 0 <= i < j < n
    modifies a
    ensures View(a[..], size, n) == Rotated(old(View(a[..], size, n)), i, j)
  {
    ghost var s := a[..];
    var p, q := Off(size, i), Off(size, j);
    ElementsApart(size, i, j);
    ElementsApart(size, j, n);
    var k := 0;
    while k < size
      invariant 0 <= k <= size
      invariant forall u {:trigger a[u]} :: 0 <= u < |s| ==> a[u] == s[BubbleSource(p, q, size, k, q + size, u)]
    {
      ColOfElement(size, i, j, k);
      BubbleByte(a, p, q, size, k, s);
      k := k + 1;
    }
    BytesRotatedRotatesElements(s, a[..], size, n, i, j);
  }
}
