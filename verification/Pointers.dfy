/** Sorting a list of pointers with the library sort, which sees an array of bytes: each pointer is
    an element of four, the high one first. */
module Pointers {
  import opened Bytes
  import opened Qsort

  /** A total three-way comparison of pointers. */
  type PtrOrder = (int, int) -> int

  ghost predicate Before(cmp: PtrOrder, p: int, q: int) {
    cmp(p, q) <= 0
  }

  ghost predicate Flips(cmp: PtrOrder, p: int, q: int) {
    cmp(p, q) < 0 <==> cmp(q, p) > 0
  }

  ghost predicate Links(cmp: PtrOrder, p: int, q: int, r: int) {
    Before(cmp, p, q) && Before(cmp, q, r) ==> Before(cmp, p, r)
  }

  ghost predicate TotalOrder(cmp: PtrOrder) {
    && (forall p, q :: Flips(cmp, p, q))
    && (forall p, q, r :: Links(cmp, p, q, r))
  }

  ghost predicate InOrder(cmp: PtrOrder, s: seq<int>) {
    forall i, j :: 0 <= i < j < |s| ==> Before(cmp, s[i], s[j])
  }

  const SIZE := 4

  /** The bytes of a pointer; the first is a byte as long as the pointer is below 2^32. */
  function Word(p: int): (e: Elem)
    ensures |e| == SIZE
  {
    var q := p / 256;
    var r := q / 256;
    [r / 256, r % 256, q % 256, p % 256]
  }

  /** The pointer that an element of the array is. */
  function Ptr(e: Elem): int {
    if |e| == SIZE then ((e[0] * 256 + e[1]) * 256 + e[2]) * 256 + e[3] else -1
  }

  lemma {:induction false} PtrOfWord(p: int)
    ensures Ptr(Word(p)) == p
  {
    var q := p / 256;
    var r := q / 256;
    assert p == q * 256 + p % 256;
    assert q == r * 256 + q % 256;
    assert r == r / 256 * 256 + r % 256;
  }

  function OnElems(cmp: PtrOrder): Comparator {
    (x: Elem, y: Elem) => cmp(Ptr(x), Ptr(y))
  }

  lemma {:induction false} OnElemsConsistent(cmp: PtrOrder)
    requires TotalOrder(cmp)
    ensures Consistent(OnElems(cmp))
  {
    var c := OnElems(cmp);
    forall x: Elem, y: Elem
      ensures Mirrored(c, x, y)
    {
      assert Flips(cmp, Ptr(x), Ptr(y));
    }
    forall x: Elem, y: Elem, z: Elem
      ensures Chained(c, x, y, z)
    {
      assert Links(cmp, Ptr(x), Ptr(y), Ptr(z));
    }
  }

  // ------------------------------------------------------------ lists of pointers as bytes

  function Words(s: seq<int>): (v: seq<Elem>)
    ensures |v| == |s|
  {
    if s == [] then [] else Words(s[..|s| - 1]) + [Word(s[|s| - 1])]
  }

  /** The bytes of a list, one pointer after the other. */
  function Packed(s: seq<int>): (bytes: seq<int>)
    ensures |bytes| == Off(SIZE, |s|)
  {
    if s == [] then [] else Packed(s[..|s| - 1]) + Word(s[|s| - 1])
  }

  function Ptrs(v: seq<Elem>): (s: seq<int>)
    ensures |s| == |v|
    ensures forall i :: 0 <= i < |v| ==> s[i] == Ptr(v[i])
  {
    if v == [] then [] else Ptrs(v[..|v| - 1]) + [Ptr(v[|v| - 1])]
  }

  lemma {:induction false} PackedElements(s: seq<int>)
    ensures View(Packed(s), SIZE, |s|) == Words(s)
  {
    if s != [] {
      var front := s[..|s| - 1];
      PackedElements(front);
      assert Packed(s)[..Off(SIZE, |front|)] == Packed(front);
      assert Packed(s)[Off(SIZE, |front|)..] == Word(s[|s| - 1]);
    }
  }

  lemma {:induction false} PtrsOfWords(s: seq<int>)
    ensures Ptrs(Words(s)) == s
  {
    if s != [] {
      var front, p := s[..|s| - 1], s[|s| - 1];
      PtrsOfWords(front);
      PtrOfWord(p);
      assert Words(s)[..|s| - 1] == Words(front);
      assert s == front + [p];
    }
  }

  lemma {:induction false} PtrsAppend(v: seq<Elem>, w: seq<Elem>)
    ensures Ptrs(v + w) == Ptrs(v) + Ptrs(w)
  {
  }

  /** Elements taken in another order are the same pointers in another order. */
  lemma {:induction false} PtrsRearranged(v: seq<Elem>, w: seq<Elem>)
    requires multiset(v) == multiset(w)
    ensures multiset(Ptrs(v)) == multiset(Ptrs(w))
    decreases |v|
  {
    if v == [] {
      assert |multiset(w)| == 0;
    } else {
      var front, x := v[..|v| - 1], v[|v| - 1];
      assert v == front + [x];
      assert x in multiset(w);
      var i :| 0 <= i < |w| && w[i] == x;
      var l, r := w[..i], w[i + 1..];
      assert w == l + [x] + r;
      assert multiset(l + r) == multiset(w) - multiset{x};
      PtrsRearranged(front, l + r);
      PtrsAppend(front, [x]);
      PtrsAppend(l, r);
      PtrsAppend(l + [x], r);
      PtrsAppend(l, [x]);
    }
  }

  lemma {:induction false} SortedPair(cmp: PtrOrder, v: seq<Elem>, i: nat, j: nat)
    requires Sorted(OnElems(cmp), v, 0, |v|) && i < j < |v|
    ensures Before(cmp, Ptr(v[i]), Ptr(v[j]))
  {
    assert Le(OnElems(cmp), v[i], v[j]);
  }

  /** What sorting the elements makes of the pointers. */
  lemma {:induction false} SortedPointers(s: seq<int>, cmp: PtrOrder, v: seq<Elem>)
    requires Sorted(OnElems(cmp), v, 0, |v|) && multiset(v) == multiset(View(Packed(s), SIZE, |s|))
    ensures multiset(Ptrs(v)) == multiset(s) && InOrder(cmp, Ptrs(v))
  {
    PackedElements(s);
    PtrsRearranged(v, Words(s));
    PtrsOfWords(s);
    forall i, j | 0 <= i < j < |v|
      ensures Before(cmp, Ptrs(v)[i], Ptrs(v)[j])
    {
      SortedPair(cmp, v, i, j);
    }
  }

  /** Sorts a list of bytes, `n` elements of `size`. */
  method SortBytes(bytes: seq<int>, size: int, n: nat, cmp: Comparator) returns (v: seq<Elem>)
    requires 0 < size && |bytes| == Off(size, n) && Consistent(cmp)
    ensures |v| == n && Sorted(cmp, v, 0, n) && multiset(v) == multiset(View(bytes, size, n))
  {
    var a := new int[|bytes|];
    forall i | 0 <= i < |bytes| {
      a[i] := bytes[i];
    }
    assert a[..] == bytes;
    Qsort.Qsort(a, size, n, cmp);
    v := View(a[..], size, n);
  }

  /** The sorted list holds the same pointers, in order. */
  method SortPointers(s: seq<int>, cmp: PtrOrder) returns (t: seq<int>)
    requires TotalOrder(cmp)
    ensures multiset(t) == multiset(s) && InOrder(cmp, t)
  {
    OnElemsConsistent(cmp);
    var v := SortBytes(Packed(s), SIZE, |s|, OnElems(cmp));
    SortedPointers(s, cmp, v);
    t := Ptrs(v);
  }
}
