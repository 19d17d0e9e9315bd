/** The monitor's heap (lib/malloc.c over pmon/sbrk.c): a circular free list in address
    order, next-fit search that allocates from the tail of a block, and coalescing on
    both sides when a block is freed.

    Addresses count header units. The list anchor `base` lies below the heap. */
module Blocks {
  import opened Sets

  const NULL := 0
  const BASE := 1
  const UNIT := 8        // sizeof (HEADER)
  const NALLOC := 128

  /** Memory as the allocator sees it: the ptr and size fields of the header at each unit. */
  datatype Memory = Memory(ptr: seq<int>, size: seq<int>)

  /** What memory holds: the blocks by header address, those on the free list (with the
      anchor), and for each unit the block it belongs to, NULL if it was never obtained. */
  datatype Layout = Layout(free: set<int>, blocks: set<int>, owner: seq<int>) {
    ghost function Live(): set<int> {
      blocks - free
    }
  }

  // ------------------------------------------------------------ the shape of memory

  /** `y` follows `x` on a circular list of `free` in address order: it is the next
      larger member, or the anchor when `x` is the largest. */
  ghost predicate Follows(free: set<int>, x: int, y: int) {
    && y in free
    && (x < y || y == BASE)
    && (forall z :: z in free ==> z <= x || x < y <= z)
  }

  /** The free list threaded through `ptr`: circular, address-ordered, wrapping once. */
  ghost predicate Ring(ptr: seq<int>, free: set<int>) {
    && BASE in free
    && (forall x :: x in free ==> BASE <= x < |ptr|)
    && (forall x {:trigger ptr[x]} :: x in free ==> Follows(free, x, ptr[x]))
  }

  /** No two free blocks abut, except that those in `pending` are still being merged. */
  ghost predicate Coalesced(size: seq<int>, free: set<int>, pending: set<int>) {
    && (forall x :: x in free ==> 0 <= x < |size|)
    && (forall x, y :: x in free && y in free && x != BASE && x !in pending && y !in pending ==> x + size[x] != y)
  }

  /** Blocks are disjoint and together hold exactly the units obtained. */
  ghost predicate Tiling(size: seq<int>, blocks: set<int>, owner: seq<int>) {
    && |owner| == |size|
    && (forall p :: p in blocks ==> BASE < p < |size| && 0 < size[p] && p + size[p] <= |owner|)
    && (forall p, u :: p in blocks && p <= u < p + size[p] ==> owner[u] == p)
    && (forall u :: 0 <= u < |owner| && owner[u] != NULL ==>
          owner[u] in blocks && owner[u] <= u < owner[u] + size[owner[u]])
  }

  /** Everything that must hold of memory, with the blocks in `pending` still to be merged. */
  ghost predicate Shape(m: Memory, l: Layout, pending: set<int>) {
    && |m.ptr| == |m.size|
    && Ring(m.ptr, l.free) && Coalesced(m.size, l.free, pending) && Tiling(m.size, l.blocks, l.owner)
    && m.size[BASE] == 0
    && (forall x :: x in l.free && x != BASE ==> x in l.blocks)
  }

  // ------------------------------------------------------------ conservation

  ghost function Total(size: seq<int>, blocks: set<int>): int
    requires forall p :: p in blocks ==> 0 <= p < |size|
  {
    if blocks == {} then 0
    else
      var p := Pick(blocks);
      size[p] + Total(size, blocks - {p})
  }

  /** The `n` units from `b` on. */
  ghost function Units(b: int, n: int): (r: set<int>)
    ensures forall u :: u in r <==> b <= u < b + n
    decreases n
  {
    if n <= 0 then {} else Units(b, n - 1) + {b + n - 1}
  }

  lemma {:induction false} UnitsSize(b: int, n: nat)
    ensures |Units(b, n)| == n
  {
    if n > 0 {
      UnitsSize(b, n - 1);
    }
  }

  /** The sizes of any blocks add up to the number of units they own: free blocks and
      live blocks together account for every unit obtained, once each. */
  lemma {:induction false} UnitsAreConserved(m: Memory, l: Layout, some: set<int>, units: set<int>)
    requires Tiling(m.size, l.blocks, l.owner) && forall p :: p in some ==> p in l.blocks
    requires forall u :: u in units <==> 0 <= u < |l.owner| && l.owner[u] in some
    ensures Total(m.size, some) == |units|
    decreases some
  {
    if some == {} {
      if units != {} {
        var u := Pick(units);
      }
    } else {
      var p := Pick(some);
      var mine := Units(p, m.size[p]);
      BlockUnits(m.size, l.blocks, l.owner, p);
      UnitsAreConserved(m, l, some - {p}, units - mine);
      UnitsSize(p, m.size[p]);
      SplitSize(units, mine, units - mine);
    }
  }

  lemma {:induction false} BlockUnits(size: seq<int>, blocks: set<int>, owner: seq<int>, p: int)
    requires Tiling(size, blocks, owner) && p in blocks
    ensures forall u :: u in Units(p, size[p]) <==> 0 <= u < |owner| && owner[u] == p
  {
  }

  // ------------------------------------------------------------ following the list

  /** The entry reached from `a` by following `k` links. */
  function Walk(ptr: seq<int>, a: int, k: nat): int {
    if k == 0 then a
    else
      var x := Walk(ptr, a, k - 1);
      if 0 <= x < |ptr| then ptr[x] else x
  }

  ghost function Below(free: set<int>, x: int): set<int> {
    set y | y in free && y < x
  }

  lemma {:induction false} Greatest(s: set<int>) returns (g: int)
    requires s != {}
    ensures g in s && forall y :: y in s ==> y <= g
    decreases s
  {
    var x := Pick(s);
    var rest := s - {x};
    assert forall y :: y in s ==> y == x || y in rest;
    g := x;
    if rest != {} {
      var h := Greatest(rest);
      g := if h > x then h else x;
    } else {
      assert forall y :: y !in rest;
    }
  }

  /** Following the list from the anchor meets every free block, in address order: the one
      with k smaller members comes after k links. */
  lemma {:induction false} WalkFromAnchor(ptr: seq<int>, free: set<int>, x: int)
    requires Ring(ptr, free) && x in free
    ensures Walk(ptr, BASE, |Below(free, x)|) == x
    decreases |Below(free, x)|
  {
    if x == BASE {
      assert forall y :: y !in Below(free, x);
      NoMemberMeansEmpty(Below(free, x));
    } else {
      assert BASE in Below(free, x);
      var q := Greatest(Below(free, x));
      assert Follows(free, q, ptr[q]);
      assert q < ptr[q] <= x;
      assert ptr[q] !in Below(free, x);
      SplitSize(Below(free, x), Below(free, q), {q});
      WalkFromAnchor(ptr, free, q);
    }
  }

  lemma {:induction false} WalkOn(ptr: seq<int>, a: int, j: nat, k: nat)
    ensures Walk(ptr, Walk(ptr, a, j), k) == Walk(ptr, a, j + k)
  {
    if k > 0 {
      WalkOn(ptr, a, j, k - 1);
    }
  }

  ghost function Above(free: set<int>, x: int): set<int> {
    set y | y in free && y > x
  }

  /** From any entry the list comes back to the anchor. */
  lemma {:induction false} WalkToAnchor(ptr: seq<int>, free: set<int>, a: int) returns (k: nat)
    requires Ring(ptr, free) && a in free
    ensures Walk(ptr, a, k) == BASE
    decreases Above(free, a)
  {
    var b := ptr[a];
    assert Follows(free, a, b);
    assert Walk(ptr, a, 1) == b by { assert Walk(ptr, a, 0) == a; }
    k := 1;
    if b != BASE {
      assert b in Above(free, a) && b !in Above(free, b);
      var j := WalkToAnchor(ptr, free, b);
      WalkOn(ptr, a, 1, j);
      k := 1 + j;
    }
  }

  /** Following the list from any entry meets every free block. */
  lemma {:induction false} WalkMeetsEveryBlock(ptr: seq<int>, free: set<int>, a: int, x: int)
    requires Ring(ptr, free) && a in free && x in free
    ensures exists k :: Walk(ptr, a, k) == x
  {
    var j := WalkToAnchor(ptr, free, a);
    WalkFromAnchor(ptr, free, x);
    WalkOn(ptr, a, j, |Below(free, x)|);
  }

  // ------------------------------------------------------------ list surgery

  /** Two blocks never overlap. */
  lemma {:induction false} BlocksApart(size: seq<int>, blocks: set<int>, owner: seq<int>, p: int, q: int)
    requires Tiling(size, blocks, owner) && p in blocks && q in blocks && p < q
    ensures p + size[p] <= q
  {
    assert owner[q] == q;
  }

  /** A member that is not skipped over keeps its successor when another is removed. */
  lemma {:induction false} FollowsAfterRemove(free: set<int>, p: int, r: int, x: int, y: int)
    requires p in free && x in free && Follows(free, p, r) && p < r && BASE < r && Follows(free, x, y) && x != p
    requires x != r
    ensures Follows(free - {r}, x, y)
  {
    assert x <= p || r <= x;
    assert p <= x || x < y <= p;
  }

  lemma {:induction false} FollowsAfterInsert(free: set<int>, q: int, r: int, p: int, x: int, y: int)
    requires q in free && x in free && Follows(free, q, r) && q < p && (p < r || r == BASE) && Follows(free, x, y)
    requires x != q
    requires BASE <= q && p !in free
    ensures Follows(free + {p}, x, y)
  {
    assert x <= q || r <= x;
    assert q <= x || (x < y && y <= q);
    assert p <= x || (x < y && y <= p);
  }

  lemma {:induction false} FollowsInserted(free: set<int>, q: int, p: int, r: int)
    requires q in free && Follows(free, q, r) && BASE <= q < p && (p < r || r == BASE)
    ensures Follows(free + {p}, q, p) && Follows(free + {p}, p, r)
  {
  }

  /** Linking `p` in between `q` and its successor `r`. */
  lemma {:induction false} InsertKeepsRing(ptr: seq<int>, free: set<int>, q: int, p: int, r: int)
    requires Ring(ptr, free) && q in free && p !in free && p < |ptr| && ptr[q] == r
    requires q < p && (p < r || r == BASE)
    ensures Ring(ptr[p := r][q := p], free + {p})
  {
    var ptr', free' := ptr[p := r][q := p], free + {p};
    forall x {:trigger ptr'[x]} | x in free'
      ensures Follows(free', x, ptr'[x])
    {
      if x == p || x == q {
        FollowsInserted(free, q, p, r);
      } else {
        FollowsAfterInsert(free, q, r, p, x, ptr[x]);
      }
    }
  }

  /** Unlinking `r` from between `p` and its successor `n`. */
  lemma {:induction false} RemoveKeepsRing(ptr: seq<int>, free: set<int>, p: int, r: int, n: int)
    requires Ring(ptr, free) && p in free && ptr[p] == r != BASE && r in free && ptr[r] == n
    ensures Ring(ptr[p := n], free - {r})
  {
    var ptr', free' := ptr[p := n], free - {r};
    forall x {:trigger ptr'[x]} | x in free'
      ensures Follows(free', x, ptr'[x])
    {
      assert Follows(free, p, r) && Follows(free, r, n);
      if x != p {
        FollowsAfterRemove(free, p, r, x, ptr[x]);
      }
    }
  }

  /** Handing the units of block `r` to block `p`. */
  ghost function Absorb(owner: seq<int>, p: int, r: int): (owner': seq<int>)
    ensures |owner'| == |owner|
    ensures forall u :: 0 <= u < |owner| ==> owner'[u] == if owner[u] == r then p else owner[u]
  {
    seq(|owner|, u requires 0 <= u < |owner| => if owner[u] == r then p else owner[u])
  }

  lemma {:induction false} MergeKeepsTiling(size: seq<int>, blocks: set<int>, owner: seq<int>, p: int, r: int)
    requires Tiling(size, blocks, owner) && p in blocks && r in blocks && p + size[p] == r
    ensures Tiling(size[p := size[p] + size[r]], blocks - {r}, Absorb(owner, p, r))
  {
  }

  // ------------------------------------------------------------ freeing

  lemma {:induction false} LinkKeepsShape(m: Memory, l: Layout, q: int, p: int, r: int)
    requires Shape(m, l, {})
    requires q in l.free && p in l.Live() && m.ptr[q] == r && q < p && (p < r || r == BASE)
    ensures Shape(m.(ptr := m.ptr[p := r][q := p]), l.(free := l.free + {p}), {p})
  {
    InsertKeepsRing(m.ptr, l.free, q, p, r);
  }

  /** The layout once `b` has become part of `a`. */
  ghost function Merged(l: Layout, a: int, b: int): Layout {
    Layout(l.free - {b}, l.blocks - {b}, Absorb(l.owner, a, b))
  }

  /** Merging `a` with the entry `b` that follows it and abuts it. */
  lemma {:induction false} MergeKeepsShape(m: Memory, l: Layout, p: int, a: int, b: int)
    requires Shape(m, l, {p})
    requires a in l.free && b in l.free && BASE < a && m.ptr[a] == b && a + m.size[a] == b && (a == p || b == p)
    ensures Shape(Memory(m.ptr[a := m.ptr[b]], m.size[a := m.size[a] + m.size[b]]), Merged(l, a, b), {a})
  {
    RemoveKeepsRing(m.ptr, l.free, a, b, m.ptr[b]);
    MergeKeepsTiling(m.size, l.blocks, l.owner, a, b);
  }

  lemma {:induction false} RightClear(m: Memory, l: Layout, p: int)
    requires Shape(m, l, {p})
    requires p in l.free && BASE < p && p + m.size[p] != m.ptr[p]
    ensures forall y :: y in l.free ==> p + m.size[p] != y
  {
    assert Follows(l.free, p, m.ptr[p]);
    if m.ptr[p] != BASE {
      BlocksApart(m.size, l.blocks, l.owner, p, m.ptr[p]);
    }
  }

  lemma {:induction false} LeftClear(m: Memory, l: Layout, q: int, p: int)
    requires Shape(m, l, {p})
    requires q in l.free && p in l.free && BASE < p && m.ptr[q] == p && q + m.size[q] != p
    ensures forall y :: y in l.free && BASE < y ==> y + m.size[y] != p
  {
    assert Follows(l.free, q, p);
    forall y | y in l.free && BASE < y < q
      ensures y + m.size[y] != p
    {
      BlocksApart(m.size, l.blocks, l.owner, y, q);
    }
  }

  /** `p` joined to its right neighbour, as the first half of free leaves it. */
  function FreedRight(m: Memory, q: int, p: int): Memory
    requires |m.ptr| == |m.size| && 0 <= q < |m.ptr| && 0 <= p < |m.ptr| && 0 <= m.ptr[q] < |m.ptr|
  {
    var r := m.ptr[q];
    if p + m.size[p] == r then Memory(m.ptr[p := m.ptr[r]], m.size[p := m.size[p] + m.size[r]])
    else m.(ptr := m.ptr[p := r])
  }

  /** `q` joined to `p`, as the second half leaves it. */
  function FreedLeft(m: Memory, q: int, p: int): Memory
    requires |m.ptr| == |m.size| && 0 <= q < |m.ptr| && 0 <= p < |m.ptr|
  {
    if q + m.size[q] == p then Memory(m.ptr[q := m.ptr[p]], m.size[q := m.size[q] + m.size[p]])
    else m.(ptr := m.ptr[q := p])
  }

  /** `q` is the place for `p`: the entry after which it belongs. */
  ghost predicate Place(m: Memory, l: Layout, q: int, p: int) {
    q in l.free && 0 <= q < |m.ptr| && q < p && (p < m.ptr[q] || m.ptr[q] == BASE)
  }

  /** Exactly block `p` left the blocks in use, and its units joined the free ones. */
  ghost predicate Released(l: Layout, p: int, l': Layout) {
    && |l'.owner| == |l.owner|
    && l'.Live() == l.Live() - {p}
    && (forall u :: 0 <= u < |l.owner| ==> (l'.owner[u] in l'.free <==> l.owner[u] in l.free || l.owner[u] == p))
    && (forall u :: 0 <= u < |l.owner| && l'.owner[u] !in l'.free ==> l'.owner[u] == l.owner[u])
  }

  /** The case in which `p` abuts its right neighbour `r`. */
  lemma {:induction false} RightMergeKeepsShape(m: Memory, l: Layout, q: int, p: int, r: int)
    requires Shape(m, l, {}) && p in l.Live() && Place(m, l, q, p) && m.ptr[q] == r && p + m.size[p] == r
    ensures r in l.free && r != q
    ensures var m' := Memory(m.ptr[p := m.ptr[r]], m.size[p := m.size[p] + m.size[r]]);
            var l' := Merged(l.(free := l.free + {p}), p, r);
            && Shape(m'.(ptr := m'.ptr[q := p]), l', {p})
            && p + m'.size[p] != m'.ptr[p] && Released(l, p, l')
  {
    LinkKeepsShape(m, l, q, p, r);
    var m1 := m.(ptr := m.ptr[p := r][q := p]);
    assert Follows(l.free, q, r) && Follows(l.free, r, m.ptr[r]);
    MergeKeepsShape(m1, l.(free := l.free + {p}), p, p, r);
    assert m1.ptr[p := m1.ptr[r]] == m.ptr[p := m.ptr[r]][q := p];
  }

  /** After the right-hand join, with `q` already pointing at `p`. */
  lemma {:induction false} RightJoinKeepsShape(m: Memory, l: Layout, q: int, p: int) returns (l': Layout)
    requires Shape(m, l, {}) && p in l.Live() && Place(m, l, q, p)
    ensures var m' := FreedRight(m, q, p);
            && Shape(m'.(ptr := m'.ptr[q := p]), l', {p})
            && p + m'.size[p] != m'.ptr[p] && m'.size[q] == m.size[q]
    ensures p in l'.free && q in l'.free && Released(l, p, l')
  {
    var r := m.ptr[q];
    if p + m.size[p] == r {
      RightMergeKeepsShape(m, l, q, p, r);
      l' := Merged(l.(free := l.free + {p}), p, r);
    } else {
      LinkKeepsShape(m, l, q, p, r);
      l' := l.(free := l.free + {p});
    }
  }

  lemma {:induction false} LeftJoinKeepsShape(m: Memory, l: Layout, q: int, p: int) returns (l': Layout)
    requires q != p && 0 <= q < |m.ptr| && Shape(m.(ptr := m.ptr[q := p]), l, {p})
    requires q in l.free && p in l.free && BASE < p && p + m.size[p] != m.ptr[p]
    ensures Shape(FreedLeft(m, q, p), l', {}) && q in l'.free
    ensures l' == if q + m.size[q] == p then Merged(l, q, p) else l
  {
    var m1 := m.(ptr := m.ptr[q := p]);
    l' := l;
    RightClear(m1, l, p);
    if q + m.size[q] == p {
      MergeKeepsShape(m1, l, p, q, p);
      assert m1.ptr[q := m1.ptr[p]] == m.ptr[q := m.ptr[p]];
      l' := Merged(l, q, p);
    } else {
      LeftClear(m1, l, q, p);
    }
  }

  /** What free does to memory, once the place `q` for block `p` is known. */
  function Freed(m: Memory, q: int, p: int): Memory
    requires |m.ptr| == |m.size| && 0 <= q < |m.ptr| && 0 <= p < |m.ptr| && 0 <= m.ptr[q] < |m.ptr|
  {
    FreedLeft(FreedRight(m, q, p), q, p)
  }

  lemma {:induction false} FreedKeepsShape(m: Memory, l: Layout, q: int, p: int) returns (l': Layout)
    requires Shape(m, l, {}) && p in l.Live() && Place(m, l, q, p)
    ensures Shape(Freed(m, q, p), l', {}) && q in l'.free && Released(l, p, l')
  {
    var l1 := RightJoinKeepsShape(m, l, q, p);
    l' := LeftJoinKeepsShape(FreedRight(m, q, p), l1, q, p);
  }

  /** No header inside a block that stays in use was written. */
  ghost predicate Untouched(l: Layout, except: int, m: Memory, m': Memory) {
    && |m'.ptr| == |m'.size| == |m.ptr| == |m.size| == |l.owner|
    && forall u :: 0 <= u < |m.ptr| && l.owner[u] != NULL && l.owner[u] !in l.free && l.owner[u] != except ==>
         m'.ptr[u] == m.ptr[u] && m'.size[u] == m.size[u]
  }

  /** Some free block has `n` units. */
  ghost predicate HasRoom(m: Memory, l: Layout, n: int) {
    exists x :: x in l.free && 0 <= x < |m.size| && m.size[x] >= n
  }

  /** Only the two headers at the seam change. */
  lemma {:induction false} FreedWrites(m: Memory, q: int, p: int)
    requires |m.ptr| == |m.size| && 0 <= q < |m.ptr| && 0 <= p < |m.ptr| && 0 <= m.ptr[q] < |m.ptr| && q != p
    requires 0 <= m.size[q] && 0 <= m.size[m.ptr[q]]
    ensures var m' := Freed(m, q, p);
            && |m'.ptr| == |m'.size| == |m.ptr|
            && (forall u :: 0 <= u < |m.ptr| && u != p && u != q ==> m'.ptr[u] == m.ptr[u] && m'.size[u] == m.size[u])
            && (if q + m.size[q] == p then m'.size[q] >= m.size[p] else m'.ptr[q] == p && m'.size[p] >= m.size[p])
  {
  }

  /** No live memory is written, and a free block at least as big as `p` results. */
  lemma {:induction false} FreedTouchesNoLiveBlock(m: Memory, l: Layout, q: int, p: int, l': Layout)
    requires Shape(m, l, {}) && p in l.Live() && Place(m, l, q, p)
    requires Shape(Freed(m, q, p), l', {}) && q in l'.free
    ensures Untouched(l, p, m, Freed(m, q, p)) && HasRoom(Freed(m, q, p), l', m.size[p])
  {
    assert Follows(l.free, q, m.ptr[q]);
    FreedWrites(m, q, p);
    assert l.owner[p] == p;
    assert q != BASE ==> l.owner[q] == q;
    if q + m.size[q] != p {
      assert Follows(l'.free, q, Freed(m, q, p).ptr[q]);
    }
  }

  /** A heap whose free list exists; the units from `brk` on have not been obtained. */
  ghost predicate Good(m: Memory, l: Layout, allocp: int, brk: int) {
    && allocp in l.free && Shape(m, l, {})
    && BASE < brk <= |m.ptr| && forall u :: brk <= u < |l.owner| ==> l.owner[u] == NULL
  }

  /** A heap nothing has been asked of yet. */
  ghost predicate Untapped(m: Memory, l: Layout, brk: int) {
    && |m.ptr| == |m.size| == |l.owner| && BASE < brk && l.free == {} && l.blocks == {}
    && forall u :: 0 <= u < |l.owner| ==> l.owner[u] == NULL
  }

  lemma {:induction false} FreedIsGood(m: Memory, l: Layout, allocp: int, brk: int, q: int, p: int) returns (l': Layout)
    requires Good(m, l, allocp, brk) && p in l.Live() && Place(m, l, q, p)
    ensures Good(Freed(m, q, p), l', q, brk) && BASE <= q && |Freed(m, q, p).ptr| == |m.ptr|
    ensures Released(l, p, l') && Untouched(l, p, m, Freed(m, q, p)) && HasRoom(Freed(m, q, p), l', m.size[p])
  {
    l' := FreedKeepsShape(m, l, q, p);
    FreedTouchesNoLiveBlock(m, l, q, p, l');
  }

  /** The entries free still has to pass on its way to the place of `p`. */
  ghost function Ahead(free: set<int>, q: int, p: int): set<int> {
    set x | x in free && if q < p then q < x < p else q < x
  }

  lemma {:induction false} PlaceGetsCloser(ptr: seq<int>, free: set<int>, q: int, p: int)
    requires Ring(ptr, free) && q in free && p !in free && BASE < p
    requires !(p > q && p < ptr[q]) && !(q >= ptr[q] && (p > q || p < ptr[q]))
    ensures (p < q && ptr[q] < p) || ((p < q <==> p < ptr[q]) && Ahead(free, ptr[q], p) < Ahead(free, q, p))
  {
    assert Follows(free, q, ptr[q]);
    if !(p < q && ptr[q] < p) {
      assert ptr[q] in Ahead(free, q, p);
      assert ptr[q] !in Ahead(free, ptr[q], p);
    }
  }

  // ------------------------------------------------------------ allocating

  /** Giving units `t` to `t + n` to a new block at `t`. */
  ghost function Carve(owner: seq<int>, t: int, n: int): (owner': seq<int>)
    ensures |owner'| == |owner|
    ensures forall u :: 0 <= u < |owner| ==> owner'[u] == if t <= u < t + n then t else owner[u]
  {
    seq(|owner|, u requires 0 <= u < |owner| => if t <= u < t + n then t else owner[u])
  }

  /** The tail of a block is not itself a block. */
  lemma {:induction false} TailIsInside(size: seq<int>, blocks: set<int>, owner: seq<int>, p: int, t: int)
    requires Tiling(size, blocks, owner) && p in blocks && p < t < p + size[p]
    ensures t !in blocks && t < |size| && owner[t] == p
  {
    assert owner[t] == p;
  }

  /** Splitting the last `n` units off block `p`. */
  lemma {:induction false} SplitKeepsTiling(size: seq<int>, blocks: set<int>, owner: seq<int>, p: int, n: int, t: int)
    requires Tiling(size, blocks, owner) && p in blocks && 0 < n < size[p] && t == p + size[p] - n
    requires t !in blocks && t < |size|
    ensures Tiling(size[p := size[p] - n][t := n], blocks + {t}, Carve(owner, t, n))
  {
    var size', owner' := size[p := size[p] - n][t := n], Carve(owner, t, n);
    forall x, u | x in blocks && x <= u < x + size'[x]
      ensures owner'[u] == x
    {
      assert owner[u] == x;
      assert p <= u < p + size[p] ==> owner[u] == p;
    }
    forall u | 0 <= u < |owner'| && owner'[u] != NULL
      ensures owner'[u] in blocks + {t} && owner'[u] <= u < owner'[u] + size'[owner'[u]]
    {
      if !(t <= u < t + n) {
        assert owner[u] in blocks;
      }
    }
  }

  /** Taking the last `n` units of block `p` for use. */
  lemma {:induction false} TakeTailKeepsShape(m: Memory, l: Layout, p: int, n: int, t: int)
    requires Shape(m, l, {}) && p in l.free && p != BASE && 0 < n < m.size[p] && t == p + m.size[p] - n
    ensures t !in l.blocks && t < |m.size|
    ensures Shape(m.(size := m.size[p := m.size[p] - n][t := n]),
                  Layout(l.free, l.blocks + {t}, Carve(l.owner, t, n)), {})
  {
    TailIsInside(m.size, l.blocks, l.owner, p, t);
    SplitKeepsTiling(m.size, l.blocks, l.owner, p, n, t);
  }

  /** Taking the whole of block `p`, whose predecessor is `q`, for use. */
  lemma {:induction false} TakeWholeKeepsShape(m: Memory, l: Layout, q: int, p: int)
    requires Shape(m, l, {}) && q in l.free && p in l.free && p != BASE && m.ptr[q] == p
    ensures q != p && Shape(m.(ptr := m.ptr[q := m.ptr[p]]), l.(free := l.free - {p}), {})
  {
    assert Follows(l.free, q, p);
    RemoveKeepsRing(m.ptr, l.free, q, p, m.ptr[p]);
  }

  /** Exactly block `t` of `n` units joined the blocks in use, out of units that were free. */
  ghost predicate Taken(l: Layout, t: int, n: int, l': Layout) {
    && |l'.owner| == |l.owner|
    && t !in l.Live() && l'.Live() == l.Live() + {t}
    && (forall u :: 0 <= u < |l.owner| && t <= u < t + n ==> l.owner[u] in l.free && l'.owner[u] == t)
    && (forall u :: 0 <= u < |l.owner| && !(t <= u < t + n) ==> l'.owner[u] == l.owner[u])
  }

  /** What malloc does once the search stops at `p`, whose predecessor is `q`: the block it
      hands out, and memory and layout afterwards. */
  function AllocatedAt(m: Memory, p: int, n: int): int
    requires 0 <= p < |m.size|
  {
    p + m.size[p] - n
  }

  function AllocatedMem(m: Memory, q: int, p: int, n: int): Memory
    requires |m.ptr| == |m.size| && 0 <= q < |m.ptr| && 0 <= p < |m.ptr| && 0 < n <= m.size[p]
    requires p + m.size[p] <= |m.size|
  {
    if m.size[p] == n then m.(ptr := m.ptr[q := m.ptr[p]])
    else m.(size := m.size[p := m.size[p] - n][AllocatedAt(m, p, n) := n])
  }

  ghost function AllocatedLay(m: Memory, l: Layout, p: int, n: int): Layout
    requires 0 <= p < |m.size|
  {
    var t := AllocatedAt(m, p, n);
    if m.size[p] == n then l.(free := l.free - {p}) else Layout(l.free, l.blocks + {t}, Carve(l.owner, t, n))
  }

  lemma {:induction false} WholeIsGood(m: Memory, l: Layout, allocp: int, brk: int, q: int, p: int)
    requires Good(m, l, allocp, brk) && q in l.free && p in l.free && p != BASE && m.ptr[q] == p
    ensures var m', l' := m.(ptr := m.ptr[q := m.ptr[p]]), l.(free := l.free - {p});
            Good(m', l', q, brk) && Taken(l, p, m.size[p], l') && Untouched(l, NULL, m, m')
  {
    TakeWholeKeepsShape(m, l, q, p);
    assert q != BASE ==> l.owner[q] == q;
  }

  lemma {:induction false} TailIsGood(m: Memory, l: Layout, allocp: int, brk: int, q: int, p: int, n: int, t: int)
    requires Good(m, l, allocp, brk) && q in l.free && p in l.free && p != BASE && 0 < n < m.size[p]
    requires t == p + m.size[p] - n
    ensures t < |m.size|
    ensures var m' := m.(size := m.size[p := m.size[p] - n][t := n]);
            var l' := Layout(l.free, l.blocks + {t}, Carve(l.owner, t, n));
            Good(m', l', q, brk) && Taken(l, t, n, l') && Untouched(l, NULL, m, m')
  {
    TakeTailKeepsShape(m, l, p, n, t);
    TailIsInside(m.size, l.blocks, l.owner, p, t);
    assert l.owner[p] == p;
    TailIsBelow(m, l, allocp, brk, p);
  }

  /** A block ends below the break. */
  lemma {:induction false} TailIsBelow(m: Memory, l: Layout, allocp: int, brk: int, p: int)
    requires Good(m, l, allocp, brk) && p in l.blocks
    ensures p + m.size[p] <= brk
  {
    assert l.owner[p + m.size[p] - 1] == p;
  }

  lemma {:induction false} AllocatedIsGood(m: Memory, l: Layout, allocp: int, brk: int, q: int, p: int, n: int)
    requires Good(m, l, allocp, brk) && q in l.free && p in l.free && m.ptr[q] == p && 0 < n <= m.size[p]
    ensures p + m.size[p] <= |m.size| && BASE <= q
    ensures Good(AllocatedMem(m, q, p, n), AllocatedLay(m, l, p, n), q, brk)
    ensures Taken(l, AllocatedAt(m, p, n), n, AllocatedLay(m, l, p, n))
    ensures Untouched(l, NULL, m, AllocatedMem(m, q, p, n))
    ensures AllocatedMem(m, q, p, n).size[AllocatedAt(m, p, n)] == n
  {
    if m.size[p] == n {
      WholeIsGood(m, l, allocp, brk, q, p);
    } else {
      TailIsGood(m, l, allocp, brk, q, p, n, AllocatedAt(m, p, n));
    }
  }

  /** The layout with `n` fresh units at `b` as a block of its own. */
  ghost function Grown(l: Layout, b: int, n: int): Layout {
    Layout(l.free, l.blocks + {b}, Carve(l.owner, b, n))
  }

  lemma {:induction false} GrowKeepsTiling(size: seq<int>, blocks: set<int>, owner: seq<int>, b: int, n: int)
    requires Tiling(size, blocks, owner) && BASE < b && 0 < n && b + n <= |size|
    requires b !in blocks && forall u :: b <= u < b + n ==> owner[u] == NULL
    ensures Tiling(size[b := n], blocks + {b}, Carve(owner, b, n))
  {
    forall x, u | x in blocks && x <= u < x + size[x]
      ensures Carve(owner, b, n)[u] == x
    {
      assert owner[u] == x;
    }
  }

  lemma {:induction false} GrownIsGood(m: Memory, l: Layout, allocp: int, brk: int, n: int)
    requires Good(m, l, allocp, brk) && 0 < n && brk + n <= |m.ptr|
    ensures brk !in l.blocks && brk !in l.free
    ensures Good(m.(size := m.size[brk := n]), Grown(l, brk, n), allocp, brk + n)
  {
    assert l.owner[brk] == NULL;
    GrowKeepsTiling(m.size, l.blocks, l.owner, brk, n);
  }

  /** The blocks in use stayed as they were and `n` fresh units at `b` became free. */
  ghost predicate Extended(l: Layout, b: int, n: int, l': Layout) {
    && |l'.owner| == |l.owner|
    && l'.Live() == l.Live()
    && (forall u :: 0 <= u < |l.owner| ==> (l'.owner[u] in l'.free <==> l.owner[u] in l.free || b <= u < b + n))
    && (forall u :: 0 <= u < |l.owner| && l'.owner[u] !in l'.free ==> l'.owner[u] == l.owner[u])
  }

  /** Freeing fresh units extends the heap by exactly those units. */
  lemma {:induction false} ReleasedExtends(m: Memory, l: Layout, allocp: int, b: int, n: int, m': Memory, l': Layout)
    requires Good(m, l, allocp, b) && 0 < n && b + n <= |m.ptr|
    requires Released(Grown(l, b, n), b, l') && Untouched(Grown(l, b, n), b, m.(size := m.size[b := n]), m')
    ensures Extended(l, b, n, l') && Untouched(l, NULL, m, m')
  {
    GrownIsGood(m, l, allocp, b, n);
  }

  /** morecore's request, rounded up to whole lots of NALLOC units. */
  function Rounded(nu: int): int {
    NALLOC * ((nu + NALLOC - 1) / NALLOC)
  }

  lemma {:induction false} RoundedIsEnough(nu: int)
    ensures nu <= Rounded(nu) < nu + NALLOC
  {
  }

  /** Entries of the list the search has passed, from its start `a` up to the cursor `p`. */
  ghost predicate Seen(free: set<int>, a: int, wrapped: bool, p: int, x: int) {
    x in free && if wrapped then a < x || x < p else a < x < p
  }

  ghost function Unseen(free: set<int>, a: int, wrapped: bool, p: int): set<int> {
    set x | x in free && !Seen(free, a, wrapped, p, x)
  }

  ghost predicate SeenAreSmall(m: Memory, l: Layout, a: int, wrapped: bool, p: int, n: int) {
    && (if wrapped then p <= a else a < p)
    && forall x :: Seen(l.free, a, wrapped, p, x) && 0 <= x < |m.size| ==> m.size[x] < n
  }

  /** The two pointers of the search: `p` and its predecessor `q`. */
  ghost predicate Cursor(m: Memory, l: Layout, q: int, p: int) {
    q in l.free && p in l.free && 0 <= q < |m.ptr| && m.ptr[q] == p
  }

  /** Starting the search: nothing has been seen. */
  lemma {:induction false} SearchStarts(m: Memory, l: Layout, a: int, n: int)
    requires Ring(m.ptr, l.free) && a in l.free
    ensures SeenAreSmall(m, l, a, m.ptr[a] <= a, m.ptr[a], n) && m.ptr[a] in l.free
  {
    assert Follows(l.free, a, m.ptr[a]);
  }

  /** Moving the cursor past `p`: exactly `p` is seen in addition. */
  lemma {:induction false} SearchMoves(m: Memory, l: Layout, a: int, wrapped: bool, p: int, n: int)
    requires Ring(m.ptr, l.free) && |m.ptr| == |m.size| && a in l.free && p in l.free && p != a
    requires SeenAreSmall(m, l, a, wrapped, p, n) && m.size[p] < n
    ensures var w := wrapped || m.ptr[p] <= p;
            && m.ptr[p] in l.free && SeenAreSmall(m, l, a, w, m.ptr[p], n)
            && Unseen(l.free, a, w, m.ptr[p]) < Unseen(l.free, a, wrapped, p)
  {
    var w := wrapped || m.ptr[p] <= p;
    assert Follows(l.free, p, m.ptr[p]);
    assert p in Unseen(l.free, a, wrapped, p);
    assert p !in Unseen(l.free, a, w, m.ptr[p]);
  }

  /** Back at the start with nothing found: no free block is big enough. */
  lemma {:induction false} SearchExhausted(m: Memory, l: Layout, a: int, wrapped: bool, n: int)
    requires a in l.free && 0 <= a < |m.size|
    requires SeenAreSmall(m, l, a, wrapped, a, n) && m.size[a] < n
    ensures !HasRoom(m, l, n)
  {
    assert forall x :: x in l.free && x != a ==> Seen(l.free, a, wrapped, a, x);
  }

  /** The heap after the anchor has been linked to itself. */
  ghost function Anchored(m: Memory): Memory
    requires |m.ptr| == |m.size| && BASE < |m.ptr|
  {
    Memory(m.ptr[BASE := BASE], m.size[BASE := 0])
  }

  lemma {:induction false} AnchoredIsGood(m: Memory, l: Layout, brk: int)
    requires Untapped(m, l, brk) && brk <= |m.ptr|
    ensures Good(Anchored(m), l.(free := {BASE}), BASE, brk)
    ensures l.(free := {BASE}).Live() == l.Live()
  {
  }

  /** Header units for `nbytes` of data: the data rounded up, and the header itself. */
  function UnitsFor(nbytes: nat): int {
    (nbytes + UNIT - 1) / UNIT + 1
  }

  lemma {:induction false} UnitsForIsEnough(nbytes: nat)
    ensures 0 < UnitsFor(nbytes)
    ensures nbytes <= UNIT * (UnitsFor(nbytes) - 1) < nbytes + UNIT
  {
  }

  /** The units owned by some blocks. */
  ghost function OwnedBy(l: Layout, some: set<int>): set<int> {
    set u | 0 <= u < |l.owner| && l.owner[u] in some
  }

  /** `got` are the units that belong to some block. */
  ghost predicate Records(got: set<int>, owner: seq<int>) {
    forall u :: u in got <==> 0 <= u < |owner| && owner[u] != NULL
  }

  /** The units obtained are all in blocks, free or live: none is lost, none made up. */
  lemma {:induction false} FreePlusLiveIsObtained(m: Memory, l: Layout, allocp: int, brk: int, got: set<int>)
    requires Good(m, l, allocp, brk) && Records(got, l.owner)
    ensures Total(m.size, l.free - {BASE}) + Total(m.size, l.Live()) == |got|
  {
    var idle, busy := OwnedBy(l, l.free - {BASE}), OwnedBy(l, l.Live());
    UnitsAreConserved(m, l, l.free - {BASE}, idle);
    UnitsAreConserved(m, l, l.Live(), busy);
    OwnedUnits(m, l, got);
    SplitSize(got, idle, busy);
  }

  lemma {:induction false} OwnedUnits(m: Memory, l: Layout, got: set<int>)
    requires Shape(m, l, {}) && Records(got, l.owner)
    ensures forall u :: u in got <==> u in OwnedBy(l, l.free - {BASE}) || u in OwnedBy(l, l.Live())
    ensures forall u :: u in OwnedBy(l, l.free - {BASE}) ==> u !in OwnedBy(l, l.Live())
  {
    forall u
      ensures u in got <==> u in OwnedBy(l, l.free - {BASE}) || u in OwnedBy(l, l.Live())
    {
      if 0 <= u < |l.owner| {
        assert l.owner[u] != NULL ==> l.owner[u] in l.blocks;
      }
    }
  }

  /** Fresh units are counted on top of those obtained before. */
  lemma {:induction false} GotMore(owner: seq<int>, got: set<int>, b: int, n: int)
    requires Records(got, owner) && 0 <= b && 0 <= n && b + n <= |owner|
    requires forall u :: b <= u < b + n ==> owner[u] == NULL
    ensures |got + Units(b, n)| == |got| + n
    ensures b != NULL ==> Records(got + Units(b, n), Carve(owner, b, n))
  {
    UnitsSize(b, n);
    SplitSize(got + Units(b, n), got, Units(b, n));
  }

  lemma {:induction false} ReleasedRecords(l: Layout, p: int, l': Layout, got: set<int>)
    requires Records(got, l.owner) && Released(l, p, l') && p != NULL && NULL !in l.free && NULL !in l'.free
    ensures Records(got, l'.owner)
  {
    forall u | 0 <= u < |l.owner|
      ensures l'.owner[u] != NULL <==> l.owner[u] != NULL
    {
      assert l'.owner[u] in l'.free <==> l.owner[u] in l.free || l.owner[u] == p;
    }
  }

  lemma {:induction false} TakenRecords(l: Layout, t: int, n: int, l': Layout, got: set<int>)
    requires Records(got, l.owner) && Taken(l, t, n, l') && t != NULL && NULL !in l.free
    ensures Records(got, l'.owner)
  {
    forall u | 0 <= u < |l.owner|
      ensures l'.owner[u] != NULL <==> l.owner[u] != NULL
    {
      assert t <= u < t + n ==> l.owner[u] in l.free;
    }
  }

  /** Between the break at `b` with `got` obtained and the break at `b'` with `got'`, exactly
      the units that the break passed have been obtained. */
  ghost predicate Obtained(b: int, got: set<int>, b': int, got': set<int>) {
    && b <= b' && |got'| == |got| + (b' - b)
    && forall u :: u in got' <==> u in got || b <= u < b'
  }

  /** How the heap has changed during a search for `n` units that began with `m`, `l` and
      the break at `b`: not at all, or by one successful call of morecore, made because no
      free block was big enough. */
  ghost predicate Searched(m: Memory, l: Layout, b: int, n: int, grown: bool, m': Memory, l': Layout, b': int) {
    && (!grown ==> m' == m && l' == l && b' == b)
    && (grown ==> !HasRoom(m, l, n) && HasRoom(m', l', n)
                  && b' == b + Rounded(n) && Extended(l, b, Rounded(n), l') && Untouched(l, NULL, m, m'))
  }

  /** A request for `n` units was met by block `t`. */
  ghost predicate Served(m: Memory, l: Layout, b: int, n: int, t: int, m': Memory, l': Layout, b': int) {
    && BASE < t < |m'.size| && m'.size[t] == n
    && t !in l.Live() && l'.Live() == l.Live() + {t}
    && Untouched(l, NULL, m, m')
    && |l'.owner| == |l.owner|
    && (forall u :: 0 <= u < |l.owner| && l.owner[u] in l.Live() ==> l'.owner[u] == l.owner[u])
    && (forall u :: 0 <= u < |l.owner| ==> (l'.owner[u] != NULL <==> l.owner[u] != NULL || b <= u < b'))
    && (b' != b ==> b' == b + Rounded(n) && !HasRoom(m, l, n))
  }

  /** What a request obtains: nothing, or the units that the break passed. */
  lemma {:induction false} ServedObtains(m: Memory, l: Layout, a: int, b: int, n: int, t: int,
                                         m': Memory, l': Layout, b': int, got: set<int>, got': set<int>)
    requires Good(m, l, a, b) && Records(got, l.owner) && Records(got', l'.owner)
    requires 0 < n && b' <= |l.owner|
    requires (b' == b && l' == l) || Served(m, l, b, n, t, m', l', b')
    ensures Obtained(b, got, b', got')
  {
    RoundedIsEnough(n);
    ObtainedUnits(l.owner, l'.owner, b, b', got, got');
  }

  lemma {:induction false} ObtainedUnits(owner: seq<int>, owner': seq<int>, b: int, b': int, got: set<int>,
                                         got': set<int>)
    requires Records(got, owner) && Records(got', owner')
    requires 0 <= b <= b' <= |owner| == |owner'|
    requires forall u :: b <= u < |owner| ==> owner[u] == NULL
    requires forall u :: 0 <= u < |owner| ==> (owner'[u] != NULL <==> owner[u] != NULL || b <= u < b')
    ensures Obtained(b, got, b', got')
  {
    var more := Units(b, b' - b);
    UnitsSize(b, b' - b);
    SplitSize(got', got, more);
  }

  /** Extending keeps live units live and hands out only fresh ones. */
  lemma {:induction false} ExtendedThenTaken(m: Memory, l: Layout, a: int, b: int, n: int, l1: Layout, t: int, k: int,
                                             l2: Layout)
    requires Good(m, l, a, b) && NULL !in l1.free
    requires Extended(l, b, n, l1) && Taken(l1, t, k, l2) && t != NULL
    ensures t !in l.Live() && l2.Live() == l.Live() + {t} && |l2.owner| == |l.owner|
    ensures forall u :: 0 <= u < |l.owner| && l.owner[u] in l.Live() ==> l2.owner[u] == l.owner[u]
    ensures forall u :: 0 <= u < |l.owner| ==> (l2.owner[u] != NULL <==> l.owner[u] != NULL || b <= u < b + n)
  {
    forall u | 0 <= u < |l.owner|
      ensures l.owner[u] in l.Live() ==> l2.owner[u] == l.owner[u]
      ensures l2.owner[u] != NULL <==> l.owner[u] != NULL || b <= u < b + n
    {
      assert l1.owner[u] in l1.free <==> l.owner[u] in l.free || b <= u < b + n;
      assert t <= u < t + k ==> l1.owner[u] in l1.free;
    }
  }

  lemma {:induction false} UntouchedTwice(m: Memory, l: Layout, a: int, b: int, n: int, m1: Memory, l1: Layout,
                                          m2: Memory)
    requires Good(m, l, a, b)
    requires Extended(l, b, n, l1) && Untouched(l, NULL, m, m1) && Untouched(l1, NULL, m1, m2)
    ensures Untouched(l, NULL, m, m2)
  {
    forall u | 0 <= u < |m.ptr| && l.owner[u] != NULL && l.owner[u] !in l.free
      ensures m2.ptr[u] == m.ptr[u] && m2.size[u] == m.size[u]
    {
      assert l1.owner[u] == l.owner[u];
    }
  }

  lemma {:induction false} TakenServes(m: Memory, l: Layout, a: int, b: int, n: int, grown: bool,
                                       m1: Memory, l1: Layout, b1: int, t: int, m2: Memory, l2: Layout)
    requires Good(m, l, a, b) && NULL !in l1.free && Searched(m, l, b, n, grown, m1, l1, b1)
    requires Taken(l1, t, n, l2) && Untouched(l1, NULL, m1, m2) && BASE < t < |m2.size| && m2.size[t] == n
    ensures Served(m, l, b, n, t, m2, l2, b1)
  {
    assert Extended(l, b, b1 - b, l1);
    ExtendedThenTaken(m, l, a, b, b1 - b, l1, t, n, l2);
    UntouchedTwice(m, l, a, b, b1 - b, m1, l1, m2);
  }

  /** Everything that taking `n` units from block `p`, whose predecessor is `q`, leads to. */
  lemma {:induction false} TakingServes(m0: Memory, l0: Layout, a0: int, b0: int, n: int, grown: bool,
                                        m: Memory, l: Layout, a: int, b: int, q: int, p: int, got: set<int>)
    requires Good(m0, l0, a0, b0) && Searched(m0, l0, b0, n, grown, m, l, b) && Records(got, l.owner)
    requires Good(m, l, a, b) && Cursor(m, l, q, p) && 0 < n <= m.size[p]
    ensures p + m.size[p] <= |m.size| && q != NULL && AllocatedAt(m, p, n) != NULL
    ensures Good(AllocatedMem(m, q, p, n), AllocatedLay(m, l, p, n), q, b)
    ensures |AllocatedMem(m, q, p, n).ptr| == |m.ptr|
    ensures Records(got, AllocatedLay(m, l, p, n).owner)
    ensures Served(m0, l0, b0, n, AllocatedAt(m, p, n), AllocatedMem(m, q, p, n), AllocatedLay(m, l, p, n), b)
  {
    AllocatedIsGood(m, l, a, b, q, p, n);
    var t, m2, l2 := AllocatedAt(m, p, n), AllocatedMem(m, q, p, n), AllocatedLay(m, l, p, n);
    TakenServes(m0, l0, a0, b0, n, grown, m, l, b, t, m2, l2);
    TakenRecords(l, t, n, l2, got);
  }
}
