/** The monitor's malloc, free and sbrk, working in place on the memory of `Blocks`. */
module Heap {
  import opened Blocks

  class Heap {
    var mem: Memory
    var allocp: int        // where the last search ended
    var brk: int           // first unit not yet handed out by sbrk
    var top: int           // where the heap must end
    ghost var lay: Layout
    ghost var got: set<int>    // the units that morecore had from sbrk

    ghost predicate Valid()
      reads this
    {
      && brk <= top <= |mem.ptr| && Records(got, lay.owner)
      && (allocp == NULL ==> Untapped(mem, lay, brk))
      && (allocp != NULL ==> Good(mem, lay, allocp, brk))
    }

    /** Every unit obtained is in a free or a live block, once. */
    ghost predicate Conserved()
      requires Valid()
      reads this
    {
      allocp != NULL ==> Total(mem.size, lay.free - {BASE}) + Total(mem.size, lay.Live()) == |got|
    }

    constructor (memory: int, start: int)
      requires BASE < start <= memory
      ensures Valid() && lay.Live() == {} && got == {} && brk == start && top == memory
    {
      mem := Memory(seq(memory, _ => 0), seq(memory, _ => 0));
      allocp, brk, top := NULL, start, memory;
      lay, got := Layout({}, {}, seq(memory, _ => NULL)), {};
    }

    lemma {:induction false} IsConserved()
      requires Valid()
      ensures Conserved()
    {
      if allocp != NULL {
        FreePlusLiveIsObtained(mem, lay, allocp, brk, got);
      }
    }

    /** sbrk in units; other callers may also take memory from it. */
    method Sbrk(n: int) returns (p: int)
      requires Valid() && 0 <= n
      modifies this`brk
      ensures p == if old(brk) + n <= top then old(brk) else NULL
      ensures brk == if p == NULL then old(brk) else old(brk) + n
      ensures Valid()
    {
      if brk + n <= top {
        brk := brk + n;
        return brk - n;
      }
      return NULL;
    }

    /** The search loop of free: the entry after which `p` belongs. */
    method FindPlace(p: int) returns (q: int)
      requires Valid() && p in lay.Live()
      ensures Place(mem, lay, q, p)
    {
      q := allocp;
      while !(p > q && p < mem.ptr[q])
        invariant q in lay.free
        decreases p < q, Ahead(lay.free, q, p)
      {
        if q >= mem.ptr[q] && (p > q || p < mem.ptr[q]) {
          assert Follows(lay.free, q, mem.ptr[q]);
          break;
        }
        PlaceGetsCloser(mem.ptr, lay.free, q, p);
        q := mem.ptr[q];
      }
    }

    /** The linking part of free: join `p` to its right neighbour, then `q` to `p`. */
    method Splice(q: int, p: int, ghost l': Layout)
      requires |mem.ptr| == |mem.size| && 0 <= q < |mem.ptr| && 0 <= p < |mem.ptr| && 0 <= mem.ptr[q] < |mem.ptr|
      requires q != NULL && brk <= top <= |Freed(mem, q, p).ptr| && Good(Freed(mem, q, p), l', q, brk)
      requires Records(got, l'.owner)
      modifies this`mem, this`allocp, this`lay
      ensures mem == Freed(old(mem), q, p) && allocp == q && lay == l' && Valid()
    {
      var r := mem.ptr[q];
      if p + mem.size[p] == r {
        mem := mem.(size := mem.size[p := mem.size[p] + mem.size[r]]);
        mem := mem.(ptr := mem.ptr[p := mem.ptr[r]]);
      } else {
        mem := mem.(ptr := mem.ptr[p := r]);
      }
      if q + mem.size[q] == p {
        mem := mem.(size := mem.size[q := mem.size[q] + mem.size[p]]);
        mem := mem.(ptr := mem.ptr[q := mem.ptr[p]]);
      } else {
        mem := mem.(ptr := mem.ptr[q := p]);
      }
      allocp, lay := q, l';
    }

    /** free, on the header address. */
    method Free(p: int)
      requires Valid() && p in lay.Live()
      modifies this`mem, this`allocp, this`lay
      ensures Valid() && allocp != NULL && Conserved()
      ensures Released(old(lay), p, lay)
      ensures Untouched(old(lay), p, old(mem), mem)
      ensures HasRoom(mem, lay, old(mem.size[p]))
    {
      var q := FindPlace(p);
      ghost var l' := FreedIsGood(mem, lay, allocp, brk, q, p);
      ReleasedRecords(lay, p, l', got);
      Splice(q, p, l');
      IsConserved();
    }

    /** Write the size of the fresh units into their header. */
    method Head(cp: int, n: int, ghost l': Layout, ghost got': set<int>)
      requires allocp != NULL && brk <= top <= |mem.ptr| && 0 <= cp < |mem.size|
      requires Good(mem.(size := mem.size[cp := n]), l', allocp, brk) && Records(got', l'.owner)
      modifies this`mem, this`lay, this`got
      ensures mem == old(mem).(size := old(mem).size[cp := n]) && lay == l' && got == got' && Valid()
    {
      mem := mem.(size := mem.size[cp := n]);
      lay, got := l', got';
    }

    /** The tail of morecore: head the fresh units with a size and free them. */
    method Donate(cp: int, n: int)
      requires allocp != NULL && 0 < n && Good(mem, lay, allocp, cp)
      requires brk == cp + n <= top <= |mem.ptr| && Records(got, lay.owner)
      modifies this`mem, this`allocp, this`lay, this`got
      ensures Valid() && allocp != NULL && HasRoom(mem, lay, n)
      ensures Obtained(cp, old(got), brk, got)
      ensures Extended(old(lay), cp, n, lay) && Untouched(old(lay), NULL, old(mem), mem)
    {
      GrownIsGood(mem, lay, allocp, cp, n);
      GotMore(lay.owner, got, cp, n);
      Head(cp, n, Grown(lay, cp, n), got + Units(cp, n));
      Free(cp);
      ReleasedExtends(old(mem), old(lay), old(allocp), cp, n, mem, lay);
    }

    /** morecore: a block of fresh units joins the free list. */
    method MoreCore(nu: int) returns (p: int)
      requires Valid() && allocp != NULL && 0 < nu
      modifies this
      ensures Valid() && allocp != NULL && top == old(top)
      ensures p == NULL ==> old(brk) + Rounded(nu) > top
                            && mem == old(mem) && allocp == old(allocp) && brk == old(brk) && lay == old(lay)
                            && got == old(got)
      ensures p != NULL ==> Obtained(old(brk), old(got), brk, got)
      ensures p != NULL ==> p == allocp && brk == old(brk) + Rounded(nu) && HasRoom(mem, lay, nu)
                            && Extended(old(lay), old(brk), Rounded(nu), lay)
                            && Untouched(old(lay), NULL, old(mem), mem)
    {
      var rnu := NALLOC * ((nu + NALLOC - 1) / NALLOC);
      RoundedIsEnough(nu);
      var cp := Sbrk(rnu);
      if cp == NULL {
        return NULL;
      }
      Donate(cp, rnu);
      return allocp;
    }

    /** The part of malloc that takes `n` units from block `p`, whose predecessor is `q`. */
    method Unlink(q: int, p: int, n: int, ghost l': Layout) returns (t: int)
      requires |mem.ptr| == |mem.size| && 0 <= q < |mem.ptr| && 0 <= p < |mem.ptr| && 0 < n <= mem.size[p]
      requires p + mem.size[p] <= |mem.size|
      requires q != NULL && brk <= top <= |mem.ptr| && Good(AllocatedMem(mem, q, p, n), l', q, brk)
      requires Records(got, l'.owner)
      modifies this`mem, this`allocp, this`lay
      ensures mem == AllocatedMem(old(mem), q, p, n) && t == AllocatedAt(old(mem), p, n) && allocp == q && lay == l'
      ensures Valid()
    {
      t := p;
      if mem.size[p] == n {
        mem := mem.(ptr := mem.ptr[q := mem.ptr[p]]);
      } else {
        mem := mem.(size := mem.size[p := mem.size[p] - n]);
        t := t + mem.size[t];
        mem := mem.(size := mem.size[t := n]);
      }
      allocp, lay := q, l';
    }

    /** Memory and layout at the start of a search: the first request links the anchor. */
    ghost function StartMem(): Memory
      requires Valid()
      reads this
    {
      if allocp == NULL then Anchored(mem) else mem
    }

    ghost function StartLay(): Layout
      reads this
    {
      if allocp == NULL then lay.(free := {BASE}) else lay
    }

    /** The first lines of malloc. */
    method Prepare()
      requires Valid()
      modifies this`mem, this`allocp, this`lay
      ensures Valid() && allocp != NULL
      ensures mem == old(StartMem()) && lay == old(StartLay()) && lay.Live() == old(lay.Live())
    {
      if allocp == NULL {
        AnchoredIsGood(mem, lay, brk);
        mem := Memory(mem.ptr[BASE := BASE], mem.size[BASE := 0]);
        allocp := BASE;
        lay := lay.(free := {BASE});
      }
    }

    /** A search for `n` units that began with `m0`, `l0`, the break at `b0`
        has its pointers at `q` and `p`. */
    ghost predicate Underway(m0: Memory, l0: Layout, b0: int, n: int, q: int, p: int,
                             wrapped: bool, grown: bool)
      reads this
    {
      && Valid() && allocp != NULL
      && Cursor(mem, lay, q, p) && SeenAreSmall(mem, lay, allocp, wrapped, p, n)
      && Searched(m0, l0, b0, n, grown, mem, lay, brk)
    }

    lemma {:induction false} SearchBegins(n: int)
      requires Valid() && allocp != NULL
      ensures Underway(mem, lay, brk, n, allocp, mem.ptr[allocp], mem.ptr[allocp] <= allocp, false)
    {
      SearchStarts(mem, lay, allocp, n);
    }

    lemma {:induction false} SearchGoesOn(m0: Memory, l0: Layout, b0: int, n: int, q: int, p: int,
                                          wrapped: bool, grown: bool)
      requires Underway(m0, l0, b0, n, q, p, wrapped, grown) && p != allocp && mem.size[p] < n
      ensures Underway(m0, l0, b0, n, p, mem.ptr[p], wrapped || mem.ptr[p] <= p, grown)
      ensures Unseen(lay.free, allocp, wrapped || mem.ptr[p] <= p, mem.ptr[p]) < Unseen(lay.free, allocp, wrapped, p)
    {
      SearchMoves(mem, lay, allocp, wrapped, p, n);
    }

    /** After one call of morecore the search cannot come round without success. */
    lemma {:induction false} ComesRoundOnce(m0: Memory, l0: Layout, b0: int, n: int, q: int,
                                            wrapped: bool, grown: bool)
      requires Underway(m0, l0, b0, n, q, allocp, wrapped, grown) && mem.size[allocp] < n
      ensures !HasRoom(mem, lay, n) && !grown && mem == m0 && lay == l0 && brk == b0
    {
      SearchExhausted(mem, lay, allocp, wrapped, n);
    }

    /** The search stops at `p`. */
    method Take(q: int, p: int, n: int, ghost m0: Memory, ghost l0: Layout, ghost a0: int, ghost b0: int,
                ghost wrapped: bool, ghost grown: bool)
        returns (t: int)
      requires Underway(m0, l0, b0, n, q, p, wrapped, grown) && 0 < n <= mem.size[p]
      requires Good(m0, l0, a0, b0)
      modifies this`mem, this`allocp, this`lay
      ensures Valid() && allocp != NULL
      ensures t != NULL && Served(m0, l0, b0, n, t, mem, lay, brk)
    {
      TakingServes(m0, l0, a0, b0, n, grown, mem, lay, allocp, brk, q, p, got);
      t := Unlink(q, p, n, AllocatedLay(mem, lay, p, n));
    }

    /** The search came round to its start without success: call morecore and start over. */
    method Replenish(n: int, ghost m0: Memory, ghost l0: Layout, ghost b0: int, ghost q: int,
                     ghost wrapped: bool, ghost grown: bool)
        returns (p: int)
      requires Underway(m0, l0, b0, n, q, allocp, wrapped, grown) && 0 < n && mem.size[allocp] < n
      modifies this
      ensures !grown && top == old(top)
      ensures p == NULL ==> Valid() && allocp != NULL && !HasRoom(m0, l0, n)
                            && b0 + Rounded(n) > top && mem == m0 && lay == l0 && brk == b0
      ensures p != NULL ==> 0 <= p < |mem.ptr| && p == allocp
                            && Underway(m0, l0, b0, n, p, mem.ptr[p], mem.ptr[p] <= p, true)
    {
      ComesRoundOnce(m0, l0, b0, n, q, wrapped, grown);
      p := MoreCore(n);
      if p != NULL {
        SearchStarts(mem, lay, p, n);
        RoundedIsEnough(n);
      }
    }

    /** The search loop of malloc. */
    method Search(nunits: int) returns (t: int)
      requires Valid() && allocp != NULL && 0 < nunits
      modifies this
      ensures Valid() && allocp != NULL && top == old(top)
      ensures t == NULL ==> !HasRoom(old(mem), old(lay), nunits) && old(brk) + Rounded(nunits) > top
                            && mem == old(mem) && lay == old(lay) && brk == old(brk)
      ensures t != NULL ==> Served(old(mem), old(lay), old(brk), nunits, t, mem, lay, brk)
    {
      ghost var m0, l0, a0, b0 := mem, lay, allocp, brk;
      var q, p := allocp, mem.ptr[allocp];
      SearchBegins(nunits);
      ghost var wrapped, grown := p <= q, false;
      while true
        invariant Underway(m0, l0, b0, nunits, q, p, wrapped, grown) && top == old(top)
        decreases !grown, Unseen(lay.free, allocp, wrapped, p)
      {
        if mem.size[p] >= nunits {
          t := Take(q, p, nunits, m0, l0, a0, b0, wrapped, grown);
          return;
        }
        if p == allocp {
          p := Replenish(nunits, m0, l0, b0, q, wrapped, grown);
          if p == NULL {
            return NULL;
          }
          wrapped, grown := mem.ptr[p] <= p, true;
        } else {
          SearchGoesOn(m0, l0, b0, nunits, q, p, wrapped, grown);
          wrapped := wrapped || mem.ptr[p] <= p;
        }
        q, p := p, mem.ptr[p];
      }
    }

    /** malloc, giving the header address of the block (the user's pointer is one unit on).
        It calls morecore at most once, and only after finding that no free block is big
        enough; it fails only when sbrk then refuses, and changes nothing. Otherwise the
        result heads a new live block of the size asked for. */
    method Malloc(nbytes: nat) returns (t: int)
      requires Valid()
      modifies this
      ensures Valid() && allocp != NULL && top == old(top)
      ensures Conserved() && Obtained(old(brk), old(got), brk, got)
      ensures var n := UnitsFor(nbytes);
              t == NULL ==> !HasRoom(old(StartMem()), old(StartLay()), n) && old(brk) + Rounded(n) > top
                            && mem == old(StartMem()) && lay == old(StartLay()) && brk == old(brk)
      ensures t != NULL ==> Served(old(StartMem()), old(StartLay()), old(brk), UnitsFor(nbytes), t, mem, lay, brk)
      ensures t != NULL ==> nbytes <= UNIT * (mem.size[t] - 1)
      ensures lay.Live() == if t == NULL then old(lay.Live()) else old(lay.Live()) + {t}
      ensures t !in old(lay.Live())
    {
      var nunits := (nbytes + UNIT - 1) / UNIT + 1;
      UnitsForIsEnough(nbytes);
      Prepare();
      ghost var m0, l0, a0 := mem, lay, allocp;
      t := Search(nunits);
      ServedObtains(m0, l0, a0, old(brk), nunits, t, mem, lay, brk, old(got), got);
      IsConserved();
    }
  }

  /** A caller of the allocator: ask for bytes, give back the k-th pointer held, or have some
      other code take units from sbrk. */
  datatype Request = Want(nbytes: nat) | GiveBack(k: nat) | TakeBreak(units: nat)

  /** `held` lists the live blocks, once each. */
  ghost predicate Holds(held: seq<int>, live: set<int>) {
    && (forall i :: 0 <= i < |held| ==> held[i] in live)
    && (forall i, j :: 0 <= i < j < |held| ==> held[i] != held[j])
    && |held| == |live|
  }

  lemma {:induction false} HoldsMore(held: seq<int>, live: set<int>, r: int)
    requires Holds(held, live) && r !in live
    ensures Holds(held + [r], live + {r})
  {
  }

  lemma {:induction false} HoldsFewer(held: seq<int>, live: set<int>, k: nat)
    requires Holds(held, live) && k < |held|
    ensures Holds(held[..k] + held[k + 1..], live - {held[k]})
  {
    var rest := held[..k] + held[k + 1..];
    assert forall i :: 0 <= i < |rest| ==> rest[i] == held[if i < k then i else i + 1];
  }

  /** One request; `taken` counts the units that other code had from sbrk. */
  method ServeOne(h: Heap, request: Request, held: seq<int>) returns (held': seq<int>, taken: nat)
    requires h.Valid() && Holds(held, h.lay.Live())
    modifies h
    ensures h.Valid() && Holds(held', h.lay.Live()) && h.Conserved()
    ensures |h.got| + taken - |old(h.got)| == h.brk - old(h.brk)
  {
    held', taken := held, 0;
    ghost var live := h.lay.Live();
    match request
    case Want(nbytes) =>
      var t := h.Malloc(nbytes);
      if t != NULL {
        HoldsMore(held, live, t);
        held' := held + [t];
      }
    case GiveBack(k) =>
      if k < |held| {
        HoldsFewer(held, live, k);
        h.Free(held[k]);
        held' := held[..k] + held[k + 1..];
      } else {
        h.IsConserved();
      }
    case TakeBreak(units) =>
      var p := h.Sbrk(units);
      taken := if p == NULL then 0 else units;
      h.IsConserved();
  }

  /** Any sequence of requests leaves a valid heap whose live blocks are exactly those not
      yet given back; free and live units together are those by which the break has moved,
      less those that other code took. */
  method Serve(h: Heap, requests: seq<Request>) returns (held: seq<int>, taken: nat)
    requires h.Valid() && h.lay.Live() == {} && h.got == {}
    modifies h
    ensures h.Valid() && Holds(held, h.lay.Live())
    ensures h.Conserved() && |h.got| + taken == h.brk - old(h.brk)
  {
    held, taken := [], 0;
    h.IsConserved();
    for i := 0 to |requests|
      invariant h.Valid() && Holds(held, h.lay.Live())
      invariant h.Conserved() && |h.got| + taken == h.brk - old(h.brk)
    {
      var more;
      held, more := ServeOne(h, requests[i], held);
      taken := taken + more;
    }
  }
}
