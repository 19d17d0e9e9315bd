/** Patching breakpoints into client memory and taking them out again (pmon/go.c).

    A software breakpoint is a BREAK word written over the client's instruction, with the
    instruction saved in the breakpoint's entry. Memory is a sequence of words indexed by
    word address. */
module Breakpoints {

  const NO_BPT := -1
  const BPT_CODE := 0x0d
  const MAX_BPT := 64

  /** A breakpoint entry: where it is, the word saved there, the watchpoint kind (zero for a
      breakpoint planted in memory), and the length watched. */
  datatype Bp = Bp(addr: int, value: int, wpt: int, len: int)

  /** The entry has an address and is of the planted kind. */
  predicate Soft(e: Bp) {
    e.addr != NO_BPT && e.wpt == 0
  }

  predicate InRange(mem: seq<int>, es: seq<Bp>) {
    forall i :: 0 <= i < |es| && Soft(es[i]) ==> 0 <= es[i].addr < |mem|
  }

  // ------------------------------------------------------------ planting and lifting entries in order

  /** Some entry is planted at `a`. */
  predicate Covers(es: seq<Bp>, a: int) {
    exists i :: 0 <= i < |es| && Soft(es[i]) && es[i].addr == a
  }

  /** Memory after saving and overwriting the word at each entry, first to last. */
  function PlantMem(mem: seq<int>, es: seq<Bp>): (mem': seq<int>)
    requires InRange(mem, es)
    ensures |mem'| == |mem|
  {
    if es == [] then mem
    else
      var m := PlantMem(mem, es[..|es| - 1]);
      var e := es[|es| - 1];
      if Soft(e) then m[e.addr := BPT_CODE] else m
  }

  /** The entries with the words that were saved. */
  function PlantSaved(mem: seq<int>, es: seq<Bp>): (es': seq<Bp>)
    requires InRange(mem, es)
    ensures |es'| == |es|
    ensures forall i :: 0 <= i < |es| ==> es'[i].addr == es[i].addr && es'[i].wpt == es[i].wpt
  {
    if es == [] then []
    else
      var front, e := es[..|es| - 1], es[|es| - 1];
      PlantSaved(mem, front) + [if Soft(e) then e.(value := PlantMem(mem, front)[e.addr]) else e]
  }

  /** Memory after putting back each entry's saved word where a BREAK is found. */
  function Lift(mem: seq<int>, es: seq<Bp>): (mem': seq<int>)
    requires InRange(mem, es)
    ensures |mem'| == |mem|
  {
    if es == [] then mem
    else
      var m := Lift(mem, es[..|es| - 1]);
      var e := es[|es| - 1];
      if Soft(e) && m[e.addr] == BPT_CODE then m[e.addr := e.value] else m
  }

  /** The first saved word at `a` that is not itself a BREAK; BREAK if there is none. */
  function Saved(es: seq<Bp>, a: int): int {
    if es == [] then BPT_CODE
    else
      var s := Saved(es[..|es| - 1], a);
      var e := es[|es| - 1];
      if s == BPT_CODE && Soft(e) && e.addr == a then e.value else s
  }

  /** What lifting leaves at each address, whatever the entries hold. */
  lemma {:induction false} LiftAt(mem: seq<int>, es: seq<Bp>, a: int)
    requires InRange(mem, es) && 0 <= a < |mem|
    ensures Lift(mem, es)[a] == if mem[a] == BPT_CODE then Saved(es, a) else mem[a]
  {
    if es != [] {
      LiftAt(mem, es[..|es| - 1], a);
    }
  }

  lemma {:induction false} PlantAt(mem: seq<int>, es: seq<Bp>, a: int)
    requires InRange(mem, es) && 0 <= a < |mem|
    ensures PlantMem(mem, es)[a] == if Covers(es, a) then BPT_CODE else mem[a]
  {
    if es != [] {
      var front, e := es[..|es| - 1], es[|es| - 1];
      PlantAt(mem, front, a);
      CoversLast(front, e, a);
      assert es == front + [e];
    }
  }

  lemma {:induction false} CoversLast(front: seq<Bp>, e: Bp, a: int)
    ensures Covers(front + [e], a) <==> Covers(front, a) || (Soft(e) && e.addr == a)
  {
    var es := front + [e];
    if Covers(front, a) {
      var i :| 0 <= i < |front| && Soft(front[i]) && front[i].addr == a;
      assert es[i] == front[i];
    }
    assert es[|front|] == e;
  }

  /** Planting saves the client's word: the first entry at an address holds it, later ones
      hold the BREAK already there. */
  lemma {:induction false} PlantSaves(mem: seq<int>, es: seq<Bp>, a: int)
    requires InRange(mem, es) && 0 <= a < |mem| && mem[a] != BPT_CODE
    ensures Saved(PlantSaved(mem, es), a) == if Covers(es, a) then mem[a] else BPT_CODE
  {
    if es != [] {
      var front, e := es[..|es| - 1], es[|es| - 1];
      PlantSaves(mem, front, a);
      PlantAt(mem, front, a);
      CoversLast(front, e, a);
      SavedLast(mem, front, e, a);
      assert es == front + [e];
    }
  }

  lemma {:induction false} SavedLast(mem: seq<int>, front: seq<Bp>, e: Bp, a: int)
    requires InRange(mem, front + [e])
    ensures InRange(mem, front) && (Soft(e) ==> 0 <= e.addr < |mem|)
    ensures var s := Saved(PlantSaved(mem, front), a);
      Saved(PlantSaved(mem, front + [e]), a)
      == if s == BPT_CODE && Soft(e) && e.addr == a then PlantMem(mem, front)[a] else s
  {
    var es := front + [e];
    assert es[..|es| - 1] == front && es[|es| - 1] == e;
    assert forall i :: 0 <= i < |front| ==> es[i] == front[i];
    assert PlantSaved(mem, es)[..|es| - 1] == PlantSaved(mem, front);
  }

  lemma {:induction false} SavedAppend(xs: seq<Bp>, ys: seq<Bp>, a: int)
    ensures Saved(xs + ys, a) == if Saved(xs, a) != BPT_CODE then Saved(xs, a) else Saved(ys, a)
    decreases |ys|
  {
    if ys == [] {
      assert xs + ys == xs;
    } else {
      SavedAppend(xs, ys[..|ys| - 1], a);
      assert (xs + ys)[..|xs + ys| - 1] == xs + ys[..|ys| - 1];
    }
  }

  lemma {:induction false} LiftAppend(mem: seq<int>, xs: seq<Bp>, ys: seq<Bp>)
    requires InRange(mem, xs) && InRange(mem, ys)
    ensures InRange(mem, xs + ys) && Lift(mem, xs + ys) == Lift(Lift(mem, xs), ys)
    decreases |ys|
  {
    if ys == [] {
      assert xs + ys == xs;
    } else {
      LiftAppend(mem, xs, ys[..|ys| - 1]);
      assert (xs + ys)[..|xs + ys| - 1] == xs + ys[..|ys| - 1];
    }
  }

  lemma {:induction false} NotSavedUnlessCovered(es: seq<Bp>, a: int)
    requires !Covers(es, a)
    ensures Saved(es, a) == BPT_CODE
  {
    if es != [] {
      var front, e := es[..|es| - 1], es[|es| - 1];
      CoversLast(front, e, a);
      assert es == front + [e];
      NotSavedUnlessCovered(front, a);
    }
  }

  /** A BREAK that is already in memory is saved as if it were the client's word. */
  lemma {:induction false} BreakIsSaved(mem: seq<int>, es: seq<Bp>, a: int)
    requires InRange(mem, es) && 0 <= a < |mem| && mem[a] == BPT_CODE
    ensures Saved(PlantSaved(mem, es), a) == BPT_CODE
  {
    if es != [] {
      BreakIsSaved(mem, es[..|es| - 1], a);
      PlantAt(mem, es[..|es| - 1], a);
      assert PlantSaved(mem, es)[..|es| - 1] == PlantSaved(mem, es[..|es| - 1]);
    }
  }

  // ------------------------------------------------------------ patched memory

  /** `mem` is `image` with a BREAK at every entry of `es`, and nothing else changed. */
  ghost predicate Patched(mem: seq<int>, image: seq<int>, es: seq<Bp>) {
    && |mem| == |image|
    && forall a :: 0 <= a < |mem| ==> mem[a] == if Covers(es, a) then BPT_CODE else image[a]
  }

  /** The client has no BREAK of its own where an entry of `es` may plant one. */
  predicate NoneOwn(image: seq<int>, es: seq<Bp>) {
    && InRange(image, es)
    && forall i :: 0 <= i < |es| && Soft(es[i]) ==> image[es[i].addr] != BPT_CODE
  }

  /** Lifting `back` from memory patched at `es` recovers the image exactly when, at every
      patched address, the first real word that `back` has saved is the client's. */
  lemma {:induction false} LiftRestoresIff(mem: seq<int>, image: seq<int>, es: seq<Bp>, back: seq<Bp>)
    requires Patched(mem, image, es) && NoneOwn(image, back)
    ensures Lift(mem, back) == image
       <==> (forall a :: 0 <= a < |image| && Covers(es, a) ==> Saved(back, a) == image[a])
  {
    forall a | 0 <= a < |image|
      ensures Lift(mem, back)[a] == image[a] <==> (Covers(es, a) ==> Saved(back, a) == image[a])
    {
      LiftAt(mem, back, a);
      if image[a] == BPT_CODE {
        NotCoveredByOwn(image, back, a);
        NotSavedUnlessCovered(back, a);
      }
    }
    if forall a :: 0 <= a < |image| && Covers(es, a) ==> Saved(back, a) == image[a] {
      assert forall a :: 0 <= a < |image| ==> Lift(mem, back)[a] == image[a];
    }
  }

  lemma {:induction false} NotCoveredByOwn(image: seq<int>, es: seq<Bp>, a: int)
    requires NoneOwn(image, es) && 0 <= a < |image| && image[a] == BPT_CODE
    ensures !Covers(es, a)
  {
  }

  lemma {:induction false} CoversAppend(xs: seq<Bp>, ys: seq<Bp>, a: int)
    ensures Covers(xs + ys, a) <==> Covers(xs, a) || Covers(ys, a)
  {
    var es := xs + ys;
    if Covers(xs, a) {
      var i :| 0 <= i < |xs| && Soft(xs[i]) && xs[i].addr == a;
      assert es[i] == xs[i];
    } else if Covers(ys, a) {
      var i :| 0 <= i < |ys| && Soft(ys[i]) && ys[i].addr == a;
      assert es[|xs| + i] == ys[i];
    }
  }

  lemma {:induction false} CoversSame(xs: seq<Bp>, ys: seq<Bp>, a: int)
    requires |xs| == |ys|
    requires forall i :: 0 <= i < |xs| ==> xs[i].addr == ys[i].addr && xs[i].wpt == ys[i].wpt
    ensures Covers(xs, a) <==> Covers(ys, a)
  {
    if Covers(xs, a) {
      var i :| 0 <= i < |xs| && Soft(xs[i]) && xs[i].addr == a;
      assert Soft(ys[i]);
    } else if Covers(ys, a) {
      var i :| 0 <= i < |ys| && Soft(ys[i]) && ys[i].addr == a;
      assert Soft(xs[i]);
    }
  }

  lemma {:induction false} NoneOwnAppend(image: seq<int>, xs: seq<Bp>, ys: seq<Bp>)
    ensures NoneOwn(image, xs + ys) <==> NoneOwn(image, xs) && NoneOwn(image, ys)
  {
    var es := xs + ys;
    assert forall i :: 0 <= i < |xs| ==> es[i] == xs[i];
    assert forall i :: 0 <= i < |ys| ==> es[|xs| + i] == ys[i];
  }

  lemma {:induction false} NoneOwnAt(image: seq<int>, es: seq<Bp>, a: int)
    requires NoneOwn(image, es) && Covers(es, a)
    ensures 0 <= a < |image| && image[a] != BPT_CODE
  {
  }

  lemma {:induction false} NoneOwnSame(image: seq<int>, xs: seq<Bp>, ys: seq<Bp>)
    requires |xs| == |ys| && NoneOwn(image, xs)
    requires forall i :: 0 <= i < |xs| ==> xs[i].addr == ys[i].addr && xs[i].wpt == ys[i].wpt
    ensures NoneOwn(image, ys)
  {
    forall i | 0 <= i < |ys| && Soft(ys[i])
      ensures 0 <= ys[i].addr < |image| && image[ys[i].addr] != BPT_CODE
    {
      assert Soft(xs[i]);
    }
  }

  lemma {:induction false} PlantingNothing(mem: seq<int>, es: seq<Bp>)
    requires forall i :: 0 <= i < |es| ==> !Soft(es[i])
    ensures InRange(mem, es) && PlantMem(mem, es) == mem && PlantSaved(mem, es) == es
  {
    if es != [] {
      PlantingNothing(mem, es[..|es| - 1]);
    }
  }

  /** Planting one more entry of a table, and what the table then holds. */
  lemma {:induction false} PlantNext(mem: seq<int>, es: seq<Bp>, i: nat)
    requires i < |es| && InRange(mem, es)
    ensures InRange(mem, es[..i]) && InRange(mem, es[..i + 1])
    ensures var e, m := es[i], PlantMem(mem, es[..i]);
      && PlantMem(mem, es[..i + 1]) == (if Soft(e) then m[e.addr := BPT_CODE] else m)
      && (PlantSaved(mem, es[..i]) + es[i..])[i] == e
      && PlantSaved(mem, es[..i + 1]) + es[i + 1..]
         == (PlantSaved(mem, es[..i]) + es[i..])[i := if Soft(e) then e.(value := m[e.addr]) else e]
  {
    assert es[..i + 1][..i] == es[..i];
  }

  lemma {:induction false} PlantOne(mem: seq<int>, e: Bp)
    requires InRange(mem, [e])
    ensures Soft(e) ==> 0 <= e.addr < |mem|
    ensures PlantMem(mem, [e]) == if Soft(e) then mem[e.addr := BPT_CODE] else mem
    ensures PlantSaved(mem, [e]) == [if Soft(e) then e.(value := mem[e.addr]) else e]
  {
    assert [e][0] == e && [e][..0] == [];
  }

  lemma {:induction false} PlantTwo(mem: seq<int>, e: Bp, f: Bp)
    requires InRange(mem, [e]) && InRange(mem, [f])
    ensures InRange(mem, [e, f])
    ensures PlantMem(mem, [e, f]) == PlantMem(PlantMem(mem, [e]), [f])
    ensures PlantSaved(mem, [e, f]) == PlantSaved(mem, [e]) + PlantSaved(PlantMem(mem, [e]), [f])
  {
    PlantOne(PlantMem(mem, [e]), f);
    assert [f][0] == f && [e][0] == e;
    assert [e, f][..1] == [e];
  }
}
