/** Which addresses a download may write (pmon/loadfn.c, dl_checkloadaddr). Addresses are 32-bit
    and sums wrap. */
module LoadGuard {

  const WORD := 0x1_0000_0000
  const K0BASE := 0x8000_0000
  const K2BASE := 0xc000_0000
  const K0SIZE := 0x2000_0000
  const PROM := 0x1fc0_0000

  /** The monitor's own ranges and the size of memory, as physical addresses. */
  datatype Layout = Layout(text: int, etext: int, data: int, heaptop: int, memorysize: int)

  /** A sum reduced to 32 bits. */
  function Wrap(x: int): (w: int)
    ensures 0 <= w < WORD
    decreases if x < 0 then -x else x
  {
    if x < 0 then WrapUp(x) else if x < WORD then x else Wrap(x - WORD)
  }

  function WrapUp(x: int): (w: int)
    requires x < 0
    ensures 0 <= w < WORD
    decreases -x
  {
    if x + WORD >= 0 then x + WORD else WrapUp(x + WORD)
  }

  /** The physical address behind an address in an unmapped segment: its low 29 bits. */
  function Phys(a: int): (p: int)
    requires 0 <= a
    ensures 0 <= p < K0SIZE
    decreases a
  {
    if a < K0SIZE then a else Phys(a - K0SIZE)
  }

  lemma {:induction false} PhysIsLowBits(a: int)
    requires 0 <= a
    ensures Phys(a) == a % K0SIZE
    decreases a
  {
    if a >= K0SIZE {
      PhysIsLowBits(a - K0SIZE);
    }
  }

  predicate Overlap(a: int, aEnd: int, b: int, bEnd: int) {
    aEnd > b && bEnd > a
  }

  /** dl_checkloadaddr: `size` is a C int, and the sum wraps. */
  predicate Accepts(m: Layout, addr: int, size: int)
    requires 0 <= addr
  {
    var start := Phys(addr);
    var finish := Wrap(start + size);
    && addr >= K0BASE && Wrap(addr + size) <= K2BASE
    && !Overlap(start, finish, PROM, K0SIZE)
    && !Overlap(start, finish, m.text, m.etext)
    && !Overlap(start, finish, m.data, m.heaptop)
    && !Overlap(start, finish, m.memorysize, K0SIZE)
  }

  /** The byte at `a` is in KSEG0 or KSEG1, below the end of memory, and outside the PROM and the
      monitor's text and data. */
  predicate Loadable(m: Layout, a: int) {
    && K0BASE <= a < K2BASE
    && Phys(a) < PROM
    && Phys(a) < m.memorysize
    && !(m.text <= Phys(a) < m.etext)
    && !(m.data <= Phys(a) < m.heaptop)
  }

  ghost predicate AllLoadable(m: Layout, addr: int, size: int) {
    forall i :: addr <= i < addr + size ==> Loadable(m, i)
  }

  /** A range that ends below the PROM does not leave its segment. */
  lemma {:induction false} StaysInSegment(addr: int, size: int, i: int)
    requires 0 <= addr && Phys(addr) + i < K0SIZE && 0 <= i < size
    ensures Phys(addr + i) == Phys(addr) + i
    decreases addr
  {
    if addr >= K0SIZE {
      StaysInSegment(addr - K0SIZE, size, i);
    }
  }

  /** An accepted range does not wrap. */
  lemma {:induction false} AcceptedRange(m: Layout, addr: int, size: int)
    requires 0 <= addr < WORD && 0 < size < 0x8000_0000 && Accepts(m, addr, size)
    ensures K0BASE <= addr && addr + size <= K2BASE && Phys(addr) + size <= PROM
  {
    assert Phys(addr) + size < WORD;
    PhysIsLowBits(addr);
  }

  /** Every byte of an accepted range may be written. */
  lemma {:induction false} AcceptedIsLoadable(m: Layout, addr: int, size: int)
    requires 0 <= addr < WORD && 0 <= size < 0x8000_0000 && Accepts(m, addr, size)
    ensures AllLoadable(m, addr, size)
  {
    if size > 0 {
      AcceptedRange(m, addr, size);
      forall a | addr <= a < addr + size
        ensures Loadable(m, a)
      {
        StaysInSegment(addr, size, a - addr);
      }
    }
  }

  /** The monitor has some text and some data, and memory ends below the PROM's segment. */
  predicate Sane(m: Layout) {
    0 <= m.text < m.etext && 0 <= m.data < m.heaptop && 0 <= m.memorysize < K0SIZE
  }

  /** Two ranges that overlap share a place. */
  lemma {:induction false} Shared(a: int, aEnd: int, b: int, bEnd: int) returns (x: int)
    requires a < aEnd && b < bEnd && Overlap(a, aEnd, b, bEnd)
    ensures a <= x < aEnd && b <= x < bEnd
  {
    x := if a < b then b else a;
  }

  lemma {:induction false} NoneShared(m: Layout, addr: int, size: int, b: int, bEnd: int)
    requires 0 <= addr && 0 < size && Phys(addr) + size <= K0SIZE && b < bEnd
    requires forall a {:trigger Phys(a)} :: addr <= a < addr + size ==> !(b <= Phys(a) < bEnd)
    ensures !Overlap(Phys(addr), Phys(addr) + size, b, bEnd)
  {
    if Overlap(Phys(addr), Phys(addr) + size, b, bEnd) {
      var x := Shared(Phys(addr), Phys(addr) + size, b, bEnd);
      StaysInSegment(addr, size, x - Phys(addr));
    }
  }

  lemma {:induction false} LoadableBelowProm(m: Layout, addr: int, size: int)
    requires 0 <= addr && 0 < size && AllLoadable(m, addr, size)
    ensures Phys(addr) + size <= PROM
  {
    assert Loadable(m, addr);
    var i := PROM - Phys(addr);
    if i < size {
      assert Loadable(m, addr + i);
      StaysInSegment(addr, size, i);
    }
  }

  /** The guard is exact: a range of bytes is accepted if and only if each of them may be written. */
  lemma {:induction false} GuardIsExact(m: Layout, addr: int, size: int)
    requires 0 <= addr < WORD && 0 < size < 0x8000_0000 && Sane(m)
    ensures Accepts(m, addr, size) <==> AllLoadable(m, addr, size)
  {
    if Accepts(m, addr, size) {
      AcceptedIsLoadable(m, addr, size);
    }
    if AllLoadable(m, addr, size) {
      LoadableBelowProm(m, addr, size);
      assert Loadable(m, addr) && Loadable(m, addr + size - 1);
      forall a | addr <= a < addr + size
        ensures !(m.text <= Phys(a) < m.etext) && !(m.data <= Phys(a) < m.heaptop) && Phys(a) < m.memorysize
      {
        assert Loadable(m, a);
      }
      NoneShared(m, addr, size, m.text, m.etext);
      NoneShared(m, addr, size, m.data, m.heaptop);
      NoneShared(m, addr, size, m.memorysize, K0SIZE);
    }
  }

  // ------------------------------------------------------------ the modified range

  /** The lowest and highest address a download has been given so far. */
  datatype Span = Span(min: int, max: int)

  /** The range recorded by an accepted check. */
  function Widen(s: Span, addr: int, size: int): Span {
    var end := Wrap(addr + size);
    Span(if addr < s.min then addr else s.min, if end > s.max then end else s.max)
  }

  /** The address may be written and is inside the recorded range. */
  predicate Placed(m: Layout, s: Span, a: int) {
    Loadable(m, a) && s.min <= a < s.max
  }

  lemma {:induction false} AcceptedIsPlaced(m: Layout, s: Span, addr: int, size: int, a: int)
    requires 0 <= addr < WORD && 0 <= size < 0x8000_0000 && Accepts(m, addr, size)
    requires addr <= a < addr + size
    ensures Placed(m, Widen(s, addr, size), a)
  {
    AcceptedIsLoadable(m, addr, size);
    AcceptedRange(m, addr, size);
  }
}
