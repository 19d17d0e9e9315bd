/** Watchpoints (pmon/watch.c) on the RM7000 (pmon/rm7kwatch.c): two address registers and one
    don't-care mask that they share. Bit operations are on non-negative integers. */
module Watch {

  import opened Bits

  // ------------------------------------------------------------ the mask of a range

  /** `a` and `b` are in the same aligned block of 2^n addresses. */
  predicate SameBlock(a: nat, b: nat, n: nat) {
    Shr(a, n) == Shr(b, n)
  }

  lemma {:induction false} ShrKeepsOrder(a: nat, b: nat, n: nat)
    requires a <= b
    ensures Shr(a, n) <= Shr(b, n)
    decreases n
  {
    if n > 0 {
      ShrKeepsOrder(a / 2, b / 2, n - 1);
    }
  }

  /** A block that holds both ends of a range holds all of it. */
  lemma {:induction false} BlockHoldsRange(first: nat, last: nat, a: nat, n: nat)
    requires first <= a <= last && SameBlock(first, last, n)
    ensures SameBlock(a, first, n)
  {
    ShrKeepsOrder(first, a, n);
    ShrKeepsOrder(a, last, n);
  }

  lemma {:induction false} SameBlockFloor(a: nat, b: nat, n: nat)
    requires SameBlock(a, b, n)
    ensures Floor(a, n) == Floor(b, n)
    decreases n
  {
    if n > 0 {
      SameBlockFloor(a / 2, b / 2, n - 1);
    }
  }

  lemma {:induction false} ShrVanishes(x: nat, n: nat)
    requires x <= Ones(n)
    ensures Shr(x, n) == 0
    decreases n
  {
    if n > 0 {
      ShrVanishes(x / 2, n - 1);
    }
  }

  lemma {:induction false} Ones32()
    ensures Ones(32) == 0xffff_ffff
  {
    assert Ones(8) == 0xff;
    assert Ones(16) == 0xffff by {
      assert Ones(12) == 0xfff;
    }
    assert Ones(24) == 0xff_ffff by {
      assert Ones(20) == 0xf_ffff;
    }
    assert Ones(28) == 0xfff_ffff;
  }

  lemma {:induction false} OnesHalf(n: nat, i: nat)
    requires i <= n
    ensures Shr(Ones(n), i) == Ones(n - i)
    decreases i
  {
    if i > 0 {
      OnesHalf(n - 1, i - 1);
    }
  }

  /** The last address of a range, as unsigned 32-bit arithmetic has it. */
  function Last(addr: nat, len: nat): (last: nat)
    requires addr < 0x1_0000_0000 && len < 0x1_0000_0000
    ensures last < 0x1_0000_0000
  {
    var sum := addr + len - 1;
    if sum < 0 then 0xffff_ffff else if sum < 0x1_0000_0000 then sum else sum - 0x1_0000_0000
  }

  lemma {:induction false} OnesShifted(i: nat)
    requires i <= 32
    ensures Shr(0xffff_ffff, i) == Ones(32 - i)
  {
    Ones32();
    OnesHalf(32, i);
  }

  lemma {:induction false} WordsVanish(a: nat)
    requires a < 0x1_0000_0000
    ensures Shr(a, 32) == 0
  {
    Ones32();
    ShrVanishes(a, 32);
  }

  /** The loop of calc_mask: how many bits up to the highest in which two addresses differ. */
  method CountDown(addr: nat, last: nat) returns (i: int, ghost k: nat)
    requires addr < 0x1_0000_0000 && last < 0x1_0000_0000
    ensures 0 <= i <= 32 && k == 32 - i && (k == 0 <==> addr == last)
    ensures SameBlock(addr, last, k)
    ensures forall j {:trigger SameBlock(addr, last, j)} :: 0 <= j < k ==> !SameBlock(addr, last, j)
  {
    var mask := Xor(addr, last);
    i, k := 32, 0;
    XorZero(addr, last);
    WordsVanish(addr);
    WordsVanish(last);
    while i >= 0 && mask != 0
      invariant 0 <= i <= 32 && k == 32 - i && (i == 0 ==> mask == 0) && (mask != 0 && k == 0 ==> addr != last)
      invariant mask == Xor(Shr(addr, k), Shr(last, k))
      invariant forall j {:trigger SameBlock(addr, last, j)} :: 0 <= j < k ==> !SameBlock(addr, last, j)
      decreases i
    {
      XorZero(Shr(addr, k), Shr(last, k));
      XorHalf(Shr(addr, k), Shr(last, k));
      ShrLast(addr, k);
      ShrLast(last, k);
      assert !SameBlock(addr, last, k);
      mask := mask / 2;
      i := i - 1;
      k := k + 1;
      if i == 0 {
        XorZero(Shr(addr, k), Shr(last, k));
      }
    }
    XorZero(Shr(addr, k), Shr(last, k));
    assert k > 0 ==> !SameBlock(addr, last, 0);
  }

  /** calc_mask: the least 2^k - 1 whose aligned block holds both ends of the range; but all ones if
      they are one address, since a 32-bit shift by 32 is one by none. */
  method CalcMask(addr: nat, len: nat) returns (mask: int, ghost k: nat)
    requires addr < 0x1_0000_0000 && len < 0x1_0000_0000
    ensures mask == Ones(k) && k <= 32
    ensures SameBlock(addr, Last(addr, len), k)
    ensures len != 1 ==> forall j {:trigger SameBlock(addr, Last(addr, len), j)} ::
      0 <= j < k ==> !SameBlock(addr, Last(addr, len), j)
    ensures len == 1 ==> k == 32
  {
    var i;
    i, k := CountDown(addr, Last(addr, len));
    if i == 32 {
      // the machine takes the shift amount modulo 32
      i, k := 0, 32;
    }
    OnesShifted(i);
    mask := Shr(0xffff_ffff, i);
  }

  // ------------------------------------------------------------ unmapped segments

  /** `c` times 2^e. */
  function Scaled(c: nat, e: nat): (x: int)
    ensures x >= 0
  {
    if e == 0 then c else 2 * Scaled(c, e - 1)
  }

  lemma {:induction false} SegmentBases()
    ensures Scaled(4, 29) == 0x8000_0000 && Scaled(5, 29) == 0xa000_0000
  {
    assert Scaled(4, 8) == 0x400 && Scaled(5, 8) == 0x500;
    assert Scaled(4, 16) == 0x4_0000 && Scaled(5, 16) == 0x5_0000 by {
      assert Scaled(4, 12) == 0x4000 && Scaled(5, 12) == 0x5000;
    }
    assert Scaled(4, 24) == 0x400_0000 && Scaled(5, 24) == 0x500_0000 by {
      assert Scaled(4, 20) == 0x40_0000 && Scaled(5, 20) == 0x50_0000;
    }
  }

  lemma {:induction false} ShrAdd(x: nat, c: nat, e: nat, n: nat)
    requires n <= e
    ensures Shr(x + Scaled(c, e), n) == Shr(x, n) + Scaled(c, e - n)
    decreases n
  {
    if n > 0 {
      assert (x + Scaled(c, e)) / 2 == x / 2 + Scaled(c, e - 1);
      ShrAdd(x / 2, c, e - 1, n - 1);
    }
  }

  /** KSEG0 and KSEG1, both of which show the low 512 Mbyte of physical memory. */
  predicate Unmapped(va: nat) {
    0x8000_0000 <= va < 0xc000_0000
  }

  function Phys(va: nat): (pa: nat)
    requires Unmapped(va)
    ensures pa < 0x2000_0000
  {
    if va < 0xa000_0000 then va - 0x8000_0000 else va - 0xa000_0000
  }

  lemma {:induction false} Segments(va: nat, n: nat)
    requires Unmapped(va) && n <= 29
    ensures Shr(va, n) == Shr(Phys(va), n) + Scaled(if va < 0xa000_0000 then 4 else 5, 29 - n)
  {
    SegmentBases();
    ShrAdd(Phys(va), if va < 0xa000_0000 then 4 else 5, 29, n);
  }

  lemma {:induction false} WiderBlock(a: nat, b: nat, n: nat, m: nat)
    requires SameBlock(a, b, n) && n <= m
    ensures SameBlock(a, b, m)
    decreases n
  {
    if n > 0 {
      WiderBlock(a / 2, b / 2, n - 1, m - 1);
    }
  }

  /** Addresses in one aligned block of a segment are in one of physical memory. */
  lemma {:induction false} PhysicalBlock(a: nat, b: nat, n: nat)
    requires Unmapped(a) && Unmapped(b) && n <= 29 && SameBlock(a, b, n)
    ensures SameBlock(Phys(a), Phys(b), n)
  {
    Segments(a, n);
    Segments(b, n);
    WiderBlock(a, b, n, 29);
    Segments(a, 29);
    Segments(b, 29);
    Ones29();
    ShrVanishes(Phys(a), 29);
    ShrVanishes(Phys(b), 29);
  }

  lemma {:induction false} Ones29()
    ensures Ones(29) == 0x1fff_ffff && Ones(27) == 0x7ff_ffff
  {
    Ones32();
    assert Ones(32) == 8 * Ones(29) + 7 by {
      assert Ones(31) == 4 * Ones(29) + 3 by {
        assert Ones(30) == 2 * Ones(29) + 1;
      }
    }
    assert Ones(29) == 4 * Ones(27) + 3 by {
      assert Ones(28) == 2 * Ones(27) + 1;
    }
  }

  /** A block as big as physical memory holds every word of it. */
  lemma {:induction false} WholeMemory(a: nat, b: nat, j: nat)
    requires a < 0x2000_0000 && b < 0x2000_0000 && 27 <= j
    ensures SameBlock(a / 4, b / 4, j)
  {
    Ones29();
    ShrVanishes(a / 4, 27);
    ShrVanishes(b / 4, 27);
    WiderBlock(a / 4, b / 4, 27, j);
  }

  // ------------------------------------------------------------ the registers

  datatype Kinds = Kinds(fetch: bool, read: bool, write: bool)

  datatype Access = Fetch | Read | Write

  predicate Watches(k: Kinds, access: Access) {
    match access
    case Fetch => k.fetch
    case Read => k.read
    case Write => k.write
  }

  /** A request: what to watch, for whom, where, and the mask of its block. Its length is zero when
      the slot is free. */
  datatype Point = Point(kinds: Kinds, asid: int, va: nat, len: nat, mask: nat)

  /** The register image of a point: word address, mask in words, kinds. */
  datatype Image = Image(reg: nat, mask: nat, kinds: Kinds)

  /** What the processor is given: two word addresses with their kinds, the shared mask, and which
      of them it applies to. */
  datatype Registers = Registers(lo: nat, hi: nat, loKinds: Kinds, hiKinds: Kinds, mask: nat, m1: bool, m2: bool)

  /** The processor's rule: the access is of a watched kind, and its word address is the register's,
      but for the bits of the mask if the mask applies. */
  predicate Hits(reg: nat, kinds: Kinds, masked: bool, mask: nat, word: nat, access: Access) {
    && Watches(kinds, access)
    && if masked then AndNot(word, mask) == AndNot(reg, mask) else word == reg
  }

  /** An access at byte address `a` hits. */
  predicate HitsAt(reg: nat, kinds: Kinds, masked: bool, mask: nat, a: nat, access: Access) {
    Hits(reg, kinds, masked, mask, a / 4, access)
  }

  /** rm7kwp_set: the low two bits of address and mask are not kept. */
  function Programmed(p: Point): Image
    requires Unmapped(p.va)
  {
    Image(AndNot(Phys(p.va) / 4, p.mask / 4), p.mask / 4, p.kinds)
  }

  /** The point asks for this physical address. */
  predicate Asks(p: Point, a: nat) {
    exists va :: p.va <= va < p.va + p.len && Unmapped(va) && Phys(va) == a
  }

  /** The point is set, on a range that ends below 2^32. */
  predicate Live(p: Point) {
    p.len != 0 && p.va + p.len <= 0x1_0000_0000
  }

  /** The mask in words is again one of ones. */
  lemma {:induction false} OnesQuarter(n: nat)
    ensures Ones(n) / 4 == Ones(if n >= 2 then n - 2 else 0)
  {
    if n >= 2 {
      assert Ones(n) == 2 * (2 * Ones(n - 2) + 1) + 1;
    }
  }

  lemma {:induction false} WordBlock(a: nat, b: nat, n: nat)
    requires SameBlock(a, b, n)
    ensures SameBlock(a / 4, b / 4, if n >= 2 then n - 2 else 0)
  {
    assert a / 2 / 2 == a / 4 && b / 2 / 2 == b / 4;
    if n >= 2 {
      assert Shr(a, n) == Shr(a / 2 / 2, n - 2) && Shr(b, n) == Shr(b / 2 / 2, n - 2);
    } else if n == 1 {
      assert a / 2 == b / 2;
    }
  }

  /** With its own mask widened to `J` or not needed, a register matches every word of its block. */
  lemma {:induction false} RegisterHits(pa: nat, word: nat, j: nat, J: nat)
    requires SameBlock(word, pa, j) && j <= J
    ensures j == 0 ==> word == AndNot(pa, Ones(j))
    ensures AndNot(word, Ones(J)) == AndNot(AndNot(AndNot(pa, Ones(j)), Ones(J)), Ones(J))
  {
    AndNotZero(pa);
    AndNotOnes(pa, j);
    AndNotOnes(Floor(pa, j), J);
    AndNotOnes(Floor(Floor(pa, j), J), J);
    AndNotOnes(word, J);
    SameBlockFloor(word, pa, j);
    FloorTwice(pa, j, J);
    FloorTwice(word, j, J);
    FloorTwice(pa, J, J);
  }

  /** Every word the point asks for is in the block of 2^j words that its register stands for. */
  ghost predicate Covers(p: Point, image: Image, j: nat) {
    && Unmapped(p.va) && image == Programmed(p) && image.mask == Ones(j)
    && forall a: nat :: Asks(p, a) ==> SameBlock(a / 4, Phys(p.va) / 4, j)
  }

  /** The image is the one made for the point, and covers it if its range ends below 2^32. */
  ghost predicate Programs(p: Point, image: Image, j: nat) {
    Unmapped(p.va) && image == Programmed(p) && (Live(p) ==> Covers(p, image, j))
  }

  /** The mask of a point makes its register cover it, also where it runs from one segment into
      the next. */
  lemma {:induction false} MaskCovers(p: Point, k: nat) returns (j: nat)
    requires Unmapped(p.va) && p.len < 0x1_0000_0000 && p.mask == Ones(k) && SameBlock(p.va, Last(p.va, p.len), k)
    ensures Programmed(p).mask == Ones(j)
    ensures p.va + p.len <= 0x1_0000_0000 ==> Covers(p, Programmed(p), j)
  {
    j := if k >= 2 then k - 2 else 0;
    OnesQuarter(k);
    if p.va + p.len <= 0x1_0000_0000 {
      forall a: nat | Asks(p, a)
        ensures SameBlock(a / 4, Phys(p.va) / 4, j)
      {
        var va :| p.va <= va < p.va + p.len && Unmapped(va) && Phys(va) == a;
        if k >= 29 {
          WholeMemory(a, Phys(p.va), j);
        } else {
          BlockHoldsRange(p.va, Last(p.va, p.len), va, k);
          PhysicalBlock(va, p.va, k);
          WordBlock(a, Phys(p.va), k);
        }
      }
    }
  }

  /** The register of a covered point, after the widest mask is put in, matches each of its words. */
  ghost predicate Caught(p: Point, reg: nat, kinds: Kinds, masked: bool, mask: nat) {
    forall a: nat, access :: Asks(p, a) && Watches(p.kinds, access) ==>
      HitsAt(reg, kinds, masked, mask, a, access)
  }

  /** Whatever point the image covers is caught, set or not. */
  ghost predicate Armed(image: Image, j: nat, reg: nat, kinds: Kinds, masked: bool, mask: nat) {
    forall p :: Covers(p, image, j) ==> Caught(p, reg, kinds, masked, mask)
  }

  lemma {:induction false} CoveredIsCaught(p: Point, image: Image, j: nat, J: nat, reg: nat)
    requires Covers(p, image, j) && j <= J
    requires reg == if image.mask != 0 then AndNot(image.reg, Ones(J)) else image.reg
    ensures Caught(p, reg, image.kinds, image.mask != 0, Ones(J))
  {
    var masked, mask := image.mask != 0, Ones(J);
    forall a: nat, access | Asks(p, a) && Watches(p.kinds, access)
      ensures HitsAt(reg, image.kinds, masked, mask, a, access)
    {
      RegisterHits(Phys(p.va) / 4, a / 4, j, J);
    }
  }

  lemma {:induction false} ImageIsArmed(image: Image, j: nat, J: nat, reg: nat)
    requires j <= J && reg == if image.mask != 0 then AndNot(image.reg, Ones(J)) else image.reg
    ensures Armed(image, j, reg, image.kinds, image.mask != 0, Ones(J))
  {
    forall p | Covers(p, image, j)
      ensures Caught(p, reg, image.kinds, image.mask != 0, Ones(J))
    {
      CoveredIsCaught(p, image, j, J, reg);
    }
  }

  datatype Result = OK | INUSE | BADADDR | REFUSED | NOMATCH

  const NO_KINDS := Kinds(false, false, false)
  const FREE := Point(NO_KINDS, 0, 0, 0, 0)
  const UNUSED := Image(0, 0, NO_KINDS)

  /** The point is the one that a request to clear names. */
  predicate Names(p: Point, kinds: Kinds, asid: int, va: nat, len: nat) {
    p.kinds == kinds && p.asid == asid && p.va == va && p.len == len
  }

  /** Point `i`, which the request names, has been taken out, and the other one left alone. */
  predicate Cleared(ps: seq<Point>, ims: seq<Image>, ps': seq<Point>, ims': seq<Image>, i: int,
                    kinds: Kinds, asid: int, va: nat, len: nat)
    requires |ps| == |ims| == |ims'| == 2 && 0 <= i < 2
  {
    && Names(ps[i], kinds, asid, va, len) && ps' == ps[i := ps[i].(len := 0)]
    && ims'[i].kinds == NO_KINDS && ims'[1 - i] == ims[1 - i]
  }

  class Rm7000 {
    var points: seq<Point>
    var images: seq<Image>
    var regs: Registers
    ghost var widths: seq<nat>

    /** The register image of every point that is set covers it, and every mask is one of ones. */
    ghost predicate Valid()
      reads this
    {
      && |points| == 2 && |images| == 2 && |widths| == 2
      && images[0].mask == Ones(widths[0]) && images[1].mask == Ones(widths[1])
      && (Live(points[0]) ==> Covers(points[0], images[0], widths[0]))
      && (Live(points[1]) ==> Covers(points[1], images[1], widths[1]))
    }

    constructor ()
      ensures Valid() && points == [FREE, FREE]
    {
      points, images, widths := [FREE, FREE], [UNUSED, UNUSED], [0, 0];
      regs := Registers(0, 0, NO_KINDS, NO_KINDS, 0, false, false);
    }

    /** Puts a request into slot `i`. `accepted` is what the debug host says of the block; a block it
        refuses frees the slot but leaves the register image. */
    method Fill(i: int, kinds: Kinds, asid: int, va: nat, len: nat, accepted: bool) returns (res: Result)
      requires Valid() && 0 <= i < 2 && points[i].len == 0 && Unmapped(va) && len < 0x1_0000_0000
      modifies this
      ensures Valid() && res == if accepted then OK else REFUSED
      ensures points[1 - i] == old(points[1 - i]) && images[1 - i] == old(images[1 - i])
      ensures Names(points[i], kinds, asid, va, if accepted then len else 0)
      ensures Programs(points[i].(len := len), images[i], widths[i])
    {
      var mask;
      ghost var k;
      mask, k := CalcMask(va, len);
      var p := Point(kinds, asid, va, len, mask);
      ghost var j := MaskCovers(p, k);
      points, images, widths := points[i := p], images[i := Programmed(p)], widths[i := j];
      if !accepted {
        points := points[i := p.(len := 0)];
        return REFUSED;
      }
      return OK;
    }

    /** _mips_watchpoint_set, for an address without a physical one given: the first free slot. The
        register image is made for a request that the debug host refuses, too, and stays. */
    method Set(kinds: Kinds, asid: int, va: nat, len: nat, accepted: bool) returns (res: Result, i: int)
      requires Valid() && va < 0x1_0000_0000 && len < 0x1_0000_0000
      modifies this
      ensures Valid() && 0 <= i < 2
      ensures i == if old(points[0].len) == 0 then 0 else 1
      ensures points[1 - i] == old(points[1 - i]) && images[1 - i] == old(images[1 - i])
      ensures res == INUSE <==> old(points[0].len) != 0 && old(points[1].len) != 0
      ensures res == BADADDR <==> res != INUSE && !Unmapped(va)
      ensures res == OK <==> res != INUSE && Unmapped(va) && accepted
      ensures res == REFUSED <==> res != INUSE && Unmapped(va) && !accepted
      ensures res != INUSE ==> Names(points[i], kinds, asid, va, if res == OK then len else 0)
      ensures res == INUSE || res == BADADDR ==> images == old(images)
      ensures res == INUSE ==> points == old(points)
      ensures res == OK || res == REFUSED ==> Programs(points[i].(len := len), images[i], widths[i])
    {
      i := if points[0].len == 0 then 0 else 1;
      if points[i].len != 0 {
        res := INUSE;
      } else if Unmapped(va) {
        res := Fill(i, kinds, asid, va, len, accepted);
      } else {
        points := points[i := points[i].(kinds := kinds, asid := asid, va := va)];
        res := BADADDR;
      }
    }

    /** _mips_watchpoint_clear: the first point of that kind and place is taken out, with its
        register image; the other stays as it was. */
    method Clear(kinds: Kinds, asid: int, va: nat, len: nat) returns (res: Result)
      requires Valid()
      modifies `points, `images, `widths
      ensures Valid()
      ensures res == NOMATCH <==> forall i :: 0 <= i < 2 ==> !Names(old(points)[i], kinds, asid, va, len)
      ensures res == NOMATCH ==> points == old(points) && images == old(images)
      ensures res == NOMATCH || res == OK
      ensures res == OK ==> Cleared(old(points), old(images), points, images, 0, kinds, asid, va, len)
                            || Cleared(old(points), old(images), points, images, 1, kinds, asid, va, len)
    {
      var i := 0;
      while i < 2
        invariant 0 <= i <= 2 && Valid() && points == old(points) && images == old(images)
        invariant forall k :: 0 <= k < i ==> !Names(points[k], kinds, asid, va, len)
      {
        if Names(points[i], kinds, asid, va, len) {
          points := points[i := points[i].(len := 0)];
          if images[i].kinds != NO_KINDS {
            images, widths := images[i := UNUSED], widths[i := 0];
          }
          return OK;
        }
        i := i + 1;
      }
      return NOMATCH;
    }

    /** rm7kwp_insert: with the widest mask shared, no access to a word that a set point asks for is
        missed, by either register. */
    method Insert()
      requires Valid()
      modifies `regs
      ensures images[0].kinds != NO_KINDS || images[1].kinds != NO_KINDS ==>
        && Armed(images[0], widths[0], regs.lo, regs.loKinds, regs.m1, regs.mask)
        && Armed(images[1], widths[1], regs.hi, regs.hiKinds, regs.m2, regs.mask)
        && (Live(points[0]) ==> Caught(points[0], regs.lo, regs.loKinds, regs.m1, regs.mask))
        && (Live(points[1]) ==> Caught(points[1], regs.hi, regs.hiKinds, regs.m2, regs.mask))
      ensures images[0].kinds == NO_KINDS && images[1].kinds == NO_KINDS ==> regs == old(regs)
    {
      if images[0].kinds == NO_KINDS && images[1].kinds == NO_KINDS {
        return;
      }
      var lo, hi, m1, m2 := images[0].reg, images[1].reg, false, false;
      var mask := Or(images[0].mask, images[1].mask);
      ghost var J := Max(widths[0], widths[1]);
      OrOnes(widths[0], widths[1]);
      ImageIsArmed(images[0], widths[0], J, if images[0].mask != 0 then AndNot(lo, mask) else lo);
      ImageIsArmed(images[1], widths[1], J, if images[1].mask != 0 then AndNot(hi, mask) else hi);
      WidestIsZero(widths[0], widths[1]);
      if mask != 0 {
        if images[0].mask != 0 {
          lo, m1 := AndNot(lo, mask), true;
        }
        if images[1].mask != 0 {
          hi, m2 := AndNot(hi, mask), true;
        }
      }
      regs := Registers(lo, hi, images[0].kinds, images[1].kinds, mask, m1, m2);
    }
  }

  /** A request that the debug host refuses is watched all the same: after the next insert, every
      access of its kinds to a word of its range hits. */
  method RefusedIsWatched(w: Rm7000, kinds: Kinds, asid: int, va: nat, len: nat)
      returns (res: Result, ghost p: Point)
    requires w.Valid() && w.points[0].len == 0 && Unmapped(va) && 0 < len && va + len <= 0x1_0000_0000
    requires kinds != NO_KINDS
    modifies w
    ensures w.Valid() && res == REFUSED && w.points[0].len == 0 && Names(p, kinds, asid, va, len)
    ensures Caught(p, w.regs.lo, w.regs.loKinds, w.regs.m1, w.regs.mask)
  {
    var i;
    res, i := w.Set(kinds, asid, va, len, false);
    p := w.points[0].(len := len);
    w.Insert();
  }

  lemma {:induction false} WidestIsZero(i: nat, j: nat)
    ensures Ones(Max(i, j)) == 0 ==> Ones(i) == 0 && Ones(j) == 0
  {
  }
}
