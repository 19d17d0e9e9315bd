/** The instruction table of pmon/machine.c, reduced to what the stepper asks of it: which
    rows transfer control, and how. The build without the LR33000 and LR33020 rows. */
module Distbl {

  /** How a row's instruction transfers control, if it does. */
  datatype Kind = Off | RsRtOff | RsOff | CpOff | Target | Jalr | Jr | Other

  datatype Row = Row(mask: bv32, code: bv32, kind: Kind)

  predicate Matches(r: Row, w: bv32) {
    w & r.mask == r.code
  }

  // ------------------------------------------------------------ the rows, in order

  /** Short names for special cases of instructions, looked up first. */
  function PlainAliases(): seq<Row> {
    [ Row(0xffffffff, 0x00000000, Other), Row(0xffe00000, 0x24000000, Other), Row(0xffe00000, 0x34000000, Other),
      Row(0xfc1f07ff, 0x00000021, Other), Row(0xfc1f07ff, 0x00000025, Other), Row(0xffe007ff, 0x00000022, Other),
      Row(0xffe007ff, 0x00000023, Other), Row(0xfc1f07ff, 0x0000002d, Other), Row(0xffe007ff, 0x0000002e, Other),
      Row(0xffe007ff, 0x0000002f, Other), Row(0xfc1f07ff, 0x00000027, Other) ]
  }

  /** The short names of branches that are always taken. */
  function BareBranches(): seq<Row> {
    [ Row(0xffff0000, 0x10000000, Off), Row(0xffff0000, 0x04010000, Off), Row(0xffff0000, 0x04110000, Off) ]
  }

  /** add to andi. */
  function Plain0(): seq<Row> {
    [ Row(0xfc0007ff, 0x00000020, Other), Row(0xfc000000, 0x20000000, Other), Row(0xfc000000, 0x24000000, Other),
      Row(0xfc0007ff, 0x00000021, Other), Row(0xfc0007ff, 0x0000002c, Other), Row(0xfc000000, 0x60000000, Other),
      Row(0xfc000000, 0x64000000, Other), Row(0xfc0007ff, 0x0000002d, Other), Row(0xfc0007ff, 0x00000024, Other),
      Row(0xfc000000, 0x30000000, Other) ]
  }

  /** Branches on a coprocessor condition. */
  function CopBranches(): seq<Row> {
    [ Row(0xffff0000, 0x41000000, CpOff), Row(0xffff0000, 0x45000000, CpOff), Row(0xffff0000, 0x49000000, CpOff),
      Row(0xffff0000, 0x4d000000, CpOff), Row(0xffff0000, 0x41010000, CpOff), Row(0xffff0000, 0x45010000, CpOff),
      Row(0xffff0000, 0x49010000, CpOff), Row(0xffff0000, 0x4d010000, CpOff), Row(0xffff0000, 0x41020000, CpOff),
      Row(0xffff0000, 0x45020000, CpOff), Row(0xffff0000, 0x49020000, CpOff), Row(0xffff0000, 0x4d020000, CpOff),
      Row(0xffff0000, 0x41030000, CpOff), Row(0xffff0000, 0x45030000, CpOff), Row(0xffff0000, 0x49030000, CpOff),
      Row(0xffff0000, 0x4d030000, CpOff) ]
  }

  /** Branches on registers. */
  function RegBranches(): seq<Row> {
    [ Row(0xfc000000, 0x10000000, RsRtOff), Row(0xfc000000, 0x14000000, RsRtOff), Row(0xfc1f0000, 0x18000000, RsOff),
      Row(0xfc1f0000, 0x1c000000, RsOff), Row(0xfc000000, 0x50000000, RsRtOff), Row(0xfc000000, 0x54000000, RsRtOff),
      Row(0xfc1f0000, 0x58000000, RsOff), Row(0xfc1f0000, 0x5c000000, RsOff), Row(0xfc1f0000, 0x04000000, RsOff),
      Row(0xfc1f0000, 0x04010000, RsOff), Row(0xfc1f0000, 0x04020000, RsOff), Row(0xfc1f0000, 0x04030000, RsOff),
      Row(0xfc1f0000, 0x04100000, RsOff), Row(0xfc1f0000, 0x04110000, RsOff), Row(0xfc1f0000, 0x04120000, RsOff),
      Row(0xfc1f0000, 0x04130000, RsOff) ]
  }

  /** break to add.d. */
  function Plain1(): seq<Row> {
    [ Row(0xfc00003f, 0x0000000d, Other), Row(0xfc000000, 0xbc000000, Other), Row(0xffe007ff, 0x40400000, Other),
      Row(0xffe007ff, 0x44400000, Other), Row(0xffe007ff, 0x48400000, Other), Row(0xffe007ff, 0x4c400000, Other),
      Row(0xffffffff, 0x42000008, Other), Row(0xffffffff, 0x42000001, Other), Row(0xffffffff, 0x42000002, Other),
      Row(0xffffffff, 0x42000006, Other), Row(0xffffffff, 0x42000010, Other), Row(0xffffffff, 0x42000018, Other),
      Row(0xfe000000, 0x42000000, Other), Row(0xfee0003f, 0x46000000, Other), Row(0xfee0003f, 0x46200000, Other) ]
  }

  /** sub.s to c.f.s. */
  function Plain2(): seq<Row> {
    [ Row(0xfee0003f, 0x46000001, Other), Row(0xfee0003f, 0x46200001, Other), Row(0xfee0003f, 0x46000002, Other),
      Row(0xfee0003f, 0x46200002, Other), Row(0xfee0003f, 0x46000003, Other), Row(0xfee0003f, 0x46200003, Other),
      Row(0xfee0003f, 0x46000005, Other), Row(0xfee0003f, 0x46200005, Other), Row(0xfee0003f, 0x46000006, Other),
      Row(0xfee0003f, 0x46200006, Other), Row(0xfee0003f, 0x46000007, Other), Row(0xfee0003f, 0x46200007, Other),
      Row(0xfee0003f, 0x46200004, Other), Row(0xfee0003f, 0x46000004, Other), Row(0xfee0003f, 0x46000030, Other) ]
  }

  /** c.f.d to c.ule.d. */
  function Plain3(): seq<Row> {
    [ Row(0xfee0003f, 0x46200030, Other), Row(0xfee0003f, 0x46000031, Other), Row(0xfee0003f, 0x46200031, Other),
      Row(0xfee0003f, 0x46000032, Other), Row(0xfee0003f, 0x46200032, Other), Row(0xfee0003f, 0x46000033, Other),
      Row(0xfee0003f, 0x46200033, Other), Row(0xfee0003f, 0x46000034, Other), Row(0xfee0003f, 0x46200034, Other),
      Row(0xfee0003f, 0x46000035, Other), Row(0xfee0003f, 0x46200035, Other), Row(0xfee0003f, 0x46000036, Other),
      Row(0xfee0003f, 0x46200036, Other), Row(0xfee0003f, 0x46000037, Other), Row(0xfee0003f, 0x46200037, Other) ]
  }

  /** c.sf.s to c.ngt.s. */
  function Plain4(): seq<Row> {
    [ Row(0xfee0003f, 0x46000038, Other), Row(0xfee0003f, 0x46200038, Other), Row(0xfee0003f, 0x46000039, Other),
      Row(0xfee0003f, 0x46200039, Other), Row(0xfee0003f, 0x4600003a, Other), Row(0xfee0003f, 0x4620003a, Other),
      Row(0xfee0003f, 0x4600003b, Other), Row(0xfee0003f, 0x4620003b, Other), Row(0xfee0003f, 0x4600003c, Other),
      Row(0xfee0003f, 0x4620003c, Other), Row(0xfee0003f, 0x4600003d, Other), Row(0xfee0003f, 0x4620003d, Other),
      Row(0xfee0003f, 0x4600003e, Other), Row(0xfee0003f, 0x4620003e, Other), Row(0xfee0003f, 0x4600003f, Other) ]
  }

  /** c.ngt.d to ceil.w.s. */
  function Plain5(): seq<Row> {
    [ Row(0xfee0003f, 0x4620003f, Other), Row(0xfee0003f, 0x46800020, Other), Row(0xfee0003f, 0x46a00020, Other),
      Row(0xfee0003f, 0x46200020, Other), Row(0xfee0003f, 0x46000021, Other), Row(0xfee0003f, 0x46800021, Other),
      Row(0xfee0003f, 0x46a00021, Other), Row(0xfee0003f, 0x46200024, Other), Row(0xfee0003f, 0x46000024, Other),
      Row(0xfee0003f, 0x46200025, Other), Row(0xfee0003f, 0x46000025, Other), Row(0xffff003f, 0x4620000a, Other),
      Row(0xffff003f, 0x4600000a, Other), Row(0xffff003f, 0x4620000e, Other), Row(0xffff003f, 0x4600000e, Other) ]
  }

  /** floor.l.d to cop3. */
  function Plain6(): seq<Row> {
    [ Row(0xffff003f, 0x4620000b, Other), Row(0xffff003f, 0x4600000b, Other), Row(0xffff003f, 0x4620000f, Other),
      Row(0xffff003f, 0x4600000f, Other), Row(0xffff003f, 0x46200008, Other), Row(0xffff003f, 0x46000008, Other),
      Row(0xffff003f, 0x4620000c, Other), Row(0xffff003f, 0x4600000c, Other), Row(0xffff003f, 0x46200009, Other),
      Row(0xffff003f, 0x46000009, Other), Row(0xffff003f, 0x4620000d, Other), Row(0xffff003f, 0x4600000d, Other),
      Row(0xfe000000, 0x46000000, Other), Row(0xfe000000, 0x4a000000, Other), Row(0xfe000000, 0x4e000000, Other) ]
  }

  /** ctc0 to ddivu. */
  function Plain7(): seq<Row> {
    [ Row(0xffe007ff, 0x40c00000, Other), Row(0xffe007ff, 0x44c00000, Other), Row(0xffe007ff, 0x48c00000, Other),
      Row(0xffe007ff, 0x4cc00000, Other), Row(0xfc00ffff, 0x0000001a, Other), Row(0xfc00ffff, 0x0000001b, Other),
      Row(0xfc00ffff, 0x0000001e, Other), Row(0xfc00ffff, 0x0000001f, Other) ]
  }

  /** The jumps. */
  function Jumps(): seq<Row> {
    [ Row(0xfc000000, 0x08000000, Target), Row(0xfc000000, 0x0c000000, Target), Row(0xfc1f07ff, 0x00000009, Jalr),
      Row(0xfc1fffff, 0x00000008, Jr) ]
  }

  /** lui to lwc3. */
  function Plain8(): seq<Row> {
    [ Row(0xfc000000, 0x3c000000, Other), Row(0xfc000000, 0x80000000, Other), Row(0xfc000000, 0x90000000, Other),
      Row(0xfc000000, 0x84000000, Other), Row(0xfc000000, 0x94000000, Other), Row(0xfc000000, 0x8c000000, Other),
      Row(0xfc000000, 0x88000000, Other), Row(0xfc000000, 0x98000000, Other), Row(0xfc000000, 0x9c000000, Other),
      Row(0xfc000000, 0x68000000, Other), Row(0xfc000000, 0x6c000000, Other), Row(0xfc000000, 0xc0000000, Other),
      Row(0xfc000000, 0xc4000000, Other), Row(0xfc000000, 0xc8000000, Other), Row(0xfc000000, 0xcc000000, Other) ]
  }

  /** lld to mtc2. */
  function Plain9(): seq<Row> {
    [ Row(0xfc000000, 0xd0000000, Other), Row(0xfc000000, 0xd4000000, Other), Row(0xfc000000, 0xd8000000, Other),
      Row(0xfc000000, 0xdc000000, Other), Row(0xffe007ff, 0x40000000, Other), Row(0xffe007ff, 0x44000000, Other),
      Row(0xffe007ff, 0x48000000, Other), Row(0xffe007ff, 0x4c000000, Other), Row(0xffe007ff, 0x40200000, Other),
      Row(0xffe007ff, 0x44200000, Other), Row(0xffe007ff, 0x48200000, Other), Row(0xffe007ff, 0x4c200000, Other),
      Row(0xffe007ff, 0x40800000, Other), Row(0xffe007ff, 0x44800000, Other), Row(0xffe007ff, 0x48800000, Other) ]
  }

  /** mtc3 to dmadd16. */
  function Plain10(): seq<Row> {
    [ Row(0xffe007ff, 0x4c800000, Other), Row(0xffe007ff, 0x40a00000, Other), Row(0xffe007ff, 0x44a00000, Other),
      Row(0xffe007ff, 0x48a00000, Other), Row(0xffe007ff, 0x4ca00000, Other), Row(0xffff07ff, 0x00000010, Other),
      Row(0xffff07ff, 0x00000012, Other), Row(0xfc1fffff, 0x00000011, Other), Row(0xfc1fffff, 0x00000013, Other),
      Row(0xfc00ffff, 0x00000018, Other), Row(0xfc00ffff, 0x00000019, Other), Row(0xfc00ffff, 0x0000001c, Other),
      Row(0xfc00ffff, 0x0000001d, Other), Row(0xfc00ffff, 0x00000028, Other), Row(0xfc00ffff, 0x00000020, Other) ]
  }

  /** standby to swc1. */
  function Plain11(): seq<Row> {
    [ Row(0xffffffff, 0x42000021, Other), Row(0xffffffff, 0x42000022, Other), Row(0xffffffff, 0x42000023, Other),
      Row(0xfc0007ff, 0x00000027, Other), Row(0xfc0007ff, 0x00000025, Other), Row(0xfc000000, 0x34000000, Other),
      Row(0xfc000000, 0xa0000000, Other), Row(0xfc000000, 0xa4000000, Other), Row(0xfc000000, 0xa8000000, Other),
      Row(0xfc000000, 0xac000000, Other), Row(0xfc000000, 0xb0000000, Other), Row(0xfc000000, 0xb4000000, Other),
      Row(0xfc000000, 0xb8000000, Other), Row(0xfc000000, 0xe0000000, Other), Row(0xfc000000, 0xe4000000, Other) ]
  }

  /** swc2 to sltu. */
  function Plain12(): seq<Row> {
    [ Row(0xfc000000, 0xe8000000, Other), Row(0xfc000000, 0xec000000, Other), Row(0xfc000000, 0xf0000000, Other),
      Row(0xfc000000, 0xf4000000, Other), Row(0xfc000000, 0xf8000000, Other), Row(0xfc000000, 0xfc000000, Other),
      Row(0xffe0003f, 0x00000000, Other), Row(0xfc0007ff, 0x00000004, Other), Row(0xffe0003f, 0x00000038, Other),
      Row(0xfc0007ff, 0x00000014, Other), Row(0xfc0007ff, 0x0000003c, Other), Row(0xfc0007ff, 0x0000002a, Other),
      Row(0xfc000000, 0x28000000, Other), Row(0xfc000000, 0x2c000000, Other), Row(0xfc0007ff, 0x0000002b, Other) ]
  }

  /** sra to teqi. */
  function Plain13(): seq<Row> {
    [ Row(0xffe0003f, 0x00000003, Other), Row(0xfc0007ff, 0x00000007, Other), Row(0xffe0003f, 0x0000003b, Other),
      Row(0xfc0007ff, 0x00000017, Other), Row(0xfc0007ff, 0x0000003f, Other), Row(0xffe0003f, 0x00000002, Other),
      Row(0xfc0007ff, 0x00000006, Other), Row(0xffe0003f, 0x0000003a, Other), Row(0xfc0007ff, 0x00000016, Other),
      Row(0xfc0007ff, 0x0000003e, Other), Row(0xfc0007ff, 0x00000022, Other), Row(0xfc0007ff, 0x00000023, Other),
      Row(0xfc0007ff, 0x0000002e, Other), Row(0xfc0007ff, 0x0000002f, Other), Row(0xfc1f0000, 0x040c0000, Other) ]
  }

  /** teq to xori. */
  function Plain14(): seq<Row> {
    [ Row(0xfc00003f, 0x00000034, Other), Row(0xfc1f0000, 0x04080000, Other), Row(0xfc00003f, 0x00000030, Other),
      Row(0xfc1f0000, 0x04090000, Other), Row(0xfc00003f, 0x00000031, Other), Row(0xfc1f0000, 0x040a0000, Other),
      Row(0xfc00003f, 0x00000032, Other), Row(0xfc1f0000, 0x040b0000, Other), Row(0xfc00003f, 0x00000033, Other),
      Row(0xfc1f0000, 0x040e0000, Other), Row(0xfc00003f, 0x00000036, Other), Row(0xffffffff, 0x0000000f, Other),
      Row(0xffffffff, 0x0000000c, Other), Row(0xfc0007ff, 0x00000026, Other), Row(0xfc000000, 0x38000000, Other) ]
  }

  /** The whole table; its last row matches every word. */
  function Table(): seq<Row> {
    Aliases() + (Machine() + [Row(0, 0, Other)])
  }

  function Aliases(): seq<Row> {
    PlainAliases() + BareBranches()
  }

  function Machine(): seq<Row> {
    First() + Second()
  }

  function First(): seq<Row> {
    Plain0() + CopBranches() + RegBranches() + Plain1() + Plain2() + Plain3() + Plain4() + Plain5() + Plain6()
    + Plain7()
  }

  function Second(): seq<Row> {
    Jumps() + Plain8() + Plain9() + Plain10() + Plain11() + Plain12() + Plain13() + Plain14()
  }

  // ------------------------------------------------------------ looking a word up

  /** The kind of the first row that matches, or `none`. */
  function FirstMatch(rows: seq<Row>, w: bv32, none: Kind): Kind {
    if rows == [] then none
    else if Matches(rows[0], w) then rows[0].kind
    else FirstMatch(rows[1..], w, none)
  }

  /** The lookup with its one-entry cache. */
  class Lookup {
    var cached: bool
    var lastKind: Kind
    var lastBits: bv32

    constructor ()
      ensures Valid()
    {
      cached, lastKind, lastBits := false, Other, 0;
    }

    ghost predicate Valid()
      reads this
    {
      cached ==> lastKind == FirstMatch(Table(), lastBits, Other)
    }

    /** Whatever was looked up before, the first row that matches. */
    method Get(bits: bv32) returns (kind: Kind)
      requires Valid()
      modifies this
      ensures Valid()
      ensures kind == FirstMatch(Table(), bits, Other)
    {
      if cached && bits == lastBits {
        return lastKind;
      }
      SomeRowMatches(bits);
      kind := Scan(Table(), bits, Other);
      cached, lastKind, lastBits := true, kind, bits;
    }
  }

  /** Steps down the rows to the first that matches. */
  method Scan(rows: seq<Row>, bits: bv32, none: Kind) returns (kind: Kind)
    requires |rows| > 0 && Matches(rows[|rows| - 1], bits)
    ensures kind == FirstMatch(rows, bits, none)
  {
    var i := 0;
    while !Matches(rows[i], bits)
      invariant 0 <= i < |rows|
      invariant FirstMatch(rows, bits, none) == FirstMatch(rows[i..], bits, none)
      decreases |rows| - i
    {
      assert rows[i..][1..] == rows[i + 1..];
      i := i + 1;
    }
    kind := rows[i].kind;
  }

  lemma {:induction false} SomeRowMatches(w: bv32)
    ensures |Table()| > 0 && Matches(Table()[|Table()| - 1], w)
  {
  }

  // ------------------------------------------------------------ the table and the architecture

  function Opcode(w: bv32): bv32 {
    w >> 26
  }

  function RsField(w: bv32): bv32 {
    (w >> 21) & 0x1f
  }

  function RtField(w: bv32): bv32 {
    (w >> 16) & 0x1f
  }

  /** The kind of an instruction word by its architectural fields. */
  function Decoded(w: bv32): Kind {
    var op, rs, rt := Opcode(w), RsField(w), RtField(w);
    if op == 2 || op == 3 then Target
    else if op == 0 then
      (if w & 0x001f_ffff == 8 then Jr else if w & 0x001f_07ff == 9 then Jalr else Other)
    else if op == 1 then
      (if rs == 0 && (rt == 1 || rt == 17) then Off
       else if rt < 4 || 16 <= rt < 20 then RsOff else Other)
    else if op == 4 && rs == 0 && rt == 0 then Off
    else if op == 4 || op == 5 || op == 20 || op == 21 then RsRtOff
    else if op == 6 || op == 7 || op == 22 || op == 23 then (if rt == 0 then RsOff else Other)
    else if 16 <= op < 20 && rs == 8 && rt < 4 then CpOff
    else Other
  }

  /** A row that no control transfer matches, judged by its bits alone. */
  predicate Inert(r: Row) {
    var op := Opcode(r.code);
    && r.mask & 0xfc00_0000 == 0xfc00_0000
    && r.kind == Other
    && (|| (8 <= op < 16) || op >= 24
        || (op == 0 && r.mask & 0x3f == 0x3f && r.code & 0x3f != 8 && r.code & 0x3f != 9)
        || (op == 1 && r.mask & 0x001f_0000 == 0x001f_0000 && r.code & 0x0018_0000 == 0x0008_0000)
        || (16 <= op < 20 && r.mask & r.code & 0x0200_0000 != 0)
        || (16 <= op < 20 && r.mask & 0x03e0_0000 == 0x03e0_0000 && r.code & 0x03e0_0000 != 0x0100_0000))
  }

  lemma {:induction false} InertRow(r: Row, w: bv32)
    requires Inert(r) && Matches(r, w)
    ensures Decoded(w) == Other
  {
  }

  lemma {:induction false} PlainAliasesInert()
    ensures forall r :: r in PlainAliases() ==> Inert(r)
  {
  }

  lemma {:induction false} Plain0Inert()
    ensures forall r :: r in Plain0() ==> Inert(r)
  {
  }

  lemma {:induction false} Plain1Inert()
    ensures forall r :: r in Plain1() ==> Inert(r)
  {
  }

  lemma {:induction false} Plain2Inert()
    ensures forall r :: r in Plain2() ==> Inert(r)
  {
  }

  lemma {:induction false} Plain3Inert()
    ensures forall r :: r in Plain3() ==> Inert(r)
  {
  }

  lemma {:induction false} Plain4Inert()
    ensures forall r :: r in Plain4() ==> Inert(r)
  {
  }

  lemma {:induction false} Plain5Inert()
    ensures forall r :: r in Plain5() ==> Inert(r)
  {
  }

  lemma {:induction false} Plain6Inert()
    ensures forall r :: r in Plain6() ==> Inert(r)
  {
  }

  lemma {:induction false} Plain7Inert()
    ensures forall r :: r in Plain7() ==> Inert(r)
  {
  }

  lemma {:induction false} Plain8Inert()
    ensures forall r :: r in Plain8() ==> Inert(r)
  {
  }

  lemma {:induction false} Plain9Inert()
    ensures forall r :: r in Plain9() ==> Inert(r)
  {
  }

  lemma {:induction false} Plain10Inert()
    ensures forall r :: r in Plain10() ==> Inert(r)
  {
  }

  lemma {:induction false} Plain11Inert()
    ensures forall r :: r in Plain11() ==> Inert(r)
  {
  }

  lemma {:induction false} Plain12Inert()
    ensures forall r :: r in Plain12() ==> Inert(r)
  {
  }

  lemma {:induction false} Plain13Inert()
    ensures forall r :: r in Plain13() ==> Inert(r)
  {
  }

  lemma {:induction false} Plain14Inert()
    ensures forall r :: r in Plain14() ==> Inert(r)
  {
  }

  /** A row agrees with the architecture on every word it matches. */
  predicate Agrees(r: Row, w: bv32) {
    Matches(r, w) ==> r.kind == Decoded(w)
  }

  lemma {:induction false} InertAgrees(rows: seq<Row>, w: bv32)
    requires forall r :: r in rows ==> Inert(r)
    ensures forall r :: r in rows ==> Agrees(r, w)
  {
    forall r | r in rows
      ensures Agrees(r, w)
    {
      if Matches(r, w) {
        InertRow(r, w);
      }
    }
  }

  lemma {:induction false} BareBranchesAgree(w: bv32)
    ensures forall r :: r in BareBranches() ==> Agrees(r, w)
  {
  }

  predicate OnCop(r: Row) {
    && r.mask == 0xffff_0000 && r.kind == CpOff
    && 16 <= Opcode(r.code) < 20 && RsField(r.code) == 8 && RtField(r.code) < 4
  }

  predicate OnRegs(r: Row) {
    var op, rt := Opcode(r.code), RtField(r.code);
    || (r.mask == 0xfc00_0000 && r.kind == RsRtOff && (op == 4 || op == 5 || op == 20 || op == 21))
    || (r.mask == 0xfc1f_0000 && r.kind == RsOff
        && (|| (rt == 0 && (op == 6 || op == 7 || op == 22 || op == 23))
            || (op == 1 && (rt < 4 || 16 <= rt < 20))))
  }

  lemma {:induction false} CopBranchesOnCop()
    ensures forall r :: r in CopBranches() ==> OnCop(r)
  {
  }

  lemma {:induction false} RegBranchesOnRegs()
    ensures forall r :: r in RegBranches() ==> OnRegs(r)
  {
  }

  /** The branch rows agree on every word that no alias takes first. */
  lemma {:induction false} BranchRow(r: Row, w: bv32)
    requires (OnCop(r) || OnRegs(r)) && Decoded(w) != Off
    ensures Agrees(r, w)
  {
  }

  lemma {:induction false} JumpsAgree(w: bv32)
    ensures forall r :: r in Jumps() ==> Agrees(r, w)
  {
  }

  /** The row that decodes a control transfer. */
  function RowOf(w: bv32): Row
    requires Decoded(w) != Other
  {
    match Decoded(w)
    case Off => Row(0xffff_0000, w & 0xffff_0000, Off)
    case CpOff => Row(0xffff_0000, w & 0xffff_0000, CpOff)
    case RsRtOff => Row(0xfc00_0000, w & 0xfc00_0000, RsRtOff)
    case RsOff => Row(0xfc1f_0000, w & 0xfc1f_0000, RsOff)
    case Target => Row(0xfc00_0000, w & 0xfc00_0000, Target)
    case Jalr => Row(0xfc1f_07ff, 9, Jalr)
    case Jr => Row(0xfc1f_ffff, 8, Jr)
  }

  lemma {:induction false} BareRowIsThere(w: bv32)
    requires Decoded(w) == Off
    ensures Matches(RowOf(w), w) && RowOf(w) in BareBranches()
  {
  }

  lemma {:induction false} CopRowIsThere(w: bv32)
    requires Decoded(w) == CpOff
    ensures Matches(RowOf(w), w) && RowOf(w) in CopBranches()
  {
  }

  lemma {:induction false} RsRtWord(w: bv32)
    requires Decoded(w) == RsRtOff
    ensures var c := w & 0xfc00_0000;
      c == 0x1000_0000 || c == 0x1400_0000 || c == 0x5000_0000 || c == 0x5400_0000
  {
  }

  lemma {:induction false} RsWord(w: bv32)
    requires Decoded(w) == RsOff
    ensures var c := w & 0xfc1f_0000;
      || c == 0x1800_0000 || c == 0x1c00_0000 || c == 0x5800_0000 || c == 0x5c00_0000
      || c == 0x0400_0000 || c == 0x0401_0000 || c == 0x0402_0000 || c == 0x0403_0000
      || c == 0x0410_0000 || c == 0x0411_0000 || c == 0x0412_0000 || c == 0x0413_0000
  {
  }

  lemma {:induction false} RsRtRowIsThere(w: bv32)
    requires Decoded(w) == RsRtOff
    ensures Matches(RowOf(w), w) && RowOf(w) in RegBranches()
  {
    RsRtWord(w);
    assert RowOf(w) in RegBranches();
  }

  lemma {:induction false} RsRowIsThere(w: bv32)
    requires Decoded(w) == RsOff
    ensures Matches(RowOf(w), w) && RowOf(w) in RegBranches()
  {
    RsWord(w);
    assert RowOf(w) in RegBranches();
  }

  lemma {:induction false} TargetWord(w: bv32)
    requires Decoded(w) == Target
    ensures var c := w & 0xfc00_0000; c == 0x0800_0000 || c == 0x0c00_0000
  {
  }

  lemma {:induction false} JumpRowIsThere(w: bv32)
    requires Decoded(w) == Target || Decoded(w) == Jalr || Decoded(w) == Jr
    ensures Matches(RowOf(w), w) && RowOf(w) in Jumps()
  {
    if Decoded(w) == Target {
      TargetWord(w);
    }
    assert RowOf(w) in Jumps();
  }

  lemma {:induction false} MatchAppend(xs: seq<Row>, ys: seq<Row>, w: bv32, none: Kind)
    ensures FirstMatch(xs + ys, w, none) == FirstMatch(xs, w, FirstMatch(ys, w, none))
    decreases |xs|
  {
    if xs == [] {
      assert xs + ys == ys;
    } else {
      assert (xs + ys)[1..] == xs[1..] + ys;
      MatchAppend(xs[1..], ys, w, none);
    }
  }

  lemma {:induction false} MatchAgrees(rows: seq<Row>, w: bv32, none: Kind)
    requires forall r :: r in rows ==> Agrees(r, w)
    requires none == Decoded(w) || exists r :: r in rows && Matches(r, w)
    ensures FirstMatch(rows, w, none) == Decoded(w)
    decreases |rows|
  {
    if rows != [] {
      assert rows[0] in rows;
      if !Matches(rows[0], w) {
        if none != Decoded(w) {
          var r :| r in rows && Matches(r, w);
          assert r in rows[1..];
        }
        MatchAgrees(rows[1..], w, none);
      }
    }
  }

  lemma {:induction false} AliasesAgree(w: bv32)
    ensures forall r :: r in Aliases() ==> Agrees(r, w)
  {
    PlainAliasesInert();
    InertAgrees(PlainAliases(), w);
    BareBranchesAgree(w);
  }

  lemma {:induction false} BranchesAgree(w: bv32)
    requires Decoded(w) != Off
    ensures forall r :: r in CopBranches() + RegBranches() ==> Agrees(r, w)
  {
    CopBranchesOnCop();
    RegBranchesOnRegs();
    forall r | r in CopBranches() + RegBranches()
      ensures Agrees(r, w)
    {
      BranchRow(r, w);
    }
  }

  lemma {:induction false} FirstAgrees(w: bv32)
    requires Decoded(w) != Off
    ensures forall r :: r in First() ==> Agrees(r, w)
  {
    BranchesAgree(w);
    Plain0Inert();
    InertAgrees(Plain0(), w);
    Plain1Inert();
    InertAgrees(Plain1(), w);
    Plain2Inert();
    InertAgrees(Plain2(), w);
    Plain3Inert();
    InertAgrees(Plain3(), w);
    Plain4Inert();
    InertAgrees(Plain4(), w);
    Plain5Inert();
    InertAgrees(Plain5(), w);
    Plain6Inert();
    InertAgrees(Plain6(), w);
    Plain7Inert();
    InertAgrees(Plain7(), w);
  }

  lemma {:induction false} SecondAgrees(w: bv32)
    requires Decoded(w) != Off
    ensures forall r :: r in Second() ==> Agrees(r, w)
  {
    JumpsAgree(w);
    Plain8Inert();
    InertAgrees(Plain8(), w);
    Plain9Inert();
    InertAgrees(Plain9(), w);
    Plain10Inert();
    InertAgrees(Plain10(), w);
    Plain11Inert();
    InertAgrees(Plain11(), w);
    Plain12Inert();
    InertAgrees(Plain12(), w);
    Plain13Inert();
    InertAgrees(Plain13(), w);
    Plain14Inert();
    InertAgrees(Plain14(), w);
  }

  lemma {:induction false} MachineAgrees(w: bv32)
    requires Decoded(w) != Off
    ensures forall r :: r in Machine() ==> Agrees(r, w)
  {
    FirstAgrees(w);
    SecondAgrees(w);
  }

  lemma {:induction false} TransferIsThere(w: bv32)
    requires Decoded(w) != Other && Decoded(w) != Off
    ensures RowOf(w) in Machine() && Matches(RowOf(w), w)
  {
    match Decoded(w)
    case CpOff => CopRowIsThere(w);
    case RsRtOff => RsRtRowIsThere(w);
    case RsOff => RsRowIsThere(w);
    case _ => JumpRowIsThere(w);
  }

  /** Every word: the first row of the table that matches is of the kind the architecture
      gives the word. */
  lemma {:induction false} TableIsRight(w: bv32)
    ensures FirstMatch(Table(), w, Other) == Decoded(w)
  {
    var last := [Row(0, 0, Other)];
    MatchAppend(Aliases(), Machine() + last, w, Other);
    MatchAppend(Machine(), last, w, Other);
    AliasesAgree(w);
    assert FirstMatch(last, w, Other) == Other;
    if Decoded(w) == Off {
      BareRowIsThere(w);
      assert RowOf(w) in Aliases();
      MatchAgrees(Aliases(), w, FirstMatch(Machine(), w, Other));
    } else {
      MachineAgrees(w);
      if Decoded(w) != Other {
        TransferIsThere(w);
      }
      MatchAgrees(Machine(), w, Other);
      MatchAgrees(Aliases(), w, Decoded(w));
    }
  }
}
