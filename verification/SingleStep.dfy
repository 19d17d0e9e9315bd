/** Choosing where to plant the step breakpoints (pmon/go.c, setTrcbp, over the decoder of
    pmon/machine.c), against the MIPS I-III rules for the program counter.

    A step runs the instruction at `pc` and, for a branch or jump, its delay slot. Addresses
    and registers are 32-bit words. */
module SingleStep {
  import opened Distbl

  /** Register contents by register number; register 0 always reads as zero. */
  type Regs = bv32 -> bv32

  // ------------------------------------------------------------ the architecture

  predicate Negative(x: bv32) {
    x & 0x8000_0000 != 0
  }

  /** The two's-complement value of a 16-bit branch offset, in words. */
  function Displacement(v: bv32): bv32 {
    if v < 0x8000 then v else v - 0x1_0000
  }

  /** The address `words` words from the delay slot. */
  function Away(pc: bv32, words: bv32): bv32 {
    pc + 4 + (words << 2)
  }

  /** Whether the conditional branch `w` is taken; `cond` is the coprocessor condition. */
  predicate Taken(w: bv32, gpr: Regs, cond: bool) {
    var op, rt := Opcode(w), RtField(w);
    var a, b := gpr(RsField(w)), gpr(rt);
    if op == 1 then Negative(a) == (rt & 1 == 0)
    else if op == 4 || op == 20 then a == b
    else if op == 5 || op == 21 then a != b
    else if op == 6 || op == 22 then Negative(a) || a == 0
    else if op == 7 || op == 23 then !Negative(a) && a != 0
    else cond == (rt & 1 == 1)
  }

  /** `w` branches relative to the program counter. */
  predicate Relative(w: bv32) {
    var op, rt := Opcode(w), RtField(w);
    || (op == 1 && (rt < 4 || 16 <= rt < 20))
    || 4 <= op < 8 || 20 <= op < 24
    || (16 <= op < 20 && RsField(w) == 8)
  }

  predicate JumpsToRegister(w: bv32) {
    Opcode(w) == 0 && (w & 0x3f == 8 || w & 0x3f == 9)
  }

  /** The program counter after the step. */
  function PcAfter(w: bv32, pc: bv32, gpr: Regs, cond: bool): bv32 {
    if Opcode(w) == 2 || Opcode(w) == 3 then ((pc + 4) & 0xf000_0000) + ((w & 0x03ff_ffff) << 2)
    else if JumpsToRegister(w) then gpr(RsField(w))
    else if Relative(w) then (if Taken(w, gpr, cond) then Away(pc, Displacement(w & 0xffff)) else pc + 8)
    else pc + 4
  }

  /** The word is an instruction that can complete: not syscall, break or eret, and with zero in
      the fields that jr, jalr, blez and bgtz reserve. */
  predicate Completes(w: bv32) {
    var op := Opcode(w);
    && !(op == 0 && (w & 0x3f == 12 || w & 0x3f == 13)) && w != 0x4200_0018
    && (op == 0 && w & 0x3f == 8 ==> w & 0x001f_ffc0 == 0)
    && (op == 0 && w & 0x3f == 9 ==> w & 0x001f_07c0 == 0)
    && (op == 6 || op == 7 || op == 22 || op == 23 ==> RtField(w) == 0)
    && (16 <= op < 20 && RsField(w) == 8 ==> RtField(w) < 4)
  }

  /** `w` leaves a return address in a register: a call. */
  predicate Links(w: bv32) {
    || Opcode(w) == 3
    || (Opcode(w) == 0 && w & 0x3f == 9)
    || (Opcode(w) == 1 && 16 <= RtField(w) < 20)
  }

  // ------------------------------------------------------------ the stepper

  const NO_BPT: bv32 := 0xffff_ffff

  datatype Targets = Targets(trc: bv32, trcb: bv32)

  predicate IsBranch(k: Kind) {
    k != Other
  }

  predicate IsConditional(k: Kind) {
    k == RsRtOff || k == RsOff || k == CpOff
  }

  predicate IsJal(w: bv32) {
    var op := (w >> 26) & 0x3f;
    if op == 0 then w & 0x3f == 9
    else if op == 1 then (w >> 19) & 3 == 2
    else op == 3
  }

  function Extended(val: bv32): bv32 {
    if val & 0x8000 != 0 then val | 0xffff_0000 else val
  }

  function BranchTarget(k: Kind, w: bv32, pc: bv32, gpr: Regs): bv32 {
    match k
    case Off | RsRtOff | RsOff | CpOff =>
      Away(pc, Extended(w & 0xffff))
    case Target => ((pc + 4) & 0xf000_0000) | ((w & 0x03ff_ffff) << 2)
    case Jalr | Jr => gpr((w >> 21) & 0x1f)
    case Other => 0
  }

  /** Where the step breakpoints go for an instruction of kind `k`; `writeable` tells which
      addresses take a BREAK. */
  function Chosen(k: Kind, w: bv32, pc: bv32, gpr: Regs, stepover: bool, writeable: bv32 -> bool): Targets {
    if !IsBranch(k) then Targets(pc + 4, NO_BPT)
    else
      var t := BranchTarget(k, w, pc, gpr);
      var target := if t == pc then pc + 8 else t;
      var trc := if IsConditional(k) && target != pc + 8 then pc + 8 else NO_BPT;
      if IsJal(w) && stepover then Targets(pc + 8, NO_BPT)
      else if k == Jr && !writeable(target) then Targets(gpr(31), NO_BPT)
      else Targets(trc, target)
  }

  /** setTrcbp: the word is looked up in the instruction table. */
  function SetTrcbp(w: bv32, pc: bv32, gpr: Regs, stepover: bool, writeable: bv32 -> bool): Targets {
    Chosen(FirstMatch(Table(), w, Other), w, pc, gpr, stepover, writeable)
  }

  predicate Stops(t: Targets, a: bv32) {
    a != NO_BPT && (t.trc == a || t.trcb == a)
  }

  // ------------------------------------------------------------ coverage

  /** The decoder's classes are the architecture's. */
  lemma {:induction false} ClassesAgree(w: bv32)
    requires Completes(w)
    ensures Decoded(w) == Target <==> Opcode(w) == 2 || Opcode(w) == 3
    ensures Decoded(w) == Jr || Decoded(w) == Jalr <==> JumpsToRegister(w)
    ensures Decoded(w) == Off || IsConditional(Decoded(w)) <==> Relative(w)
  {
  }

  lemma {:induction false} AlwaysTaken(w: bv32, gpr: Regs, cond: bool)
    requires Decoded(w) == Off && gpr(0) == 0
    ensures Taken(w, gpr, cond)
  {
  }

  lemma {:induction false} SignExtended(v: bv32)
    requires v <= 0xffff
    ensures Extended(v) == Displacement(v)
  {
  }

  lemma {:induction false} LowHalf(w: bv32)
    ensures w & 0xffff <= 0xffff
  {
  }

  lemma {:induction false} SameOffset(w: bv32)
    ensures Extended(w & 0xffff) == Displacement(w & 0xffff)
  {
    LowHalf(w);
    SignExtended(w & 0xffff);
  }

  lemma {:induction false} SameRegion(w: bv32, pc: bv32)
    ensures ((pc + 4) & 0xf000_0000) | ((w & 0x03ff_ffff) << 2)
         == ((pc + 4) & 0xf000_0000) + ((w & 0x03ff_ffff) << 2)
  {
  }

  /** The table's answer for the target is where the architecture goes when it transfers. */
  lemma {:induction false} TargetIsRight(w: bv32, pc: bv32, gpr: Regs, cond: bool)
    requires Completes(w) && gpr(0) == 0 && Decoded(w) != Other
    ensures var next, t := PcAfter(w, pc, gpr, cond), BranchTarget(Decoded(w), w, pc, gpr);
      if IsConditional(Decoded(w)) && !Taken(w, gpr, cond) then next == pc + 8 else next == t
  {
    ClassesAgree(w);
    match Decoded(w)
    case Target => SameRegion(w, pc);
    case Jalr =>
    case Jr =>
    case Off =>
      AlwaysTaken(w, gpr, cond);
      SameOffset(w);
    case _ => SameOffset(w);
  }

  lemma {:induction false} Aligned(a: bv32)
    requires a & 3 == 0
    ensures a != NO_BPT && a + 4 != NO_BPT && a + 8 != NO_BPT && a + 4 != a && a + 8 != a
  {
  }

  /** The step stops where the program goes, in every state, unless the instruction goes back to
      its own address, or is a jr to memory that takes no BREAK while ra points elsewhere. */
  lemma {:induction false} StepStopsIff(w: bv32, pc: bv32, gpr: Regs, cond: bool, writeable: bv32 -> bool)
    requires Completes(w) && gpr(0) == 0 && pc & 3 == 0 && PcAfter(w, pc, gpr, cond) & 3 == 0
    ensures var next := PcAfter(w, pc, gpr, cond);
      Stops(SetTrcbp(w, pc, gpr, false, writeable), next) <==>
        if Decoded(w) == Jr && !writeable(if next == pc then pc + 8 else next) then gpr(31) == next
        else next != pc
  {
    TableIsRight(w);
    StepStopsByKind(w, pc, gpr, cond, writeable);
  }

  lemma {:induction false} StepStopsByKind(w: bv32, pc: bv32, gpr: Regs, cond: bool, writeable: bv32 -> bool)
    requires Completes(w) && gpr(0) == 0 && pc & 3 == 0 && PcAfter(w, pc, gpr, cond) & 3 == 0
    ensures var next := PcAfter(w, pc, gpr, cond);
      Stops(Chosen(Decoded(w), w, pc, gpr, false, writeable), next) <==>
        if Decoded(w) == Jr && !writeable(if next == pc then pc + 8 else next) then gpr(31) == next
        else next != pc
  {
    var next := PcAfter(w, pc, gpr, cond);
    Aligned(pc);
    Aligned(next);
    if Decoded(w) == Other {
      ClassesAgree(w);
    } else {
      TargetIsRight(w, pc, gpr, cond);
    }
  }

  /** The branch to itself, `b .`: the step breakpoint is planted after the delay slot, where the
      program never arrives. */
  lemma {:induction false} SelfBranchIsNotStopped(pc: bv32, gpr: Regs, cond: bool, writeable: bv32 -> bool)
    requires pc & 3 == 0 && gpr(0) == 0
    ensures PcAfter(0x1000_ffff, pc, gpr, cond) == pc
    ensures !Stops(SetTrcbp(0x1000_ffff, pc, gpr, false, writeable), pc)
  {
    assert Away(pc, Displacement(0xffff)) == pc;
    StepStopsIff(0x1000_ffff, pc, gpr, cond, writeable);
  }

  /** `jr t9` into memory that takes no BREAK: the stop is at ra instead, after the routine. */
  lemma {:induction false} JumpIntoRomIsNotStopped(pc: bv32, gpr: Regs, cond: bool, writeable: bv32 -> bool)
    requires pc & 3 == 0 && gpr(0) == 0
    requires gpr(25) & 3 == 0 && gpr(25) != pc && gpr(25) != gpr(31) && !writeable(gpr(25))
    ensures PcAfter(0x0320_0008, pc, gpr, cond) == gpr(25)
    ensures !Stops(SetTrcbp(0x0320_0008, pc, gpr, false, writeable), gpr(25))
  {
    StepStopsIff(0x0320_0008, pc, gpr, cond, writeable);
  }

  lemma {:induction false} CallsAgree(w: bv32)
    requires Completes(w)
    ensures Decoded(w) != Other && IsJal(w) <==> Links(w)
  {
  }

  lemma {:induction false} StepOverByKind(w: bv32, pc: bv32, gpr: Regs, writeable: bv32 -> bool)
    requires Completes(w)
    ensures Chosen(Decoded(w), w, pc, gpr, true, writeable) ==
      if Links(w) then Targets(pc + 8, NO_BPT) else Chosen(Decoded(w), w, pc, gpr, false, writeable)
  {
    CallsAgree(w);
  }

  /** Stepping over: a call stops at the return address it links and nowhere else; any other
      instruction is stepped as before. */
  lemma {:induction false} StepOverStops(w: bv32, pc: bv32, gpr: Regs, writeable: bv32 -> bool)
    requires Completes(w)
    ensures SetTrcbp(w, pc, gpr, true, writeable) ==
      if Links(w) then Targets(pc + 8, NO_BPT) else SetTrcbp(w, pc, gpr, false, writeable)
  {
    TableIsRight(w);
    StepOverByKind(w, pc, gpr, writeable);
  }
}
