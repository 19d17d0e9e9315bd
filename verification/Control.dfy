/** Running the client and getting it back: the trace-mode state machine of pmon/go.c, with
    the ways in and out of it from pmon/main.c, pmon/debug.c and pmon/mips.S.

    Where the monitor has control, the client's memory should read as the client left it.
    `image` follows what that is; `mem` is what is in memory. */
module Control {
  import opened Breakpoints

  /** The breakpoint table, the temporary breakpoint and the two single-step breakpoints. */
  datatype Table = Table(mem: seq<int>, bpt: seq<Bp>, tmp: Bp, trc: Bp, trcb: Bp)

  datatype Mode = TraceNone | TB | TG | GB | DG | DC | DS | TN | TW | DW

  datatype Place = Command | Debug | Running

  /** Where cliexit jumps back to: nowhere, into a go() called from the command loop, into one
      called by the stop command, or into dbgmode(). */
  datatype Return = NoReturn | ToGo | ToStop | ToDebug

  datatype State = State(t: Table, image: seq<int>, mode: Mode, place: Place, back: Return)

  datatype Poke = Poke(a: int, v: int)

  /** A command that starts the client: g, c, or one of the step commands. */
  datatype Cmd =
    | Go(tmp: int, epc: int, trc: int, trcb: int)
    | Cont(tmp: int, trc: int, trcb: int)
    | Step(multi: bool, trc: int, trcb: int)

  datatype Then = Stay | Resume(cmd: Cmd)

  /** What the commands run on stopping do: the breakpoint table they leave, the words they
      write, and whether they start the client again. Commands behind one that does are run
      when the client exits, and come with that event. */
  datatype StopCmd = StopCmd(bpt: seq<Bp>, pokes: seq<Poke>, next: Then)

  /** What exception() finds out when the client traps. `trc` and `trcb` are the step targets
      it would choose next, `halt` whether one of the other stop conditions of a multiple
      step holds, `last` whether the count runs out, and `cmd` the stop command. */
  datatype Trap = Trap(isBp: bool, hit: bool, inexact: bool, epc: int,
                       halt: bool, last: bool, trc: int, trcb: int, cmd: StopCmd)

  datatype Event =
    | Write(a: int, v: int)
    | Edit(bpt: seq<Bp>)
    | Start(cmd: Cmd)
    | EnterDebug
    | DebugGo
    | DebugStep(trc: int, trcb: int)
    | DebugExit
    | Exception(trap: Trap)
    | Exit
    | ExitToStop(rest: StopCmd)

  // ------------------------------------------------------------ the tables

  function Plain(t: Table): (es: seq<Bp>) {
    [t.tmp] + t.bpt
  }

  function Steps(t: Table): (es: seq<Bp>) {
    [t.trc, t.trcb]
  }

  /** A temporary or step breakpoint: of the planted kind, unset or at a real address. */
  predicate FitsOne(mem: seq<int>, e: Bp) {
    && (e.addr == NO_BPT || 0 <= e.addr < |mem|)
    && e.wpt == 0
  }

  predicate Fits(t: Table) {
    && InRange(t.mem, t.bpt)
    && FitsOne(t.mem, t.tmp) && FitsOne(t.mem, t.trc) && FitsOne(t.mem, t.trcb)
  }

  predicate IsBreakPoint(t: Table, a: int) {
    || SoftAt(t.bpt, a)
    || t.tmp.addr == a
  }

  predicate SoftAt(bpt: seq<Bp>, a: int) {
    exists i :: 0 <= i < |bpt| && bpt[i].addr == a && bpt[i].wpt == 0
  }

  predicate AnyAt(bpt: seq<Bp>, a: int) {
    exists i :: 0 <= i < |bpt| && bpt[i].addr == a
  }

  function WithTmp(t: Table, a: int): Table {
    t.(tmp := t.tmp.(addr := a))
  }

  function WithSteps(t: Table, a: int, b: int): Table {
    t.(trc := t.trc.(addr := a), trcb := t.trcb.(addr := b))
  }

  /** The temporary and step breakpoints that store_breakpoint still plants: each only where
      no earlier entry, planted or not, has its address. */
  function Deduped(t: Table): Table {
    var tmp := if AnyAt(t.bpt, t.tmp.addr) then NO_BPT else t.tmp.addr;
    var trc1 := if AnyAt(t.bpt, t.trc.addr) then NO_BPT else t.trc.addr;
    var trcb1 := if AnyAt(t.bpt, t.trcb.addr) then NO_BPT else t.trcb.addr;
    var trc := if trc1 == tmp then NO_BPT else trc1;
    var trcb := if trcb1 == tmp || trcb1 == trc then NO_BPT else trcb1;
    WithSteps(WithTmp(t, tmp), trc, trcb)
  }

  function StoreTrace(t: Table): (t': Table)
    requires Fits(t)
    ensures Fits(t') && |t'.mem| == |t.mem|
  {
    var es := PlantSaved(t.mem, Steps(t));
    t.(mem := PlantMem(t.mem, Steps(t)), trc := es[0], trcb := es[1])
  }

  function RemoveTrace(t: Table): (t': Table)
    requires Fits(t)
    ensures Fits(t') && |t'.mem| == |t.mem|
  {
    WithSteps(t.(mem := Lift(t.mem, Steps(t))), NO_BPT, NO_BPT)
  }

  function StorePlain(t: Table): (t': Table)
    requires Fits(t)
    ensures Fits(t') && |t'.mem| == |t.mem|
  {
    var mem := PlantMem(t.mem, t.bpt);
    t.(mem := PlantMem(mem, [t.tmp]), bpt := PlantSaved(t.mem, t.bpt), tmp := PlantSaved(mem, [t.tmp])[0])
  }

  function StoreBreakpoint(t: Table): (t': Table)
    requires Fits(t)
    ensures Fits(t') && |t'.mem| == |t.mem|
  {
    StoreTrace(StorePlain(Deduped(t)))
  }

  function RmBpts(t: Table): (t': Table)
    requires Fits(t)
    ensures Fits(t') && |t'.mem| == |t.mem|
  {
    RemoveTrace(WithTmp(t.(mem := Lift(t.mem, Plain(t))), NO_BPT))
  }

  function ClearAll(t: Table): Table {
    t.(bpt := seq(|t.bpt|, i requires 0 <= i < |t.bpt| => Bp(NO_BPT, t.bpt[i].value, 0, t.bpt[i].len)))
  }

  // ------------------------------------------------------------ the state machine

  /** Only the step breakpoints are planted in these modes. */
  predicate Stepping(mode: Mode) {
    mode.TB? || mode.TN? || mode.TG? || mode.DS?
  }

  function Launch(s: State, t: Table, mode: Mode): State {
    s.(t := t, mode := mode, place := Running)
  }

  function GoClient(s: State, cont: bool, epc: int, trc: int, trcb: int): State
    requires Fits(s.t) && Fits(WithSteps(s.t, trc, trcb))
  {
    if cont || IsBreakPoint(s.t, epc) then
      Launch(s, StoreTrace(WithSteps(s.t, trc, trcb)), TG)
    else
      Launch(s, StoreBreakpoint(s.t), GB)
  }

  /** Entering main(): the breakpoints are taken out once, before the command loop. */
  function ToMain(s: State): State
    requires Fits(s.t)
  {
    s.(t := RmBpts(s.t), place := Command)
  }

  /** Memory after the words are written in turn. */
  function Poked(mem: seq<int>, pokes: seq<Poke>): (mem': seq<int>)
    ensures |mem'| == |mem|
  {
    if pokes == [] then mem
    else
      var m, p := Poked(mem, pokes[..|pokes| - 1]), pokes[|pokes| - 1];
      if 0 <= p.a < |m| then m[p.a := p.v] else m
  }

  predicate Pokes(pokes: seq<Poke>, a: int) {
    exists i :: 0 <= i < |pokes| && pokes[i].a == a
  }

  predicate RealOrNone(n: nat, a: int) {
    a == NO_BPT || 0 <= a < n
  }

  /** The addresses of a command are real, in a memory of `n` words. */
  predicate CanStart(n: nat, c: Cmd) {
    RealOrNone(n, c.trc) && RealOrNone(n, c.trcb) && (!c.Step? ==> RealOrNone(n, c.tmp))
  }

  /** Starting the client by a command; `ret` is where its go() would return to. */
  function Started(s: State, c: Cmd, ret: Return): State
    requires Fits(s.t) && CanStart(|s.t.mem|, c)
  {
    match c
    case Go(tmp, epc, trc, trcb) =>
      GoClient(s.(t := WithSteps(WithTmp(s.t, tmp), NO_BPT, NO_BPT), back := ret), false, epc, trc, trcb)
    case Cont(tmp, trc, trcb) =>
      GoClient(s.(t := WithSteps(WithTmp(s.t, tmp), NO_BPT, NO_BPT)), true, 0, trc, trcb)
    case Step(multi, trc, trcb) =>
      Launch(s, StoreTrace(WithSteps(s.t, trc, trcb)), if multi then TN else TB)
  }

  /** The stop command can do this: its table is as long as the table was, and its addresses
      are real. */
  predicate Possible(t: Table, cmd: StopCmd) {
    && |cmd.bpt| == |t.bpt| && InRange(t.mem, cmd.bpt)
    && (cmd.next.Resume? ==> CanStart(|t.mem|, cmd.next.cmd))
  }

  function Obeyed(t: Table, cmd: StopCmd): Table {
    t.(mem := Poked(t.mem, cmd.pokes), bpt := cmd.bpt)
  }

  /** The state in stop() once the table and memory have been changed. */
  function Told(s: State, cmd: StopCmd): State {
    s.(t := Obeyed(s.t, cmd), image := Poked(s.image, cmd.pokes), back := NoReturn)
  }

  /** stop() from its commands on: unless they start the client, main() is entered afresh. */
  function Obey(s: State, cmd: StopCmd): State
    requires Fits(s.t) && Possible(s.t, cmd)
  {
    if cmd.next.Stay? then ToMain(Told(s, cmd)) else Started(Told(s, cmd), cmd.next.cmd, ToStop)
  }

  function Stop(s: State, cmd: StopCmd): State
    requires Fits(s.t) && Possible(s.t, cmd)
  {
    Obey(s.(mode := TraceNone), cmd)
  }

  function HandleTrap(s: State, trap: Trap): State
    requires Fits(s.t) && Fits(WithSteps(s.t, trap.trc, trap.trcb)) && Possible(s.t, trap.cmd)
  {
    if (s.mode.DC? || s.mode.GB?) && trap.inexact then
      Launch(s, StoreTrace(WithSteps(s.t, trap.trc, trap.trcb)), if s.mode.DC? then DW else TW)
    else if s.mode.DW? || s.mode.TW? then
      var s1 := s.(mode := if s.mode.DW? then DC else GB, t := RemoveTrace(s.t));
      if trap.isBp && !IsBreakPoint(s1.t, trap.epc) then s1 else Settle(s1, trap)
    else
      Settle(s, trap)
  }

  /** The rest of exception(), once inexact watchpoints are dealt with. */
  function Settle(s: State, trap: Trap): State
    requires Fits(s.t) && Fits(WithSteps(s.t, trap.trc, trap.trcb)) && Possible(s.t, trap.cmd)
  {
    if s.mode.DC? || s.mode.DS? then
      s.(t := RmBpts(s.t), place := Debug, back := ToDebug)
    else if (!trap.isBp && !trap.hit) || s.mode.TraceNone? then
      Stop(s, trap.cmd)
    else if s.mode.GB? then
      Stop(s.(t := RmBpts(s.t)), trap.cmd)
    else
      NextStep(s.(t := RemoveTrace(s.t)), trap)
  }

  function NextStep(s: State, trap: Trap): State
    requires Fits(s.t) && Fits(WithSteps(s.t, trap.trc, trap.trcb)) && Possible(s.t, trap.cmd)
  {
    if s.mode.TB? then
      Stop(s, trap.cmd)
    else if s.mode.TN? then
      if SoftAt(s.t.bpt, trap.epc) || trap.hit || trap.halt then
        Stop(s, trap.cmd)
      else
        Launch(s, StoreTrace(WithSteps(s.t, trap.trc, trap.trcb)), if trap.last then TB else TN)
    else
      Launch(s, StoreBreakpoint(s.t), if s.mode.DG? then DC else GB)
  }

  /** cliexit: back through the saved jump buffer if there is one, else into main(). A go() that
      the stop command called returns into stop(), which goes on with the commands behind it. */
  function ClientExit(s: State): State
    requires Fits(s.t) && !s.back.ToStop?
  {
    match s.back
    case NoReturn => ToMain(s)
    case ToGo => s.(place := Command, back := NoReturn)
    case ToDebug => s.(place := Debug, back := NoReturn)
  }

  function Planted(s: State): seq<Bp> {
    if Stepping(s.mode) then Steps(s.t) else Plain(s.t) + Steps(s.t)
  }

  /** The event can happen here: commands and requests where the monitor listens, traps and
      exits while the client runs, and writes that do not hit a planted BREAK. */
  predicate Enabled(s: State, e: Event) {
    && Fits(s.t) && |s.image| == |s.t.mem|
    && match e
       case Write(a, v) => 0 <= a < |s.image| && (s.place.Running? ==> !Covers(Planted(s), a))
       case Edit(bpt) => !s.place.Running? && |bpt| == |s.t.bpt| && InRange(s.t.mem, bpt)
       case Start(cmd) => s.place.Command? && CanStart(|s.t.mem|, cmd)
       case EnterDebug => s.place.Command?
       case DebugGo => s.place.Debug?
       case DebugStep(trc, trcb) => s.place.Debug? && Fits(WithSteps(s.t, trc, trcb))
       case DebugExit => s.place.Debug?
       case Exception(trap) =>
         && s.place.Running? && (trap.inexact ==> trap.hit) && Fits(WithSteps(s.t, trap.trc, trap.trcb))
         && Possible(s.t, trap.cmd)
       case Exit => s.place.Running? && !s.back.ToStop?
       case ExitToStop(rest) => s.place.Running? && s.back.ToStop? && Possible(s.t, rest)
  }

  function Next(s: State, e: Event): State
    requires Enabled(s, e)
  {
    match e
    case Write(a, v) => s.(t := s.t.(mem := s.t.mem[a := v]), image := s.image[a := v])
    case Edit(bpt) => s.(t := s.t.(bpt := bpt))
    case Start(cmd) => Started(s, cmd, ToGo)
    case EnterDebug => s.(t := ClearAll(s.t), place := Debug, back := ToDebug)
    case DebugGo => Launch(s, StoreBreakpoint(s.t), DC)
    case DebugStep(trc, trcb) => Launch(s, StoreTrace(WithSteps(s.t, trc, trcb)), DS)
    case DebugExit => ToMain(s.(t := ClearAll(s.t), mode := TraceNone, back := NoReturn))
    case Exception(trap) => HandleTrap(s, trap)
    case Exit => ClientExit(s)
    case ExitToStop(rest) => Obey(s, rest)
  }

  // ------------------------------------------------------------ what holds in every state

  /** The client has no BREAK of its own at an address the monitor's entries name. */
  predicate Tame(s: State) {
    NoneOwn(s.image, Plain(s.t) + Steps(s.t))
  }

  /** A stop command writes no BREAK where the temporary or a step breakpoint is. */
  predicate TameCmd(s: State, cmd: StopCmd) {
    NoneOwn(Poked(s.image, cmd.pokes), [s.t.tmp] + Steps(s.t))
  }

  /** The event leaves it so. */
  predicate TameStep(s: State, e: Event)
    requires Enabled(s, e)
  {
    && Tame(Next(s, e))
    && (e.Exception? ==> TameCmd(s, e.trap.cmd))
    && (e.ExitToStop? ==> TameCmd(s, e.rest))
  }

  /** At each address it covers, the first real word saved in `es` is the client's. */
  ghost predicate Remembers(image: seq<int>, es: seq<Bp>) {
    forall a :: 0 <= a < |image| && Covers(es, a) ==> Saved(es, a) == image[a]
  }

  /** The step breakpoints were planted over memory already patched at `base`. */
  ghost predicate Layered(image: seq<int>, base: seq<Bp>, es: seq<Bp>) {
    forall a :: 0 <= a < |image| && Covers(es, a) ==>
      Saved(es, a) == if Covers(base, a) then BPT_CODE else image[a]
  }

  ghost predicate StepsPlanted(s: State) {
    && Patched(s.t.mem, s.image, Steps(s.t))
    && Layered(s.image, [], Steps(s.t))
  }

  ghost predicate PlainPlanted(s: State) {
    && Patched(s.t.mem, s.image, Plain(s.t) + Steps(s.t))
    && Remembers(s.image, Plain(s.t))
    && Layered(s.image, Plain(s.t), Steps(s.t))
    && (Soft(s.t.tmp) ==> !Covers(s.t.bpt, s.t.tmp.addr))
  }

  predicate Unstepped(t: Table) {
    t.trc.addr == NO_BPT && t.trcb.addr == NO_BPT
  }

  ghost predicate Inv(s: State) {
    && Fits(s.t)
    && |s.image| == |s.t.mem|
    && Tame(s)
    && (!s.place.Running? ==> s.t.mem == s.image && Unstepped(s.t))
    && (s.place.Running? && Stepping(s.mode) ==> StepsPlanted(s))
    && (s.place.Running? && !Stepping(s.mode) ==> PlainPlanted(s))
    && (s.place.Running? ==> s.mode != TraceNone && s.mode != DG)
    && (s.place.Running? && (s.mode.GB? || s.mode.DC?) ==> Unstepped(s.t))
  }

  // ------------------------------------------------------------ planting and lifting keep track

  /** Planting the step breakpoints over memory patched at `base`. */
  lemma {:induction false} StoreTraceLayers(t: Table, image: seq<int>, base: seq<Bp>)
    requires Fits(t) && Patched(t.mem, image, base) && NoneOwn(image, Steps(t))
    ensures var t' := StoreTrace(t);
      Patched(t'.mem, image, base + Steps(t')) && Layered(image, base, Steps(t'))
  {
    var t' := StoreTrace(t);
    assert Steps(t') == PlantSaved(t.mem, Steps(t));
    forall a | 0 <= a < |image|
      ensures t'.mem[a] == if Covers(base + Steps(t'), a) then BPT_CODE else image[a]
      ensures Covers(Steps(t'), a) ==> Saved(Steps(t'), a) == if Covers(base, a) then BPT_CODE else image[a]
    {
      CoversAppend(base, Steps(t'), a);
      CoversSame(Steps(t), Steps(t'), a);
      PlantAt(t.mem, Steps(t), a);
      if t.mem[a] == BPT_CODE {
        BreakIsSaved(t.mem, Steps(t), a);
      } else {
        PlantSaves(t.mem, Steps(t), a);
      }
      if Covers(Steps(t), a) {
        NoneOwnAt(image, Steps(t), a);
      }
    }
  }

  /** Lifting the step breakpoints undoes planting them. */
  lemma {:induction false} RemoveTraceUnlayers(t: Table, image: seq<int>, base: seq<Bp>)
    requires Fits(t) && Patched(t.mem, image, base + Steps(t)) && Layered(image, base, Steps(t))
    requires NoneOwn(image, Steps(t))
    ensures Patched(RemoveTrace(t).mem, image, base)
  {
    forall a | 0 <= a < |image|
      ensures RemoveTrace(t).mem[a] == if Covers(base, a) then BPT_CODE else image[a]
    {
      CoversAppend(base, Steps(t), a);
      LiftAt(t.mem, Steps(t), a);
      if Covers(Steps(t), a) {
        NoneOwnAt(image, Steps(t), a);
      } else {
        NotSavedUnlessCovered(Steps(t), a);
      }
    }
  }

  /** Planting the table and the temporary breakpoint over clean memory. */
  lemma {:induction false} StorePlainRemembers(t: Table)
    requires Fits(t) && NoneOwn(t.mem, Plain(t))
    requires Soft(t.tmp) ==> !Covers(t.bpt, t.tmp.addr)
    ensures var t' := StorePlain(t);
      Patched(t'.mem, t.mem, Plain(t')) && Remembers(t.mem, Plain(t'))
  {
    var t' := StorePlain(t);
    NoneOwnAppend(t.mem, [t.tmp], t.bpt);
    forall a | 0 <= a < |t.mem|
      ensures t'.mem[a] == if Covers(Plain(t'), a) then BPT_CODE else t.mem[a]
      ensures Covers(Plain(t'), a) ==> Saved(Plain(t'), a) == t.mem[a]
    {
      StorePlainAt(t, a);
    }
  }

  lemma {:induction false} StorePlainAt(t: Table, a: int)
    requires Fits(t) && 0 <= a < |t.mem| && NoneOwn(t.mem, [t.tmp]) && NoneOwn(t.mem, t.bpt)
    requires Soft(t.tmp) ==> !Covers(t.bpt, t.tmp.addr)
    ensures var t' := StorePlain(t);
      && t'.mem[a] == (if Covers(Plain(t'), a) then BPT_CODE else t.mem[a])
      && (Covers(Plain(t'), a) ==> Saved(Plain(t'), a) == t.mem[a])
  {
    var t' := StorePlain(t);
    var mid := PlantMem(t.mem, t.bpt);
    CoversAppend([t'.tmp], t'.bpt, a);
    CoversSame(t'.bpt, t.bpt, a);
    CoversSame([t'.tmp], [t.tmp], a);
    SavedAppend([t'.tmp], t'.bpt, a);
    PlantAt(t.mem, t.bpt, a);
    PlantAt(mid, [t.tmp], a);
    assert [t'.tmp] == PlantSaved(mid, [t.tmp]);
    if Covers([t.tmp], a) {
      NoneOwnAt(t.mem, [t.tmp], a);
      PlantSaves(mid, [t.tmp], a);
    } else {
      NotSavedUnlessCovered([t'.tmp], a);
      if Covers(t.bpt, a) {
        NoneOwnAt(t.mem, t.bpt, a);
        PlantSaves(t.mem, t.bpt, a);
      }
    }
  }

  /** Taking everything out lifts the temporary breakpoint, the table, then the steps. */
  lemma {:induction false} RmBptsLifts(t: Table)
    requires Fits(t)
    ensures InRange(t.mem, Plain(t) + Steps(t))
    ensures RmBpts(t).mem == Lift(t.mem, Plain(t) + Steps(t))
  {
    LiftAppend(t.mem, Plain(t), Steps(t));
  }

  // ------------------------------------------------------------ taking everything out

  /** At a planted step target, an entry that is not planted itself holds an outdated word. */
  ghost predicate Stale(t: Table, image: seq<int>) {
    exists a :: 0 <= a < |image| && Covers(Steps(t), a)
             && Saved(Plain(t), a) != BPT_CODE && Saved(Plain(t), a) != image[a]
  }

  lemma {:induction false} RmWhenClean(t: Table)
    requires Fits(t) && NoneOwn(t.mem, Plain(t) + Steps(t))
    ensures RmBpts(t).mem == t.mem
  {
    RmBptsLifts(t);
    LiftRestoresIff(t.mem, t.mem, [], Plain(t) + Steps(t));
  }

  lemma {:induction false} RmWhileStepping(t: Table, image: seq<int>)
    requires Fits(t) && NoneOwn(image, Plain(t) + Steps(t))
    requires Patched(t.mem, image, Steps(t)) && Layered(image, [], Steps(t))
    ensures RmBpts(t).mem == image <==> !Stale(t, image)
  {
    RmBptsLifts(t);
    LiftRestoresIff(t.mem, image, Steps(t), Plain(t) + Steps(t));
    forall a | 0 <= a < |image| && Covers(Steps(t), a)
      ensures Saved(Plain(t) + Steps(t), a) == image[a]
         <==> Saved(Plain(t), a) == BPT_CODE || Saved(Plain(t), a) == image[a]
    {
      SavedAppend(Plain(t), Steps(t), a);
    }
  }

  lemma {:induction false} RmWhilePlain(t: Table, image: seq<int>)
    requires Fits(t) && NoneOwn(image, Plain(t) + Steps(t))
    requires Patched(t.mem, image, Plain(t) + Steps(t))
    requires Remembers(image, Plain(t)) && Layered(image, Plain(t), Steps(t))
    ensures RmBpts(t).mem == image
  {
    RmBptsLifts(t);
    var all := Plain(t) + Steps(t);
    forall a | 0 <= a < |image| && Covers(all, a)
      ensures Saved(all, a) == image[a]
    {
      SavedAppend(Plain(t), Steps(t), a);
      CoversAppend(Plain(t), Steps(t), a);
      NoneOwnAt(image, all, a);
      if !Covers(Plain(t), a) {
        NotSavedUnlessCovered(Plain(t), a);
      }
    }
    LiftRestoresIff(t.mem, image, all, all);
  }

  lemma {:induction false} PokedAt(mem: seq<int>, image: seq<int>, pokes: seq<Poke>, a: int)
    requires 0 <= a < |mem| == |image|
    ensures if Pokes(pokes, a) then Poked(mem, pokes)[a] == Poked(image, pokes)[a]
            else Poked(mem, pokes)[a] == mem[a] && Poked(image, pokes)[a] == image[a]
  {
    if pokes != [] {
      var front, p := pokes[..|pokes| - 1], pokes[|pokes| - 1];
      PokedAt(mem, image, front, a);
      assert Pokes(pokes, a) <==> Pokes(front, a) || p.a == a by {
        PokesLast(front, p, a);
        assert pokes == front + [p];
      }
    }
  }

  lemma {:induction false} PokesLast(front: seq<Poke>, p: Poke, a: int)
    ensures Pokes(front + [p], a) <==> Pokes(front, a) || p.a == a
  {
    var all := front + [p];
    if Pokes(front, a) {
      var i :| 0 <= i < |front| && front[i].a == a;
      assert all[i].a == a;
    }
    assert all[|front|] == p;
  }

  /** What taking everything out leaves at `a` after the stop command. */
  lemma {:induction false} CommandThenLift(mem: seq<int>, image: seq<int>, es: seq<Bp>, cmd: StopCmd, back: seq<Bp>,
                                           a: int)
    requires Patched(mem, image, es) && NoneOwn(Poked(image, cmd.pokes), back) && 0 <= a < |image|
    ensures Lift(Poked(mem, cmd.pokes), back)[a] == Poked(image, cmd.pokes)[a]
       <==> (Covers(es, a) && !Pokes(cmd.pokes, a) ==> Saved(back, a) == image[a])
  {
    PokedAt(mem, image, cmd.pokes, a);
    LiftAt(Poked(mem, cmd.pokes), back, a);
    if Poked(image, cmd.pokes)[a] == BPT_CODE {
      NotCoveredByOwn(Poked(image, cmd.pokes), back, a);
      NotSavedUnlessCovered(back, a);
    }
  }

  /** Taking everything out of memory patched at `es`, after the stop command has run. */
  lemma {:induction false} RmAfterCommand(t: Table, image: seq<int>, es: seq<Bp>, cmd: StopCmd)
    requires Fits(Obeyed(t, cmd)) && Patched(t.mem, image, es) && cmd.next.Stay?
    requires var u := Obeyed(t, cmd); NoneOwn(Poked(image, cmd.pokes), Plain(u) + Steps(u))
    ensures var u := Obeyed(t, cmd);
      RmBpts(u).mem == Poked(image, cmd.pokes) <==> !Spoils(image, cmd, es, Plain(u) + Steps(u))
  {
    var u := Obeyed(t, cmd);
    var all := Plain(u) + Steps(u);
    RmBptsLifts(u);
    forall a | 0 <= a < |image|
      ensures RmBpts(u).mem[a] == Poked(image, cmd.pokes)[a]
         <==> (Covers(es, a) && !Pokes(cmd.pokes, a) ==> Saved(all, a) == image[a])
    {
      CommandThenLift(t.mem, image, es, cmd, all, a);
    }
    if !Spoils(image, cmd, es, all) {
      assert forall a :: 0 <= a < |image| ==> RmBpts(u).mem[a] == Poked(image, cmd.pokes)[a];
    }
  }

  // ------------------------------------------------------------ when the monitor gets control back

  /** This event gives the monitor control with the client's memory not as the client left it:
      a client that exits through a saved jump buffer with anything planted; a debugger step
      over a stale entry; a trap that is neither a BREAK nor a watchpoint, when the stop
      command leaves a table that has the wrong word for a planted address, or starts the
      client over what is planted; a client that was started by the stop command and exits, when
      the commands behind do so; and, with no jump buffer saved, an exit while a stale entry is
      at a step target. */
  ghost predicate Leaks(s: State, e: Event) {
    match e
    case Exit =>
      if s.back.NoReturn? then Stepping(s.mode) && Stale(s.t, s.image)
      else exists a :: Covers(Planted(s), a)
    case ExitToStop(rest) => Spoils(s.image, rest, Planted(s), Everything(Obeyed(s.t, rest)))
    case Exception(trap) => TrapLeaks(s, trap)
    case _ => false
  }

  function Everything(t: Table): seq<Bp> {
    Plain(t) + Steps(t)
  }

  /** At an address planted in `es` that the command does not write, the client is started
      over the BREAK, or the first real word saved in `back` is not the client's. */
  ghost predicate Spoils(image: seq<int>, cmd: StopCmd, es: seq<Bp>, back: seq<Bp>) {
    exists a :: 0 <= a < |image| && Covers(es, a) && !Pokes(cmd.pokes, a)
             && (cmd.next.Resume? || Saved(back, a) != image[a])
  }

  ghost predicate TrapLeaks(s: State, trap: Trap) {
    if s.mode.DS? then Stale(s.t, s.image)
    else
      && !trap.isBp && !trap.hit
      && var t := Obeyed(s.t, trap.cmd);
         if Stepping(s.mode) then Spoils(s.image, trap.cmd, Steps(t), Plain(t) + Steps(t))
         else (s.mode.GB? || s.mode.TW?) && Spoils(s.image, trap.cmd, Plain(s.t), Plain(t))
  }

  /** The step keeps the invariant while the client runs, and gives memory back, exactly when
      it does not leak. */
  ghost predicate Sound(s': State, leaks: bool) {
    && (s'.place.Running? ==> (Inv(s') <==> !leaks))
    && (!s'.place.Running? ==> (s'.t.mem == s'.image <==> !leaks))
    && (!leaks ==> Inv(s'))
  }

  lemma {:induction false} TameParts(s: State)
    ensures Tame(s) <==> NoneOwn(s.image, [s.t.tmp]) && NoneOwn(s.image, s.t.bpt) && NoneOwn(s.image, Steps(s.t))
  {
    NoneOwnAppend(s.image, Plain(s.t), Steps(s.t));
    NoneOwnAppend(s.image, [s.t.tmp], s.t.bpt);
  }

  lemma {:induction false} TameSame(s: State, s': State)
    requires Tame(s) && s'.image == s.image && s'.t.bpt == s.t.bpt
    requires s'.t.tmp.addr == NO_BPT || s'.t.tmp == s.t.tmp
    requires Unstepped(s'.t)
    ensures Tame(s')
  {
    TameParts(s);
    TameParts(s');
  }

  lemma {:induction false} EnteringMain(s: State)
    requires Fits(s.t) && |s.image| == |s.t.mem| && Tame(s)
    ensures Sound(ToMain(s), RmBpts(s.t).mem != s.image)
  {
    TameSame(s, ToMain(s));
  }

  lemma {:induction false} ClearingKeepsTame(s: State)
    requires Fits(s.t) && Tame(s)
    ensures var s' := s.(t := ClearAll(s.t)); Fits(s'.t) && Tame(s')
  {
    TameParts(s);
    TameParts(s.(t := ClearAll(s.t)));
  }

  lemma {:induction false} ToldIsTame(s: State, cmd: StopCmd)
    requires Fits(s.t) && Possible(s.t, cmd) && TameCmd(s, cmd) && cmd.next.Stay? && Tame(Obey(s, cmd))
    ensures Fits(Told(s, cmd).t) && Tame(Told(s, cmd))
  {
    TameParts(Obey(s, cmd));
    TameParts(Told(s, cmd));
    NoneOwnAppend(Poked(s.image, cmd.pokes), [s.t.tmp], Steps(s.t));
  }

  /** Running the stop command, or what is left of it, with memory patched at `es`. */
  lemma {:induction false} ObeyingAny(s: State, es: seq<Bp>, cmd: StopCmd)
    requires Fits(s.t) && Possible(s.t, cmd) && TameCmd(s, cmd) && Tame(Obey(s, cmd))
    requires Patched(s.t.mem, s.image, es) && NoneOwn(s.image, es)
    ensures var t := Obeyed(s.t, cmd);
      Sound(Obey(s, cmd), Spoils(s.image, cmd, es, Plain(t) + Steps(t)))
  {
    if cmd.next.Stay? {
      ToldIsTame(s, cmd);
      RmAfterCommand(s.t, s.image, es, cmd);
      EnteringMain(Told(s, cmd));
    } else if a :| 0 <= a < |s.image| && Covers(es, a) && !Pokes(cmd.pokes, a) {
      PokedAt(s.t.mem, s.image, cmd.pokes, a);
      NoneOwnAt(s.image, es, a);
      StartedOverBreak(Told(s, cmd), cmd.next.cmd, ToStop, a);
    } else {
      CleanAfterPokes(s.t.mem, s.image, es, cmd.pokes);
      StartingIsSound(Told(s, cmd), cmd.next.cmd, ToStop);
    }
  }

  /** Stopping with memory patched at `es`. */
  lemma {:induction false} StoppingAny(s: State, es: seq<Bp>, cmd: StopCmd)
    requires Fits(s.t) && Possible(s.t, cmd) && TameCmd(s, cmd) && Tame(Stop(s, cmd))
    requires Patched(s.t.mem, s.image, es) && NoneOwn(s.image, es)
    ensures var t := Obeyed(s.t, cmd);
      Sound(Stop(s, cmd), Spoils(s.image, cmd, es, Plain(t) + Steps(t)))
  {
    ObeyingAny(s.(mode := TraceNone), es, cmd);
  }

  lemma {:induction false} CleanAfterPokes(mem: seq<int>, image: seq<int>, es: seq<Bp>, pokes: seq<Poke>)
    requires Patched(mem, image, es)
    requires forall a :: 0 <= a < |image| && Covers(es, a) ==> Pokes(pokes, a)
    ensures Poked(mem, pokes) == Poked(image, pokes)
  {
    forall a | 0 <= a < |image|
      ensures Poked(mem, pokes)[a] == Poked(image, pokes)[a]
    {
      PokedAt(mem, image, pokes, a);
    }
  }

  // ------------------------------------------------------------ starting over a BREAK

  /** Memory has a BREAK at `a`, and no entry has any other word for it. */
  predicate Lost(t: Table, a: int) {
    && 0 <= a < |t.mem| && t.mem[a] == BPT_CODE
    && Saved([t.tmp], a) == BPT_CODE && Saved(t.bpt, a) == BPT_CODE && Saved(Steps(t), a) == BPT_CODE
  }

  lemma {:induction false} StoreTraceOver(t: Table, a: int)
    requires Fits(t) && 0 <= a < |t.mem| && t.mem[a] == BPT_CODE
    ensures StoreTrace(t).mem[a] == BPT_CODE && Saved(Steps(StoreTrace(t)), a) == BPT_CODE
  {
    PlantAt(t.mem, Steps(t), a);
    BreakIsSaved(t.mem, Steps(t), a);
    assert Steps(StoreTrace(t)) == PlantSaved(t.mem, Steps(t));
  }

  /** Planting everything over a BREAK saves it as if it were the client's word. */
  lemma {:induction false} StoreOverLoses(t: Table, a: int)
    requires Fits(t) && 0 <= a < |t.mem| && t.mem[a] == BPT_CODE
    ensures Lost(StoreBreakpoint(t), a)
  {
    var u := Deduped(t);
    var v := StorePlain(u);
    var mid := PlantMem(u.mem, u.bpt);
    PlantAt(u.mem, u.bpt, a);
    BreakIsSaved(u.mem, u.bpt, a);
    PlantAt(mid, [u.tmp], a);
    BreakIsSaved(mid, [u.tmp], a);
    assert [v.tmp] == PlantSaved(mid, [u.tmp]);
    StoreTraceOver(v, a);
  }

  /** A client started over a BREAK runs with a word of its own lost or not accounted for. */
  lemma {:induction false} StartedOverBreak(s: State, c: Cmd, ret: Return, a: int)
    requires Fits(s.t) && CanStart(|s.t.mem|, c)
    requires 0 <= a < |s.t.mem| == |s.image| && s.t.mem[a] == BPT_CODE != s.image[a]
    ensures Started(s, c, ret).place.Running? && !Inv(Started(s, c, ret))
  {
    var s' := Started(s, c, ret);
    if Stepping(s'.mode) {
      var t := if c.Step? then s.t else WithTmp(s.t, c.tmp);
      StoreTraceOver(WithSteps(t, c.trc, c.trcb), a);
    } else {
      var t := WithSteps(WithTmp(s.t, c.tmp), NO_BPT, NO_BPT);
      StoreOverLoses(t, a);
      StoreWithoutSteps(t);
      CoversAppend(Plain(s'.t), Steps(s'.t), a);
      UnsteppedCoversNothing(s'.t, a);
      SavedAppend([s'.t.tmp], s'.t.bpt, a);
    }
  }

  lemma {:induction false} StoppingClean(s: State, cmd: StopCmd)
    requires Fits(s.t) && Possible(s.t, cmd) && TameCmd(s, cmd) && Tame(Stop(s, cmd))
    requires s.t.mem == s.image
    ensures Sound(Stop(s, cmd), false)
  {
    StoppingAny(s, [], cmd);
  }

  lemma {:induction false} LaunchingStep(s: State, trc: int, trcb: int, mode: Mode)
    requires Fits(s.t) && s.t.mem == s.image && Fits(WithSteps(s.t, trc, trcb)) && Stepping(mode)
    requires Tame(Launch(s, StoreTrace(WithSteps(s.t, trc, trcb)), mode))
    ensures Sound(Launch(s, StoreTrace(WithSteps(s.t, trc, trcb)), mode), false)
  {
    var t := WithSteps(s.t, trc, trcb);
    var s' := Launch(s, StoreTrace(t), mode);
    TameParts(s');
    NoneOwnSame(s.image, Steps(s'.t), Steps(t));
    StoreTraceLayers(t, s.image, []);
    assert [] + Steps(s'.t) == Steps(s'.t);
  }

  lemma {:induction false} UnsteppedCoversNothing(t: Table, a: int)
    requires Unstepped(t)
    ensures !Covers(Steps(t), a)
  {
  }

  /** Without step breakpoints, planting everything is planting the table and the temporary
      breakpoint. */
  lemma {:induction false} StoreWithoutSteps(t: Table)
    requires Fits(t) && Unstepped(t)
    ensures StoreBreakpoint(t) == StorePlain(Deduped(t)) && Unstepped(StoreBreakpoint(t))
  {
    var u := StorePlain(Deduped(t));
    PlantingNothing(u.mem, Steps(u));
  }

  lemma {:induction false} DedupedApart(t: Table)
    ensures var u := Deduped(t); Soft(u.tmp) ==> !Covers(u.bpt, u.tmp.addr)
  {
  }

  lemma {:induction false} LaunchingPlain(s: State, mode: Mode)
    requires Fits(s.t) && s.t.mem == s.image && Unstepped(s.t) && (mode.GB? || mode.DC?)
    requires Tame(Launch(s, StoreBreakpoint(s.t), mode))
    ensures Sound(Launch(s, StoreBreakpoint(s.t), mode), false)
  {
    var s' := Launch(s, StoreBreakpoint(s.t), mode);
    var u := Deduped(s.t);
    TameParts(s');
    StoreWithoutSteps(s.t);
    DedupedApart(s.t);
    NoneOwnAppend(u.mem, [u.tmp], u.bpt);
    StorePlainRemembers(u);
    forall a
      ensures !Covers(Steps(s'.t), a)
      ensures Covers(Plain(s'.t) + Steps(s'.t), a) <==> Covers(Plain(s'.t), a)
    {
      UnsteppedCoversNothing(s'.t, a);
      CoversAppend(Plain(s'.t), Steps(s'.t), a);
    }
    if Soft(s'.t.tmp) {
      CoversSame(s'.t.bpt, u.bpt, s'.t.tmp.addr);
    }
  }

  // ------------------------------------------------------------ every step

  lemma {:induction false} WriteIsSound(s: State, a: int, v: int)
    requires Inv(s) && Enabled(s, Write(a, v)) && Tame(Next(s, Write(a, v)))
    ensures Sound(Next(s, Write(a, v)), false)
  {
    if s.place.Running? && !Stepping(s.mode) {
      CoversAppend(Plain(s.t), Steps(s.t), a);
    }
  }

  lemma {:induction false} RemovedSteps(s: State)
    requires Inv(s) && s.place.Running? && Stepping(s.mode)
    ensures var s' := s.(t := RemoveTrace(s.t));
      s'.t.mem == s.image && Unstepped(s'.t) && Tame(s')
  {
    var s' := s.(t := RemoveTrace(s.t));
    TameParts(s);
    TameSame(s, s');
    assert [] + Steps(s.t) == Steps(s.t);
    RemoveTraceUnlayers(s.t, s.image, []);
  }

  lemma {:induction false} NextStepIsSound(s: State, trap: Trap)
    requires Fits(s.t) && s.t.mem == s.image && Unstepped(s.t) && Tame(s) && Stepping(s.mode)
    requires Fits(WithSteps(s.t, trap.trc, trap.trcb)) && Possible(s.t, trap.cmd)
    requires Tame(NextStep(s, trap)) && TameCmd(s, trap.cmd)
    ensures Sound(NextStep(s, trap), false)
  {
    if s.mode.TB? || (s.mode.TN? && (SoftAt(s.t.bpt, trap.epc) || trap.hit || trap.halt)) {
      StoppingClean(s, trap.cmd);
    } else if s.mode.TN? {
      LaunchingStep(s, trap.trc, trap.trcb, if trap.last then TB else TN);
    } else {
      LaunchingPlain(s, GB);
    }
  }

  /** Without step breakpoints only the table and the temporary breakpoint put words back. */
  lemma {:induction false} SpoilsPlain(image: seq<int>, cmd: StopCmd, es: seq<Bp>, t: Table)
    requires Unstepped(t)
    ensures Spoils(image, cmd, es, Plain(t) + Steps(t)) <==> Spoils(image, cmd, es, Plain(t))
  {
    forall a
      ensures Saved(Plain(t) + Steps(t), a) == Saved(Plain(t), a)
    {
      SavedAppend(Plain(t), Steps(t), a);
      UnsteppedCoversNothing(t, a);
      NotSavedUnlessCovered(Steps(t), a);
    }
  }

  /** A trap that is neither a BREAK nor a watchpoint stops with everything still planted. */
  lemma {:induction false} StoppingPatched(s: State, trap: Trap)
    requires Inv(s) && s.place.Running? && !s.mode.DW? && !s.mode.DC? && !s.mode.DS? && !s.mode.TW?
    requires !trap.isBp && !trap.hit && Possible(s.t, trap.cmd)
    requires TameCmd(s, trap.cmd) && Tame(Stop(s, trap.cmd))
    ensures Sound(Stop(s, trap.cmd), TrapLeaks(s, trap))
  {
    TameParts(s);
    NoneOwnAppend(s.image, [s.t.tmp], s.t.bpt);
    if Stepping(s.mode) {
      StoppingAny(s, Steps(s.t), trap.cmd);
    } else {
      UnsteppedPatched(s.t, s.image);
      StoppingAny(s, Plain(s.t), trap.cmd);
      SpoilsPlain(s.image, trap.cmd, Plain(s.t), Obeyed(s.t, trap.cmd));
    }
  }

  lemma {:induction false} UnsteppedPatched(t: Table, image: seq<int>)
    requires Unstepped(t)
    ensures Patched(t.mem, image, Plain(t) + Steps(t)) <==> Patched(t.mem, image, Plain(t))
  {
    forall a
      ensures Covers(Plain(t) + Steps(t), a) <==> Covers(Plain(t), a)
    {
      UnsteppedCoversNothing(t, a);
      CoversAppend(Plain(t), Steps(t), a);
    }
  }

  /** Taking breakpoints out first leaves the stop command as tame as before. */
  lemma {:induction false} TameCmdSame(s: State, s': State, cmd: StopCmd)
    requires TameCmd(s, cmd) && s'.image == s.image && Unstepped(s'.t)
    requires s'.t.tmp.addr == NO_BPT || s'.t.tmp == s.t.tmp
    ensures TameCmd(s', cmd)
  {
    var image := Poked(s.image, cmd.pokes);
    NoneOwnAppend(image, [s.t.tmp], Steps(s.t));
    NoneOwnAppend(image, [s'.t.tmp], Steps(s'.t));
  }

  lemma {:induction false} SettlingIsSound(s: State, trap: Trap)
    requires Inv(s) && s.place.Running? && !s.mode.DW? && !s.mode.TW?
    requires Fits(WithSteps(s.t, trap.trc, trap.trcb)) && Possible(s.t, trap.cmd)
    requires Tame(Settle(s, trap)) && TameCmd(s, trap.cmd)
    ensures Sound(Settle(s, trap), TrapLeaks(s, trap))
  {
    if s.mode.DC? {
      RmWhilePlain(s.t, s.image);
    } else if s.mode.DS? {
      RmWhileStepping(s.t, s.image);
    } else if !trap.isBp && !trap.hit {
      StoppingPatched(s, trap);
    } else if s.mode.GB? {
      RmWhilePlain(s.t, s.image);
      var s1 := s.(t := RmBpts(s.t));
      TameCmdSame(s, s1, trap.cmd);
      StoppingClean(s1, trap.cmd);
    } else {
      var s1 := s.(t := RemoveTrace(s.t));
      RemovedSteps(s);
      TameCmdSame(s, s1, trap.cmd);
      NextStepIsSound(s1, trap);
    }
  }

  lemma {:induction false} InexactIsSound(s: State, trap: Trap)
    requires Inv(s) && s.place.Running? && (s.mode.DC? || s.mode.GB?) && trap.inexact && trap.hit
    requires Fits(WithSteps(s.t, trap.trc, trap.trcb)) && Possible(s.t, trap.cmd) && Tame(HandleTrap(s, trap))
    ensures Sound(HandleTrap(s, trap), TrapLeaks(s, trap))
  {
    var t := WithSteps(s.t, trap.trc, trap.trcb);
    var s' := HandleTrap(s, trap);
    TameParts(s');
    NoneOwnSame(s.image, Steps(s'.t), Steps(t));
    forall a
      ensures Covers(Plain(s.t) + Steps(s.t), a) <==> Covers(Plain(s.t), a)
    {
      UnsteppedCoversNothing(s.t, a);
      CoversAppend(Plain(s.t), Steps(s.t), a);
    }
    StoreTraceLayers(t, s.image, Plain(s.t));
  }

  /** Stepping over an inexact watchpoint ends with the table planted as before. */
  lemma {:induction false} SteppedOver(s: State)
    requires Inv(s) && s.place.Running? && (s.mode.DW? || s.mode.TW?)
    ensures Inv(s.(mode := if s.mode.DW? then DC else GB, t := RemoveTrace(s.t)))
  {
    var s' := s.(mode := if s.mode.DW? then DC else GB, t := RemoveTrace(s.t));
    TameParts(s);
    TameSame(s, s');
    RemoveTraceUnlayers(s.t, s.image, Plain(s.t));
    forall a
      ensures !Covers(Steps(s'.t), a)
      ensures Covers(Plain(s'.t) + Steps(s'.t), a) <==> Covers(Plain(s'.t), a)
    {
      UnsteppedCoversNothing(s'.t, a);
      CoversAppend(Plain(s'.t), Steps(s'.t), a);
    }
  }

  lemma {:induction false} SteppingOverIsSound(s: State, trap: Trap)
    requires Inv(s) && s.place.Running? && (s.mode.DW? || s.mode.TW?)
    requires Fits(WithSteps(s.t, trap.trc, trap.trcb)) && Possible(s.t, trap.cmd)
    requires Tame(HandleTrap(s, trap)) && TameCmd(s, trap.cmd)
    ensures Sound(HandleTrap(s, trap), TrapLeaks(s, trap))
  {
    var s1 := s.(mode := if s.mode.DW? then DC else GB, t := RemoveTrace(s.t));
    SteppedOver(s);
    if !(trap.isBp && !IsBreakPoint(s1.t, trap.epc)) {
      TameCmdSame(s, s1, trap.cmd);
      SettlingIsSound(s1, trap);
    }
  }

  lemma {:induction false} TrapIsSound(s: State, trap: Trap)
    requires Inv(s) && Enabled(s, Exception(trap)) && TameStep(s, Exception(trap))
    ensures Sound(HandleTrap(s, trap), TrapLeaks(s, trap))
  {
    if (s.mode.DC? || s.mode.GB?) && trap.inexact {
      InexactIsSound(s, trap);
    } else if s.mode.DW? || s.mode.TW? {
      SteppingOverIsSound(s, trap);
    } else {
      SettlingIsSound(s, trap);
    }
  }

  /** Nothing that is planted is taken out on the way through a saved jump buffer. */
  lemma {:induction false} PatchedIsDirty(mem: seq<int>, image: seq<int>, es: seq<Bp>)
    requires Patched(mem, image, es) && NoneOwn(image, es)
    ensures mem == image <==> forall a :: !Covers(es, a)
  {
    if a :| Covers(es, a) {
      NoneOwnAt(image, es, a);
    }
  }

  lemma {:induction false} ExitIsSound(s: State)
    requires Inv(s) && s.place.Running? && !s.back.ToStop?
    ensures Sound(ClientExit(s), Leaks(s, Exit))
  {
    TameParts(s);
    if s.back.NoReturn? {
      EnteringMain(s);
      if Stepping(s.mode) {
        RmWhileStepping(s.t, s.image);
      } else {
        RmWhilePlain(s.t, s.image);
      }
    } else {
      PatchedIsDirty(s.t.mem, s.image, Planted(s));
      if forall a :: !Covers(Planted(s), a) {
        StepsAreSoft(s);
      }
    }
  }

  /** An exit into stop() goes on with the commands behind the one that started the client. */
  lemma {:induction false} ExitToStopIsSound(s: State, rest: StopCmd)
    requires Inv(s) && Enabled(s, ExitToStop(rest)) && TameStep(s, ExitToStop(rest))
    ensures Sound(Obey(s, rest), Leaks(s, ExitToStop(rest)))
  {
    TameParts(s);
    ObeyingAny(s, Planted(s), rest);
  }

  /** With no command behind it, an exit into stop() gives memory back as one into main() does:
      exactly unless a stale entry is at a step target. */
  lemma {:induction false} NothingBehind(s: State)
    requires Inv(s) && s.place.Running? && s.back.ToStop?
    ensures var e := ExitToStop(StopCmd(s.t.bpt, [], Stay));
      Enabled(s, e) && TameStep(s, e) && (Leaks(s, e) <==> Stepping(s.mode) && Stale(s.t, s.image))
  {
    var rest := StopCmd(s.t.bpt, [], Stay);
    assert Obeyed(s.t, rest) == s.t;
    TameParts(s);
    NoneOwnAppend(s.image, [s.t.tmp], Steps(s.t));
    TameSame(s, Obey(s, rest));
    RmAfterCommand(s.t, s.image, Planted(s), rest);
    if Stepping(s.mode) {
      RmWhileStepping(s.t, s.image);
    } else {
      RmWhilePlain(s.t, s.image);
    }
  }

  lemma {:induction false} StepsAreSoft(s: State)
    requires Fits(s.t) && forall a :: !Covers(Planted(s), a)
    ensures Unstepped(s.t)
  {
    CoversAppend(Plain(s.t), Steps(s.t), s.t.trc.addr);
    CoversAppend(Plain(s.t), Steps(s.t), s.t.trcb.addr);
    assert !Covers(Planted(s), s.t.trc.addr) && !Covers(Planted(s), s.t.trcb.addr);
    assert Soft(Steps(s.t)[0]) ==> Covers(Steps(s.t), s.t.trc.addr);
    assert Soft(Steps(s.t)[1]) ==> Covers(Steps(s.t), s.t.trcb.addr);
  }

  lemma {:induction false} CommandIsSound(s: State, e: Event)
    requires Inv(s) && !s.place.Running? && Enabled(s, e) && Tame(Next(s, e)) && !e.Write?
    ensures Sound(Next(s, e), false)
  {
    match e
    case Edit(_) =>
    case Start(cmd) => StartingIsSound(s, cmd, ToGo);
    case EnterDebug =>
    case DebugGo => LaunchingPlain(s, DC);
    case DebugStep(trc, trcb) => LaunchingStep(s, trc, trcb, DS);
    case DebugExit =>
      ClearingKeepsTame(s);
      var s1 := s.(t := ClearAll(s.t), mode := TraceNone, back := NoReturn);
      RmWhenClean(s1.t);
      EnteringMain(s1);
  }

  lemma {:induction false} StartingIsSound(s: State, c: Cmd, ret: Return)
    requires Fits(s.t) && s.t.mem == s.image && CanStart(|s.t.mem|, c) && Tame(Started(s, c, ret))
    ensures Sound(Started(s, c, ret), false)
  {
    match c
    case Go(tmp, epc, trc, trcb) =>
      GoingIsSound(s.(t := WithSteps(WithTmp(s.t, tmp), NO_BPT, NO_BPT), back := ret), false, epc, trc, trcb);
    case Cont(tmp, trc, trcb) =>
      GoingIsSound(s.(t := WithSteps(WithTmp(s.t, tmp), NO_BPT, NO_BPT)), true, 0, trc, trcb);
    case Step(multi, trc, trcb) => LaunchingStep(s, trc, trcb, if multi then TN else TB);
  }

  lemma {:induction false} GoingIsSound(s: State, cont: bool, epc: int, trc: int, trcb: int)
    requires Fits(s.t) && s.t.mem == s.image && Unstepped(s.t) && Fits(WithSteps(s.t, trc, trcb))
    requires Tame(GoClient(s, cont, epc, trc, trcb))
    ensures Sound(GoClient(s, cont, epc, trc, trcb), false)
  {
    if cont || IsBreakPoint(s.t, epc) {
      LaunchingStep(s, trc, trcb, TG);
    } else {
      LaunchingPlain(s, GB);
    }
  }

  /** Every step of the machine: while the client runs, memory is the image with a BREAK at
      exactly the planted entries and every lost word saved; when the monitor gets control,
      memory is the image if and only if the step is not one of the leaks. */
  lemma {:induction false} StepIsSound(s: State, e: Event)
    requires Inv(s) && Enabled(s, e) && TameStep(s, e)
    ensures Sound(Next(s, e), Leaks(s, e))
  {
    match e
    case Write(a, v) => WriteIsSound(s, a, v);
    case Exception(trap) => TrapIsSound(s, trap);
    case Exit => ExitIsSound(s);
    case ExitToStop(rest) => ExitToStopIsSound(s, rest);
    case _ => CommandIsSound(s, e);
  }

  // ------------------------------------------------------------ every run

  /** The events can happen one after the other from `s`, and the client never has a BREAK of
      its own at an address in the tables. */
  ghost predicate Runs(s: State, es: seq<Event>)
    decreases |es|
  {
    es == [] || (Enabled(s, es[0]) && TameStep(s, es[0]) && Runs(Next(s, es[0]), es[1..]))
  }

  ghost function Final(s: State, es: seq<Event>): State
    requires Runs(s, es)
    decreases |es|
  {
    if es == [] then s else Final(Next(s, es[0]), es[1..])
  }

  ghost predicate Quiet(s: State, es: seq<Event>)
    requires Runs(s, es)
    decreases |es|
  {
    es == [] || (!Leaks(s, es[0]) && Quiet(Next(s, es[0]), es[1..]))
  }

  lemma {:induction false} RunKeepsInv(s: State, es: seq<Event>)
    requires Inv(s) && Runs(s, es) && Quiet(s, es)
    ensures Inv(Final(s, es))
    decreases |es|
  {
    if es != [] {
      StepIsSound(s, es[0]);
      RunKeepsInv(Next(s, es[0]), es[1..]);
    }
  }

  /** The state at power-up: an empty table and the command loop. */
  function PowerUp(mem: seq<int>): State {
    var none := Bp(NO_BPT, 0, 0, 0);
    State(Table(mem, seq(MAX_BPT, _ => none), none, none, none), mem, TraceNone, Command, NoReturn)
  }

  /** Over every run from power-up: as long as no step leaks, whenever the monitor gets control
      the client's memory reads as the client left it, and the first step that leaks hands over
      memory that does not. */
  lemma {:induction false} MemoryIsGivenBack(mem: seq<int>, es: seq<Event>, e: Event)
    requires Runs(PowerUp(mem), es) && Quiet(PowerUp(mem), es)
    requires Enabled(Final(PowerUp(mem), es), e)
    requires TameStep(Final(PowerUp(mem), es), e)
    ensures var s := Final(PowerUp(mem), es); var s' := Next(s, e);
      && (!s'.place.Running? ==> (s'.t.mem == s'.image <==> !Leaks(s, e)))
      && (s'.place.Running? ==> (Inv(s') <==> !Leaks(s, e)))
  {
    TameParts(PowerUp(mem));
    RunKeepsInv(PowerUp(mem), es);
    StepIsSound(Final(PowerUp(mem), es), e);
  }

  // ------------------------------------------------------------ a lost word stays lost

  /** The event itself puts no word at `a`, and no entry with one. */
  predicate LeavesAlone(e: Event, a: int) {
    match e
    case Write(b, _) => b != a
    case Edit(bpt) => Saved(bpt, a) == BPT_CODE
    case Start(cmd) => StartsElsewhere(cmd, a)
    case Exception(trap) => CommandsElsewhere(trap.cmd, a)
    case ExitToStop(rest) => CommandsElsewhere(rest, a)
    case _ => true
  }

  predicate CommandsElsewhere(cmd: StopCmd, a: int) {
    && Saved(cmd.bpt, a) == BPT_CODE && !Pokes(cmd.pokes, a)
    && (cmd.next.Resume? ==> StartsElsewhere(cmd.next.cmd, a))
  }

  predicate StartsElsewhere(c: Cmd, a: int) {
    c.Step? || c.tmp != a
  }

  lemma {:induction false} SavedElsewhere(e: Bp, a: int)
    requires e.addr != a || e.addr == NO_BPT
    ensures Saved([e], a) == BPT_CODE
  {
    assert [e][0] == e && [e][..0] == [];
  }

  lemma {:induction false} LostUnderSteps(t: Table, a: int, trc: int, trcb: int)
    requires Lost(t, a) && Fits(WithSteps(t, trc, trcb))
    ensures Lost(StoreTrace(WithSteps(t, trc, trcb)), a)
  {
    StoreTraceOver(WithSteps(t, trc, trcb), a);
  }

  lemma {:induction false} LostWithoutSteps(t: Table, a: int)
    requires Fits(t) && Lost(t, a)
    ensures Lost(RemoveTrace(t), a)
  {
    LiftAt(t.mem, Steps(t), a);
    UnsteppedCoversNothing(RemoveTrace(t), a);
    NotSavedUnlessCovered(Steps(RemoveTrace(t)), a);
  }

  lemma {:induction false} LostAfterRm(t: Table, a: int)
    requires Fits(t) && Lost(t, a)
    ensures Lost(RmBpts(t), a)
  {
    var u := WithTmp(t.(mem := Lift(t.mem, Plain(t))), NO_BPT);
    LiftAt(t.mem, Plain(t), a);
    SavedAppend([t.tmp], t.bpt, a);
    SavedElsewhere(u.tmp, a);
    LostWithoutSteps(u, a);
  }

  lemma {:induction false} LostWhenStarted(s: State, c: Cmd, ret: Return, a: int)
    requires Fits(s.t) && CanStart(|s.t.mem|, c) && Lost(s.t, a) && StartsElsewhere(c, a)
    ensures Lost(Started(s, c, ret).t, a)
  {
    if c.Step? {
      LostUnderSteps(s.t, a, c.trc, c.trcb);
    } else {
      var t := WithTmp(s.t, c.tmp);
      SavedElsewhere(t.tmp, a);
      LostUnderSteps(t, a, c.trc, c.trcb);
      StoreOverLoses(WithSteps(t, NO_BPT, NO_BPT), a);
    }
  }

  lemma {:induction false} LostAfterStop(s: State, cmd: StopCmd, a: int)
    requires Fits(s.t) && Possible(s.t, cmd) && Lost(s.t, a) && |s.image| == |s.t.mem|
    requires CommandsElsewhere(cmd, a)
    ensures Lost(Stop(s, cmd).t, a)
  {
    LostAfterCommands(s.(mode := TraceNone), cmd, a);
  }

  lemma {:induction false} LostAfterCommands(s: State, cmd: StopCmd, a: int)
    requires Fits(s.t) && Possible(s.t, cmd) && Lost(s.t, a) && |s.image| == |s.t.mem|
    requires CommandsElsewhere(cmd, a)
    ensures Lost(Obey(s, cmd).t, a)
  {
    PokedAt(s.t.mem, s.image, cmd.pokes, a);
    if cmd.next.Stay? {
      LostAfterRm(Told(s, cmd).t, a);
    } else {
      LostWhenStarted(Told(s, cmd), cmd.next.cmd, ToStop, a);
    }
  }

  lemma {:induction false} LostAfterTrap(s: State, trap: Trap, a: int)
    requires Enabled(s, Exception(trap)) && LeavesAlone(Exception(trap), a) && Lost(s.t, a)
    ensures Lost(HandleTrap(s, trap).t, a)
  {
    LostUnderSteps(s.t, a, trap.trc, trap.trcb);
    LostWithoutSteps(s.t, a);
    if s.mode.DW? || s.mode.TW? {
      LostAfterSettle(s.(mode := if s.mode.DW? then DC else GB, t := RemoveTrace(s.t)), trap, a);
    } else {
      LostAfterSettle(s, trap, a);
    }
  }

  lemma {:induction false} LostAfterSettle(s: State, trap: Trap, a: int)
    requires Fits(s.t) && |s.image| == |s.t.mem| && LeavesAlone(Exception(trap), a) && Lost(s.t, a)
    requires Fits(WithSteps(s.t, trap.trc, trap.trcb)) && Possible(s.t, trap.cmd)
    ensures Lost(Settle(s, trap).t, a)
  {
    if s.mode.DC? || s.mode.DS? {
      LostAfterRm(s.t, a);
    } else if (!trap.isBp && !trap.hit) || s.mode.TraceNone? {
      LostAfterStop(s, trap.cmd, a);
    } else if s.mode.GB? {
      LostAfterRm(s.t, a);
      LostAfterStop(s.(t := RmBpts(s.t)), trap.cmd, a);
    } else {
      LostWithoutSteps(s.t, a);
      LostAfterNext(s.(t := RemoveTrace(s.t)), trap, a);
    }
  }

  lemma {:induction false} LostAfterNext(s: State, trap: Trap, a: int)
    requires Fits(s.t) && |s.image| == |s.t.mem| && LeavesAlone(Exception(trap), a) && Lost(s.t, a)
    requires Fits(WithSteps(s.t, trap.trc, trap.trcb)) && Possible(s.t, trap.cmd)
    ensures Lost(NextStep(s, trap).t, a)
  {
    if s.mode.TB? || (s.mode.TN? && (SoftAt(s.t.bpt, trap.epc) || trap.hit || trap.halt)) {
      LostAfterStop(s, trap.cmd, a);
    } else if s.mode.TN? {
      LostUnderSteps(s.t, a, trap.trc, trap.trcb);
    } else {
      StoreOverLoses(s.t, a);
    }
  }

  lemma {:induction false} LostWhenCleared(t: Table, a: int)
    requires Lost(t, a)
    ensures Lost(ClearAll(t), a)
  {
    NotSavedUnlessCovered(ClearAll(t).bpt, a);
  }

  lemma {:induction false} LostStays(s: State, e: Event, a: int)
    requires Enabled(s, e) && LeavesAlone(e, a) && Lost(s.t, a)
    ensures Lost(Next(s, e).t, a)
  {
    match e
    case Write(_, _) =>
    case Edit(_) =>
    case Start(cmd) => LostWhenStarted(s, cmd, ToGo, a);
    case EnterDebug => LostWhenCleared(s.t, a);
    case DebugGo => StoreOverLoses(s.t, a);
    case DebugStep(trc, trcb) => LostUnderSteps(s.t, a, trc, trcb);
    case DebugExit =>
      LostWhenCleared(s.t, a);
      LostAfterRm(ClearAll(s.t), a);
    case Exception(trap) => LostAfterTrap(s, trap, a);
    case Exit =>
      if s.back.NoReturn? {
        LostAfterRm(s.t, a);
      }
    case ExitToStop(rest) => LostAfterCommands(s, rest, a);
  }

  /** Once a planting has saved a BREAK as the client's word at `a`, memory reads BREAK there
      through every run in which nothing else puts a word at `a` or in an entry for it. */
  lemma {:induction false} LostForGood(s: State, es: seq<Event>, a: int)
    requires Runs(s, es) && Lost(s.t, a)
    requires forall i :: 0 <= i < |es| ==> LeavesAlone(es[i], a)
    ensures Lost(Final(s, es).t, a)
    decreases |es|
  {
    if es != [] {
      LostStays(s, es[0], a);
      LostForGood(Next(s, es[0]), es[1..], a);
    }
  }

  // ------------------------------------------------------------ the leaks do happen

  lemma {:induction false} ExtendRun(s: State, es: seq<Event>, e: Event)
    requires Runs(s, es) && Quiet(s, es) && Inv(s)
    requires Enabled(Final(s, es), e) && TameStep(Final(s, es), e) && !Leaks(Final(s, es), e)
    ensures Runs(s, es + [e]) && Quiet(s, es + [e])
    ensures Final(s, es + [e]) == Next(Final(s, es), e)
    ensures Inv(Final(s, es + [e]))
    decreases |es|
  {
    if es == [] {
      StepIsSound(s, e);
      assert ([] + [e])[1..] == [];
    } else {
      StepIsSound(s, es[0]);
      ExtendRun(Next(s, es[0]), es[1..], e);
      assert (es + [e])[1..] == es[1..] + [e];
    }
  }

  /** A table with at most one breakpoint, at `a`. */
  function Only(a: int): seq<Bp> {
    seq(MAX_BPT, i => if i == 0 then Bp(a, 0, 0, 0) else Bp(NO_BPT, 0, 0, 0))
  }

  /** The table holds one breakpoint, at `a`. */
  predicate OneAt(s: State, a: int) {
    && |s.t.bpt| == MAX_BPT
    && s.t.bpt[0].addr == a && s.t.bpt[0].wpt == 0
    && (forall i :: 0 < i < |s.t.bpt| ==> s.t.bpt[i].addr == NO_BPT)
    && s.t.tmp.addr == NO_BPT
  }

  lemma {:induction false} OneIsTame(s: State, a: int)
    requires OneAt(s, a) && Fits(s.t) && 0 <= a < |s.image| && s.image[a] != BPT_CODE
    requires Unstepped(s.t) || (s.t.trc.addr == a && s.t.trcb.addr == NO_BPT)
    ensures Tame(s)
    ensures Covers(s.t.bpt, a) && Covers(Plain(s.t), a)
  {
    TameParts(s);
    assert Soft(s.t.bpt[0]);
    CoversAppend([s.t.tmp], s.t.bpt, a);
  }

  /** The monitor has control and reads a word at `a` that the client did not leave there. */
  predicate Dirty(s: State, a: int) {
    && !s.place.Running?
    && 0 <= a < |s.t.mem| == |s.image|
    && s.t.mem[a] != s.image[a]
  }

  /** One breakpoint is set and the client started by `g`. */
  lemma {:induction false} GoneOff(mem: seq<int>, a: int, epc: int)
    requires 0 <= a < |mem| && mem[a] != BPT_CODE && epc != a && 0 <= epc
    ensures var s0, es := PowerUp(mem), [Edit(Only(a)), Start(Go(NO_BPT, epc, NO_BPT, NO_BPT))];
      && Runs(s0, es) && Quiet(s0, es)
      && var s := Final(s0, es);
         && Inv(s) && s.place.Running? && s.mode.GB? && s.back.ToGo? && OneAt(s, a)
         && s.image == mem && Covers(Plain(s.t), a)
  {
    var s0 := PowerUp(mem);
    TameParts(s0);
    var s1 := Next(s0, Edit(Only(a)));
    OneIsTame(s1, a);
    ExtendRun(s0, [], Edit(Only(a)));
    var go := Start(Go(NO_BPT, epc, NO_BPT, NO_BPT));
    assert !IsBreakPoint(s1.t, epc);
    StoreWithoutSteps(s1.t);
    var s2 := Next(s1, go);
    OneIsTame(s2, a);
    ExtendRun(s0, [] + [Edit(Only(a))], go);
    assert [] + [Edit(Only(a))] + [go] == [Edit(Only(a)), go];
  }

  /** The client exits: control is back in the command loop with the BREAK still in memory. */
  lemma {:induction false} ExitLeavesBreak(mem: seq<int>, a: int, epc: int)
    requires 0 <= a < |mem| && mem[a] != BPT_CODE && epc != a && 0 <= epc
    ensures var s0, es := PowerUp(mem), [Edit(Only(a)), Start(Go(NO_BPT, epc, NO_BPT, NO_BPT))];
      Runs(s0, es) && Quiet(s0, es) && Enabled(Final(s0, es), Exit) && Dirty(Next(Final(s0, es), Exit), a)
  {
    GoneOff(mem, a, epc);
    var s := Final(PowerUp(mem), [Edit(Only(a)), Start(Go(NO_BPT, epc, NO_BPT, NO_BPT))]);
    CoversAppend(Plain(s.t), Steps(s.t), a);
  }

  /** The client traps for another reason, and the stop command deletes the breakpoint: the
      BREAK is still in memory when the command loop is entered. */
  lemma {:induction false} StopCommandLeavesBreak(mem: seq<int>, a: int, epc: int)
    requires 0 <= a < |mem| && mem[a] != BPT_CODE && epc != a && 0 <= epc
    ensures var s0, es := PowerUp(mem), [Edit(Only(a)), Start(Go(NO_BPT, epc, NO_BPT, NO_BPT))];
      && Runs(s0, es) && Quiet(s0, es)
      && var s, trap := Final(s0, es), AT_BREAK.(isBp := false);
         && Enabled(s, Exception(trap)) && TameStep(s, Exception(trap)) && Leaks(s, Exception(trap))
         && Dirty(Next(s, Exception(trap)), a)
  {
    GoneOff(mem, a, epc);
    var s := Final(PowerUp(mem), [Edit(Only(a)), Start(Go(NO_BPT, epc, NO_BPT, NO_BPT))]);
    var trap := AT_BREAK.(isBp := false);
    DeletedWhilePlanted(s, trap, a);
  }

  lemma {:induction false} DeletedWhilePlanted(s: State, trap: Trap, a: int)
    requires Inv(s) && s.place.Running? && s.mode.GB? && OneAt(s, a) && Covers(Plain(s.t), a)
    requires 0 <= a < |s.image| && s.image[a] != BPT_CODE && trap == AT_BREAK.(isBp := false)
    ensures Enabled(s, Exception(trap)) && TameStep(s, Exception(trap)) && Leaks(s, Exception(trap))
    ensures Dirty(Next(s, Exception(trap)), a)
  {
    DeletedThenMain(s.(mode := TraceNone), a);
    SpoilsPlain(s.image, trap.cmd, Plain(s.t), Obeyed(s.t, trap.cmd));
  }

  /** Emptying the table while its one breakpoint is planted leaves the BREAK. */
  lemma {:induction false} DeletedThenMain(s: State, a: int)
    requires Fits(s.t) && |s.image| == |s.t.mem| && Tame(s) && PlainPlanted(s) && Unstepped(s.t)
    requires OneAt(s, a) && Covers(Plain(s.t), a) && 0 <= a < |s.image| && s.image[a] != BPT_CODE
    ensures Possible(s.t, DELETE_ALL) && TameCmd(s, DELETE_ALL) && Tame(Obey(s, DELETE_ALL))
    ensures Dirty(Obey(s, DELETE_ALL), a)
    ensures var t := Obeyed(s.t, DELETE_ALL); Spoils(s.image, DELETE_ALL, Plain(s.t), Plain(t) + Steps(t))
  {
    var t := Obeyed(s.t, DELETE_ALL);
    TameParts(s);
    NoneOwnAppend(s.image, [s.t.tmp], Steps(s.t));
    TameParts(Obey(s, DELETE_ALL));
    assert !Covers(Plain(t), a);
    NotSavedUnlessCovered(Plain(t), a);
    CoversAppend(Plain(s.t), Steps(s.t), a);
    RmBptsLifts(t);
    LiftAt(t.mem, Plain(t) + Steps(t), a);
    SavedAppend(Plain(t), Steps(t), a);
    UnsteppedCoversNothing(t, a);
    NotSavedUnlessCovered(Steps(t), a);
  }

  /** The trap of a BREAK whose stop command starts the client at `epc`, with one breakpoint. */
  function ResumingTrap(a: int, epc: int): Trap {
    var cmd := StopCmd(Only(a), [], Resume(Go(NO_BPT, epc, NO_BPT, NO_BPT)));
    Trap(true, false, false, a, false, false, NO_BPT, NO_BPT, cmd)
  }

  /** The client stops at its breakpoint and the stop command starts it again. */
  lemma {:induction false} GoneOffAgain(s: State, a: int, epc: int)
    requires Inv(s) && s.place.Running? && s.mode.GB? && OneAt(s, a)
    requires 0 <= a < |s.image| && s.image[a] != BPT_CODE && epc != a && 0 <= epc
    ensures var e := Exception(ResumingTrap(a, epc));
      && Enabled(s, e) && TameStep(s, e) && !Leaks(s, e)
      && var s' := Next(s, e);
         && s'.place.Running? && s'.mode.GB? && s'.back.ToStop? && OneAt(s', a)
         && s'.image == s.image && Covers(Plain(s'.t), a) && Unstepped(s'.t)
  {
    var trap := ResumingTrap(a, epc);
    TameParts(s);
    NoneOwnAppend(s.image, [s.t.tmp], Steps(s.t));
    var s1 := Told(s.(t := RmBpts(s.t), mode := TraceNone), trap.cmd);
    assert !IsBreakPoint(s1.t, epc);
    var t := WithSteps(WithTmp(s1.t, NO_BPT), NO_BPT, NO_BPT);
    StoreWithoutSteps(t);
    OneIsTame(Next(s, Exception(trap)), a);
  }

  /** The client exits into stop(). With "delete all" behind the command that started it, the
      BREAK at `a` is left; with nothing behind, memory is given back. */
  ghost predicate DependsOnRest(s: State, a: int) {
    var deleting, bare := ExitToStop(DELETE_ALL), ExitToStop(StopCmd(s.t.bpt, [], Stay));
    && Enabled(s, deleting) && Leaks(s, deleting) && Dirty(Next(s, deleting), a)
    && Enabled(s, bare) && !Leaks(s, bare) && Next(s, bare).t.mem == s.image
  }

  lemma {:induction false} ExitsBehindGo(s: State, a: int)
    requires Inv(s) && s.place.Running? && s.mode.GB? && s.back.ToStop? && OneAt(s, a)
    requires Covers(Plain(s.t), a) && 0 <= a < |s.image| && s.image[a] != BPT_CODE
    ensures DependsOnRest(s, a)
  {
    DeletedThenMain(s, a);
    CoversAppend(Plain(s.t), Steps(s.t), a);
    SpoilsMore(s.image, DELETE_ALL, Plain(s.t), Steps(s.t), Obeyed(s.t, DELETE_ALL));
    NothingBehind(s);
    StepIsSound(s, ExitToStop(StopCmd(s.t.bpt, [], Stay)));
  }

  lemma {:induction false} GoneOffThenExits(s0: State, es: seq<Event>, a: int, epc: int, e: Event)
    requires Inv(s0) && Runs(s0, es) && Quiet(s0, es) && e == Exception(ResumingTrap(a, epc))
    requires var s := Final(s0, es);
      && Inv(s) && s.place.Running? && s.mode.GB? && OneAt(s, a)
      && 0 <= a < |s.image| && s.image[a] != BPT_CODE && epc != a && 0 <= epc
    ensures Runs(s0, es + [e]) && Quiet(s0, es + [e]) && DependsOnRest(Final(s0, es + [e]), a)
  {
    GoneOffAgain(Final(s0, es), a, epc);
    ExtendRun(s0, es, e);
    ExitsBehindGo(Final(s0, es + [e]), a);
  }

  /** From power-up: the client stops at its breakpoint and the stop command starts it again. What
      its exit then leaves depends on the commands behind. */
  lemma {:induction false} DeletedBehindGo(mem: seq<int>, a: int, epc: int)
    requires 0 <= a < |mem| && mem[a] != BPT_CODE && epc != a && 0 <= epc
    ensures var s0, start := PowerUp(mem), [Edit(Only(a)), Start(Go(NO_BPT, epc, NO_BPT, NO_BPT))];
      var es := start + [Exception(ResumingTrap(a, epc))];
      Runs(s0, es) && Quiet(s0, es) && DependsOnRest(Final(s0, es), a)
  {
    GoneOff(mem, a, epc);
    TameParts(PowerUp(mem));
    GoneOffThenExits(PowerUp(mem), [Edit(Only(a)), Start(Go(NO_BPT, epc, NO_BPT, NO_BPT))], a, epc,
                     Exception(ResumingTrap(a, epc)));
  }

  /** What is planted besides only adds to what can be spoilt. */
  lemma {:induction false} SpoilsMore(image: seq<int>, cmd: StopCmd, es: seq<Bp>, more: seq<Bp>, t: Table)
    requires Spoils(image, cmd, es, Plain(t) + Steps(t))
    ensures Spoils(image, cmd, es + more, Plain(t) + Steps(t))
  {
    var back := Plain(t) + Steps(t);
    var a :| 0 <= a < |image| && Covers(es, a) && !Pokes(cmd.pokes, a)
             && (cmd.next.Resume? || Saved(back, a) != image[a]);
    CoversAppend(es, more, a);
  }

  const NO_TABLE := Only(NO_BPT)

  /** A command that deletes every breakpoint. */
  const DELETE_ALL := StopCmd(NO_TABLE, [], Stay)

  /** The trap of a BREAK; the stop command it would run leaves no breakpoint. */
  const AT_BREAK := Trap(true, false, false, 0, false, false, NO_BPT, NO_BPT, DELETE_ALL)

  /** Stopping at a planted breakpoint under the debugger leaves its saved word in the table. */
  lemma {:induction false} DebugStopKeepsSaved(s: State, a: int)
    requires Inv(s) && s.place.Running? && s.mode.DC? && OneAt(s, a) && Covers(Plain(s.t), a)
    requires 0 <= a < |s.image|
    ensures Enabled(s, Exception(AT_BREAK)) && TameStep(s, Exception(AT_BREAK)) && !Leaks(s, Exception(AT_BREAK))
    ensures var s' := Next(s, Exception(AT_BREAK));
      && s'.place.Debug? && OneAt(s', a) && Unstepped(s'.t)
      && s'.image == s.image && Saved(Plain(s'.t), a) == s.image[a]
  {
    var s' := Next(s, Exception(AT_BREAK));
    TameSame(s, s');
    TameParts(s);
    NoneOwnAppend(s.image, [s.t.tmp], Steps(s.t));
    SavedAppend([s.t.tmp], s.t.bpt, a);
    SavedAppend([s'.t.tmp], s'.t.bpt, a);
  }

  /** The word under an unplanted breakpoint is changed, and a step is taken to it: taking the
      step breakpoint out puts back the word from before the change. */
  lemma {:induction false} SteppingOntoStale(s: State, a: int)
    requires Inv(s) && s.place.Debug? && OneAt(s, a) && 0 <= a < |s.image|
    requires Saved(Plain(s.t), a) != BPT_CODE && s.image[a] != BPT_CODE && Saved(Plain(s.t), a) != s.image[a]
    ensures Enabled(s, DebugStep(a, NO_BPT)) && TameStep(s, DebugStep(a, NO_BPT))
    ensures var s1 := Next(s, DebugStep(a, NO_BPT));
      && Enabled(s1, Exception(AT_BREAK)) && Leaks(s1, Exception(AT_BREAK))
      && Dirty(Next(s1, Exception(AT_BREAK)), a)
  {
    var s1 := Next(s, DebugStep(a, NO_BPT));
    OneIsTame(s1, a);
    StepIsSound(s, DebugStep(a, NO_BPT));
    assert Soft(Steps(s1.t)[0]) && Covers(Steps(s1.t), a);
    assert Plain(s1.t) == Plain(s.t);
    RmBptsLifts(s1.t);
    LiftAt(s1.t.mem, Plain(s1.t) + Steps(s1.t), a);
    SavedAppend(Plain(s1.t), Steps(s1.t), a);
  }

  /** The debugger sets a breakpoint. */
  lemma {:induction false} DebugTable(mem: seq<int>, a: int)
    requires 0 <= a < |mem| && mem[a] != BPT_CODE
    ensures var s0, es := PowerUp(mem), [EnterDebug] + [Edit(Only(a))];
      && Runs(s0, es) && Quiet(s0, es) && Inv(s0) && Inv(Final(s0, es))
      && Final(s0, es).place.Debug? && Final(s0, es).image == mem && OneAt(Final(s0, es), a)
  {
    var s0 := PowerUp(mem);
    TameParts(s0);
    var s1 := Next(s0, EnterDebug);
    ClearingKeepsTame(s0);
    assert Tame(s1);
    ExtendRun(s0, [], EnterDebug);
    assert [] + [EnterDebug] == [EnterDebug];
    OneIsTame(Next(s1, Edit(Only(a))), a);
    ExtendRun(s0, [EnterDebug], Edit(Only(a)));
  }

  /** The client is started with the breakpoint planted. */
  lemma {:induction false} DebugStart(s: State, a: int)
    requires Inv(s) && s.place.Debug? && OneAt(s, a) && 0 <= a < |s.image| && s.image[a] != BPT_CODE
    ensures Enabled(s, DebugGo) && TameStep(s, DebugGo) && !Leaks(s, DebugGo)
    ensures var s' := Next(s, DebugGo);
      && s'.place.Running? && s'.mode.DC? && s'.image == s.image
      && OneAt(s', a) && Covers(Plain(s'.t), a)
  {
    StoreWithoutSteps(s.t);
    OneIsTame(Next(s, DebugGo), a);
  }

  /** The debugger runs the client to its breakpoint. */
  lemma {:induction false} RunToBreak(s0: State, es: seq<Event>, a: int)
    requires Inv(s0) && Runs(s0, es) && Quiet(s0, es)
    requires var s := Final(s0, es);
      Inv(s) && s.place.Debug? && OneAt(s, a) && 0 <= a < |s.image| && s.image[a] != BPT_CODE
    ensures var es' := es + [DebugGo] + [Exception(AT_BREAK)];
      && Runs(s0, es') && Quiet(s0, es')
      && var s := Final(s0, es');
         && Inv(s) && s.place.Debug? && OneAt(s, a)
         && s.image == Final(s0, es).image && Saved(Plain(s.t), a) == s.image[a]
  {
    DebugStart(Final(s0, es), a);
    ExtendRun(s0, es, DebugGo);
    var going := es + [DebugGo];
    DebugStopKeepsSaved(Final(s0, going), a);
    ExtendRun(s0, going, Exception(AT_BREAK));
  }

  /** The same from power-up, for any memory, address and new word: the debugger sets a
      breakpoint, runs to it, writes the word under it, and steps onto it. */
  lemma {:induction false} StepRestoresStaleWord(mem: seq<int>, a: int, w: int)
    requires 0 <= a < |mem| && mem[a] != BPT_CODE && w != BPT_CODE && w != mem[a]
    ensures exists es ::
      && es == [EnterDebug] + [Edit(Only(a))] + [DebugGo] + [Exception(AT_BREAK)] + [Write(a, w)]
               + [DebugStep(a, NO_BPT)]
      && Runs(PowerUp(mem), es) && Quiet(PowerUp(mem), es)
      && Enabled(Final(PowerUp(mem), es), Exception(AT_BREAK))
      && Dirty(Next(Final(PowerUp(mem), es), Exception(AT_BREAK)), a)
  {
    var start := [EnterDebug] + [Edit(Only(a))];
    DebugTable(mem, a);
    RunToBreak(PowerUp(mem), start, a);
    StaleSession(PowerUp(mem), start + [DebugGo] + [Exception(AT_BREAK)], a, w);
  }

  lemma {:induction false} StaleSession(s0: State, es: seq<Event>, a: int, w: int)
    requires Inv(s0) && Runs(s0, es) && Quiet(s0, es)
    requires var s := Final(s0, es);
      && Inv(s) && s.place.Debug? && OneAt(s, a) && 0 <= a < |s.image|
      && s.image[a] == Saved(Plain(s.t), a) != BPT_CODE && w != BPT_CODE && w != s.image[a]
    ensures var es' := es + [Write(a, w)] + [DebugStep(a, NO_BPT)];
      && Runs(s0, es') && Quiet(s0, es') && Enabled(Final(s0, es'), Exception(AT_BREAK))
      && Dirty(Next(Final(s0, es'), Exception(AT_BREAK)), a)
  {
    var s5 := Next(Final(s0, es), Write(a, w));
    OneIsTame(s5, a);
    ExtendRun(s0, es, Write(a, w));
    SteppingOntoStale(s5, a);
    ExtendRun(s0, es + [Write(a, w)], DebugStep(a, NO_BPT));
  }

  // ------------------------------------------------------------ the routines that patch memory

  /** The breakpoint entries of go.c and the client memory they patch. */
  class Patcher {
    var mem: seq<int>
    var bpt: seq<Bp>
    var tmp: Bp
    var trc: Bp
    var trcb: Bp

    constructor (mem: seq<int>)
      ensures Contents() == PowerUp(mem).t && Fits(Contents())
    {
      this.mem := mem;
      bpt := seq(MAX_BPT, _ => Bp(NO_BPT, 0, 0, 0));
      tmp, trc, trcb := Bp(NO_BPT, 0, 0, 0), Bp(NO_BPT, 0, 0, 0), Bp(NO_BPT, 0, 0, 0);
    }

    function Contents(): Table
      reads this
    {
      Table(mem, bpt, tmp, trc, trcb)
    }

    /** clrbpt: takes the first entry of this address, length and kind out of the table. */
    method ClrBpt(wpt: int, adr: int, len: int) returns (found: bool)
      requires adr != NO_BPT && Unrepeated(bpt)
      modifies `bpt
      ensures |bpt| == |old(bpt)| && Unrepeated(bpt) && Absent(bpt, wpt, adr, len)
      ensures found <==> !Absent(old(bpt), wpt, adr, len)
      ensures !found ==> bpt == old(bpt)
      ensures forall i :: 0 <= i < |bpt| ==>
        bpt[i] == if Is(old(bpt)[i], wpt, adr, len) then old(bpt)[i].(addr := NO_BPT) else old(bpt)[i]
    {
      var j := 0;
      while j < |bpt|
        invariant 0 <= j <= |bpt| && bpt == old(bpt)
        invariant forall i :: 0 <= i < j ==> !Is(bpt[i], wpt, adr, len)
      {
        if bpt[j].addr == adr && bpt[j].len == len && bpt[j].wpt == wpt {
          assert forall i :: 0 <= i < |bpt| && i != j ==> !Is(bpt[i], wpt, adr, len);
          bpt := bpt[j := bpt[j].(addr := NO_BPT)];
          return true;
        }
        j := j + 1;
      }
      return false;
    }

    /** setbpt: the entry goes into the first free place, after any earlier one like it is taken
        out. The place keeps the word it saved last. `watch` is whether the hardware takes a
        watchpoint. */
    method SetBpt(wpt: int, adr: int, len: int, watch: bool) returns (ok: bool)
      requires adr != NO_BPT && Unrepeated(bpt)
      modifies `bpt
      ensures |bpt| == |old(bpt)| && Unrepeated(bpt)
      ensures ok <==> !Absent(bpt, wpt, adr, len)
      ensures ok ==> wpt == 0 || watch
      ensures !ok && (wpt == 0 || watch) ==> forall i :: 0 <= i < |bpt| ==> bpt[i].addr != NO_BPT
      ensures forall i :: 0 <= i < |bpt| && old(bpt)[i].addr != NO_BPT && !Is(old(bpt)[i], wpt, adr, len) ==>
        bpt[i] == old(bpt)[i]
      ensures forall i :: 0 <= i < |bpt| ==> bpt[i].value == old(bpt)[i].value
    {
      var found := ClrBpt(wpt, adr, len);
      var j := 0;
      while j < |bpt| && bpt[j].addr != NO_BPT
        invariant 0 <= j <= |bpt|
        invariant forall i :: 0 <= i < j ==> bpt[i].addr != NO_BPT
      {
        j := j + 1;
      }
      if j >= |bpt| || (wpt != 0 && !watch) {
        return false;
      }
      bpt := bpt[j := bpt[j].(addr := adr, len := len, wpt := wpt)];
      assert Is(bpt[j], wpt, adr, len);
      return true;
    }

    /** The test and store of one entry on the way out. */
    method PutBack(e: Bp)
      requires InRange(mem, [e])
      modifies `mem
      ensures mem == Lift(old(mem), [e])
    {
      assert [e][..0] == [];
      if e.addr != NO_BPT && e.wpt == 0 {
        assert Soft([e][0]);
        if mem[e.addr] == BPT_CODE {
          mem := mem[e.addr := e.value];
        }
      }
    }

    method RemoveTraceBreakpoint()
      requires Fits(Contents())
      modifies `mem, `trc, `trcb
      ensures Contents() == RemoveTrace(old(Contents()))
    {
      LiftAppend(mem, [trc], [trcb]);
      assert [trc] + [trcb] == Steps(Contents());
      PutBack(trc);
      trc := trc.(addr := NO_BPT);
      PutBack(trcb);
      trcb := trcb.(addr := NO_BPT);
    }

    method RmBptsInPlace()
      requires Fits(Contents())
      modifies `mem, `tmp, `trc, `trcb
      ensures Contents() == RmBpts(old(Contents()))
    {
      ghost var t := Contents();
      PutBack(tmp);
      ghost var mem1 := mem;
      LiftAppend(t.mem, [t.tmp], t.bpt);
      tmp := tmp.(addr := NO_BPT);
      var i := 0;
      while i < |bpt|
        invariant 0 <= i <= |bpt| && |mem| == |t.mem|
        invariant InRange(mem1, bpt[..i]) && mem == Lift(mem1, bpt[..i])
        invariant bpt == t.bpt && tmp == t.tmp.(addr := NO_BPT) && trc == t.trc && trcb == t.trcb
      {
        if bpt[i].addr != NO_BPT && bpt[i].wpt == 0 && mem[bpt[i].addr] == BPT_CODE {
          mem := mem[bpt[i].addr := bpt[i].value];
        }
        assert bpt[..i + 1][..i] == bpt[..i];
        i := i + 1;
      }
      assert bpt[..i] == bpt;
      RemoveTraceBreakpoint();
    }

    /** Saves the word at an entry and plants a BREAK over it. */
    method PlantEntry(e: Bp) returns (e': Bp)
      requires InRange(mem, [e])
      modifies `mem
      ensures mem == PlantMem(old(mem), [e]) && [e'] == PlantSaved(old(mem), [e])
    {
      PlantOne(mem, e);
      e' := e;
      if e.addr != NO_BPT && e.wpt == 0 {
        e' := e.(value := mem[e.addr]);
        mem := mem[e.addr := BPT_CODE];
      }
    }

    method StoreTraceBreakpoint()
      requires Fits(Contents())
      modifies `mem, `trc, `trcb
      ensures Contents() == StoreTrace(old(Contents()))
    {
      PlantTwo(mem, trc, trcb);
      trc := PlantEntry(trc);
      trcb := PlantEntry(trcb);
    }

    method Dedupe()
      modifies `tmp, `trc, `trcb
      ensures Contents() == Deduped(old(Contents()))
    {
      ghost var t := Contents();
      var i := 0;
      while i < |bpt|
        invariant 0 <= i <= |bpt|
        invariant tmp == t.tmp.(addr := if AnyAt(bpt[..i], t.tmp.addr) then NO_BPT else t.tmp.addr)
        invariant trc == t.trc.(addr := if AnyAt(bpt[..i], t.trc.addr) then NO_BPT else t.trc.addr)
        invariant trcb == t.trcb.(addr := if AnyAt(bpt[..i], t.trcb.addr) then NO_BPT else t.trcb.addr)
      {
        AnyAtLast(bpt, i, t.tmp.addr);
        AnyAtLast(bpt, i, t.trc.addr);
        AnyAtLast(bpt, i, t.trcb.addr);
        if tmp.addr == bpt[i].addr {
          tmp := tmp.(addr := NO_BPT);
        }
        if trc.addr == bpt[i].addr {
          trc := trc.(addr := NO_BPT);
        }
        if trcb.addr == bpt[i].addr {
          trcb := trcb.(addr := NO_BPT);
        }
        i := i + 1;
      }
      assert bpt[..i] == bpt;
      if trc.addr == tmp.addr {
        trc := trc.(addr := NO_BPT);
      }
      if trcb.addr == tmp.addr || trcb.addr == trc.addr {
        trcb := trcb.(addr := NO_BPT);
      }
    }

    method StoreTable()
      requires Fits(Contents())
      modifies `mem, `bpt
      ensures mem == PlantMem(old(mem), old(bpt)) && bpt == PlantSaved(old(mem), old(bpt))
    {
      ghost var t := Contents();
      var i := 0;
      while i < |bpt|
        invariant 0 <= i <= |bpt| == |t.bpt|
        invariant InRange(t.mem, t.bpt) && InRange(t.mem, t.bpt[..i]) && mem == PlantMem(t.mem, t.bpt[..i])
        invariant bpt == PlantSaved(t.mem, t.bpt[..i]) + t.bpt[i..]
      {
        PlantNext(t.mem, t.bpt, i);
        if bpt[i].addr != NO_BPT && bpt[i].wpt == 0 {
          bpt := bpt[i := bpt[i].(value := mem[bpt[i].addr])];
          mem := mem[bpt[i].addr := BPT_CODE];
        }
        i := i + 1;
      }
      assert t.bpt[..i] == t.bpt;
    }

    method StoreBreakpointInPlace()
      requires Fits(Contents())
      modifies `mem, `bpt, `tmp, `trc, `trcb
      ensures Contents() == StoreBreakpoint(old(Contents()))
    {
      Dedupe();
      ghost var u := Contents();
      StoreTable();
      tmp := PlantEntry(tmp);
      assert Contents() == StorePlain(u);
      StoreTraceBreakpoint();
    }
  }

  /** The entry is set, with this kind, address and length. */
  predicate Is(e: Bp, wpt: int, adr: int, len: int) {
    e.addr == adr && e.len == len && e.wpt == wpt
  }

  predicate Absent(bpt: seq<Bp>, wpt: int, adr: int, len: int) {
    forall i :: 0 <= i < |bpt| ==> !Is(bpt[i], wpt, adr, len)
  }

  /** No two entries that are set are alike. */
  predicate Unrepeated(bpt: seq<Bp>) {
    forall i, j :: 0 <= i < j < |bpt| && bpt[i].addr != NO_BPT ==> !Is(bpt[j], bpt[i].wpt, bpt[i].addr, bpt[i].len)
  }

  lemma {:induction false} AnyAtLast(bpt: seq<Bp>, i: nat, a: int)
    requires i < |bpt|
    ensures AnyAt(bpt[..i + 1], a) <==> AnyAt(bpt[..i], a) || bpt[i].addr == a
  {
    if AnyAt(bpt[..i], a) {
      var j :| 0 <= j < i && bpt[..i][j].addr == a;
      assert bpt[..i + 1][j].addr == a;
    }
    assert bpt[..i + 1][i] == bpt[i];
  }
}
