# PMON in Dafny

PMON is a boot monitor for MIPS boards: a command line, a debugger with breakpoints and
watchpoints, a remote debug link, downloaders, and the small library they stand on. This project
models the parts of it whose correctness is least evident from the code, and proves what they
promise.

| module | what it models |
|---|---|
| `Link`, `Codec` | the remote debug protocol: stop-and-wait with six-bit sequence numbers, over packets that are framed, counted and summed |
| `Sets`, `Blocks`, `Heap` | the circular next-fit allocator and its source of memory: what memory must look like, and the routines that keep it so |
| `Bytes`, `Qsort`, `Pointers` | the library sort on an array of bytes, and sorting lists of pointers with it |
| `Breakpoints`, `Control` | planting and lifting breakpoints, and the trace-mode state machine that decides when |
| `Distbl`, `SingleStep` | the instruction table and the choice of step breakpoints |
| `Parens`, `Numbers`, `Expr` | the address expression evaluator |
| `Calendar` | times, dates, and time-zone rules |
| `Symbols` | the symbol table with its hash chains and sorted lists |
| `LoadGuard`, `SRecord`, `FastLoad` | the load-address guard, the S-record dump and load, and the fast download format |
| `Bits`, `Watch` | watchpoint masks and the RM7000 watch registers |
| `RxQueue` | the ring buffer and the serial receive path with flow control |

`dafny verify dfyconfig.toml` verifies everything.

## Main results

- `Link.DeliveryExactlyOnce`: in every run of the two ends, with packets lost, damaged and delayed,
  each message is delivered once and in order, and a send that has returned has delivered.
- `Codec.RoundTrip`, `Codec.StreamRoundTrip`: from any decoder state the next packet comes out
  whole. `Codec.AlteredIsDamaged`: with any one of its type, number, text or check characters
  altered, to anything but a SYN, it is reported damaged, unless the change makes the header announce
  another length (the low five bits of the type character are length bits). `Codec.AlteredLength`:
  with the length so altered, it passes for another packet exactly when the text then announced is
  followed by its own checksum.
- `Heap.Serve`: any sequence of requests keeps the free ring ordered and coalesced and the blocks
  tiling what was obtained, and the units of the free and the live blocks add up to those that
  morecore had from sbrk; `Heap.Heap.Malloc` fails only when no free block is big enough and no
  memory can be had.
- `Qsort.Qsort`: the result is sorted and a permutation, element by element, although the code moves
  bytes; `Qsort.QuickSort` recurses at most log2 deep.
- `Control.MemoryIsGivenBack`: over every run, when the monitor gets control the client's memory is
  as the client left it if and only if the last step is not one of the listed leaks, whatever table
  the commands run on stopping leave and whatever they write. They may also start the client again,
  and commands behind that one are run when the client exits. `Control.LostForGood`: a word that a
  leak has lost stays lost.
- `SingleStep.StepStopsIff`: a step stops where the program goes, for every instruction and register
  state, except exactly where the code redirects it; `Distbl.TableIsRight` shows that the first row
  of the 264-row table that matches a word is of the architecture's kind, for every word.
- `Expr.EvaluatorIsRight`: printing any tree with the fewest parentheses and evaluating the text
  gives the tree's value, or fails exactly when it divides by zero.
- `Calendar.SecondsRoundTrip`, `Calendar.DateRoundTrip`, `Calendar.ZellerIsWeekDay`,
  `Calendar.TransTime`.
- `Symbols.SymTab`: lookups by name refine a table, lookups by value find the closest symbol, with
  and without memory for the sorted lists.
- `SRecord.DumpAndLoad`, `FastLoad.TextStored`, `LoadGuard.GuardIsExact`: a dump loads back to the
  same bytes, and so do bytes in the fast format; the guard accepts a range exactly when each of its
  bytes may be written.
- `Watch.Rm7000.Insert`: no access to a watched word is missed.
- `RxQueue.NoOverrun`: no character is lost, and characters come out in order.

## Where the code does less than it should

Each is shown by a lemma or a contract, with the exact condition beside it.

- The length characters of a packet are summed like the others, but they also say where the sum is
  looked for, so one altered character can turn a message into another one under the same number:
  `Codec.ShortenedPasses`, `Codec.ShortenedExists`, with the condition in `Codec.AlteredLength`.
- A client that exits through the saved jump buffer returns to the command loop past the call that
  takes breakpoints out (pmon/go.c:184-190 and pmon/mips.S:580-589), so what is planted stays in
  memory: `Control.ExitLeavesBreak`. A step may still put the word back; but planting the table
  again, as `g` does, saves the BREAK as if it were the client's word (`Control.StoreOverLoses`), and
  from then on it is there until something else writes the word: `Control.LostForGood`.
- A trap that is no breakpoint runs the stop command with everything still planted
  (pmon/go.c:913-918 and 1043-1057). If that command deletes a breakpoint, its BREAK stays:
  `Control.StopCommandLeavesBreak`. If it starts the client again, the client is started over the
  BREAKs: `Control.StartedOverBreak`.
- A client that the stop command started by `g` exits back into stop(), which then enters main and so
  takes breakpoints out (`Control.NothingBehind`); but commands behind the `g` are run before that, and
  one that deletes a planted breakpoint leaves its BREAK: `Control.DeletedBehindGo`.
- rm_bpts goes by address only, so a step breakpoint on an address that has an unplanted table entry
  is lifted with that entry's old word: `Control.StepRestoresStaleWord`.
- A branch to itself is stepped by planting after its delay slot, and a jump into memory that takes
  no BREAK by planting at ra: `SingleStep.SelfBranchIsNotStopped`,
  `SingleStep.JumpIntoRomIsNotStopped`.
- With `inalpha` set to symbol, a hexadecimal number that starts with a letter and is not a symbol
  evaluates to zero, because the zero left by the failed lookup is stored over it
  (pmon/commands.c:1085-1093): `Expr.LetterNumberLost`, `Expr.LetterNumbers`. If it is a symbol,
  nothing is stored at all, and the result is whatever its variable held: `Expr.LetterSymbolLost`,
  `Expr.LetterSymbols`.
- The mask of a watched range of one address is all ones, because the machine shifts by 32 as by
  none, so the register then matches every address: `Watch.CalcMask`.
- A watchpoint that the debug host refuses keeps its register image (pmon/watch.c:246-252), so it is
  armed all the same at the next insert: `Watch.RefusedIsWatched`.
- Two empty symbol names are compared by what lies behind them, so a second empty name may be entered
  (pmon/sym.c:201-208): the condition is in `Symbols.SymTab.NewSym`.
- The test for a power of two lets zero through, and a queue made for no entries has a limit of -1:
  `RxQueue.Create`.
- The margin of the receive queue is exactly used up: one more character than allowed is lost on the
  smallest queue: `RxQueue.OneTooMany`.

## Model

| member | source | states |
|---|---|---|
| `Link.Endpoint.constructor` | pmon/debug.c:93-95 | both sequence numbers start at zero and nothing was received |
| `Link.Endpoint.PutMsg` | pmon/debug.c:324-360 | which arrivals it waits through, what it sends again, and that it returns exactly on the acknowledgement of the next number, which it then takes as its own |
| `Link.Endpoint.GetMsg` | pmon/debug.c:365-390 | which arrivals it waits through and answers, and that it returns exactly the data packet of the expected number |
| `Link.PutMsgTakesSteps` | pmon/debug.c:324-360 | the loop of a send is a run of single steps of the protocol machine with the same replies |
| `Link.GetMsgTakesSteps` | pmon/debug.c:365-390 | the same for a receive |
| `Link.Seq6IsLowBits` | pmon/debug.c:76 | stepping the six-bit number keeps the low six bits of the count of messages |
| `Link.LosingKeepsWindows` | pmon/debug.c:324-390 | dropping any packet keeps what every packet in transit may be |
| `Link.SendingDataKeepsWindow` | pmon/debug.c:324-360 | a data packet sent is of the message in hand or the one before |
| `Link.SendingAckKeepsWindow` | pmon/debug.c:365-390 | an acknowledgement sent is of the last message accepted or the one before |
| `Link.AcceptingKeepsInv` | pmon/debug.c:365-390 | accepting a data packet keeps the invariant: it was the next message |
| `Link.CompletingKeepsInv` | pmon/debug.c:324-360 | completing a send keeps the invariant: the message had been accepted |
| `Link.StepKeepsInv` | pmon/debug.c:324-390 | every step of either end, and every loss, keeps the invariant |
| `Link.RunKeepsInv` | pmon/debug.c:324-390 | the invariant holds after every run |
| `Link.DeliveryExactlyOnce` | pmon/debug.c:324-390 | in every run, the messages accepted are the first ones sent, in order, once each, and a send that returned left nothing undelivered |
| `Codec.PutPkt` | pmon/debug.c:395-439 | the characters sent are the encoding of the packet |
| `Codec.GetPkt` | pmon/debug.c:500-606 | the report is the decoding of the line, the text is in the buffer with its terminator, and the buffer is not overrun |
| `Codec.FeedKeepsValid` | pmon/debug.c:500-606 | every character keeps the decoder's text inside the announced length |
| `Codec.DecodeHeader` | pmon/debug.c:500-606 | a start character and header put any decoder in the state the header announces |
| `Codec.DecodeText` | pmon/debug.c:500-606 | text characters are collected and summed in order |
| `Codec.DecodeCheck` | pmon/debug.c:577-592 | any three check characters decide between the packet and damage |
| `Codec.DecodeFrame` | pmon/debug.c:500-606 | what any frame decodes to from any state: the packet if its sum is right, damage if not |
| `Codec.FrameAcceptedIff` | pmon/debug.c:500-606 | a frame of seven-bit characters is accepted exactly if its header is legal and its text is followed by its own check characters |
| `Codec.RoundTrip` | pmon/debug.c:395-606 | from any decoder state, an encoded packet decodes to itself and leaves the rest of the line |
| `Codec.StreamRoundTrip` | pmon/debug.c:395-606 | a line of back-to-back packets is reported packet by packet |
| `Codec.AlteredIsDamaged` | pmon/debug.c:500-606 | a packet with one character after the SYN altered, not to a SYN and not to another length, is reported damaged |
| `Codec.CutShort` | pmon/debug.c:517-534 | a packet that another one or silence cuts short is not delivered: it is damage, or as if it had not begun |
| `Codec.LineReport` | pmon/debug.c:500-606 | what any seven-bit line after a SYN is reported as |
| `Codec.AlteredLength` | pmon/debug.c:540-560 | a packet with a length character altered is accepted exactly if the text then announced is followed by its own check characters |
| `Codec.ShortenedPasses` | pmon/debug.c:540-560 | a message that spells the check of an empty one is taken for the empty one when its length is made zero |
| `Codec.ShortenedExists` | pmon/debug.c:540-560 | there is such a message |
| `Blocks.UnitsAreConserved` | lib/malloc.c:24-94 | the sizes of any blocks add up to the units that belong to them |
| `Blocks.FreePlusLiveIsObtained` | lib/malloc.c:24-94 | in a good heap whose blocks hold the units recorded as obtained, the free and the live blocks add up to their number |
| `Blocks.ServedObtains` | lib/malloc.c:48-71 | a request adds to the units obtained exactly those that the break passed |
| `Blocks.WalkMeetsEveryBlock` | lib/malloc.c:36-50 | following the ring from any free block meets every free block |
| `Blocks.FreedKeepsShape` | lib/malloc.c:74-94 | freeing at its place, with either, both or no neighbour joined, keeps the ring ordered, coalesced and tiling |
| `Blocks.FreedTouchesNoLiveBlock` | lib/malloc.c:74-94 | freeing writes no word of another live block |
| `Blocks.AllocatedIsGood` | lib/malloc.c:36-47 | unlinking a block or cutting its tail off keeps the heap good |
| `Blocks.GrownIsGood` | lib/malloc.c:54-71 | memory obtained joins the heap as one more block |
| `Blocks.SearchExhausted` | lib/malloc.c:36-51 | a search that comes round has seen every free block too small |
| `Heap.Heap.Sbrk` | pmon/sbrk.c:38-54 | units are handed out upward until the top, or refused with nothing changed |
| `Heap.Heap.FindPlace` | lib/malloc.c:79-82 | the loop ends at the free block after which the freed one belongs |
| `Heap.Heap.Free` | lib/malloc.c:74-94 | the block leaves the live ones, nothing else changes, the heap stays valid, and free and live units still add up to those obtained |
| `Heap.Heap.MoreCore` | lib/malloc.c:54-71 | either a block of the rounded size is added and joined and its units recorded as obtained, or sbrk refused and nothing changed |
| `Heap.Heap.Search` | lib/malloc.c:36-51 | the search serves the request, after at most one call for more memory, and fails only when that is refused |
| `Heap.Heap.Malloc` | lib/malloc.c:24-52 | fails only if no free block was big enough and sbrk refused; otherwise gives a new live block of at least the bytes asked for; the units obtained are those the break passed, and free and live units add up to them |
| `Heap.ServeOne` | lib/malloc.c:24-94 | one request keeps the heap valid, the live blocks those held, and every unit obtained in a free or a live block |
| `Heap.Serve` | lib/malloc.c:24-94 | the same over any sequence of requests: free and live units together are those by which the break has moved, less what other callers of sbrk took |
| `Bytes.SwapBytes` | lib/qsort.c:81-88 | the byte loop exchanges the two ranges and touches nothing else |
| `Bytes.BytesSwappedSwapsElements` | lib/qsort.c:81-88 | exchanging bytes exchanges the elements they make up |
| `Bytes.BubbleByte` | lib/qsort.c:268-275 | one column of bytes is shifted by one element |
| `Bytes.Rotate` | lib/qsort.c:268-275 | shifting every column rotates the run of elements |
| `Qsort.FindSlot` | lib/qsort.c:266-268 | the slot is where the element keeps the sorted front sorted |
| `Qsort.InsertionSort` | lib/qsort.c:249-279 | the range is sorted, a permutation of itself, and nothing outside changes |
| `Qsort.Median` | lib/qsort.c:139-154 | the element chosen is between the other two |
| `Qsort.Separate` | lib/qsort.c:156-188 | the range is split around the pivot, which may move, and is untouched if nothing was swapped |
| `Qsort.SortSides` | lib/qsort.c:206-245 | only the smaller side is sorted by recursion |
| `Qsort.QuickSort` | lib/qsort.c:114-247 | the range is sorted and a permutation, terminates, and 2 to the recursion depth is at most the count |
| `Qsort.Qsort` | lib/qsort.c:57-72 | the elements end up sorted and are the same elements, for every size, count and consistent comparator |
| `Pointers.SortPointers` | pmon/sym.c:107-111 | sorting the four-byte elements of a list of pointers gives the same pointers in the comparator's order |
| `Breakpoints.LiftAt` | pmon/go.c:674-688 | what lifting any entries leaves at each address |
| `Breakpoints.PlantAt` | pmon/go.c:1062-1090 | what planting any entries leaves at each address |
| `Breakpoints.PlantSaves` | pmon/go.c:1062-1090 | the first entry at an address saves the client's word |
| `Breakpoints.BreakIsSaved` | pmon/go.c:1062-1090 | a BREAK already in memory is saved as if it were the client's |
| `Breakpoints.LiftRestoresIff` | pmon/go.c:674-688 | lifting recovers the client's memory exactly when the first real word saved at each patched address is the client's |
| `Control.Patcher.ClrBpt` | pmon/go.c:350-369 | the one entry like this is taken out, and nothing else changes |
| `Control.Patcher.SetBpt` | pmon/go.c:405-454 | the entry is in the table once, unless there is no place or the hardware refuses; no other entry changes, and every place keeps its saved word |
| `Control.Patcher.RmBptsInPlace` | pmon/go.c:674-688 | the loop lifts the temporary breakpoint, the table and the step breakpoints, in that order |
| `Control.Patcher.RemoveTraceBreakpoint` | pmon/go.c:1107-1115 | the step breakpoints are lifted and forgotten |
| `Control.Patcher.StoreTraceBreakpoint` | pmon/go.c:1095-1105 | the step breakpoints are planted in order |
| `Control.Patcher.Dedupe` | pmon/go.c:1066-1077 | a temporary or step breakpoint is dropped where an earlier entry has its address |
| `Control.Patcher.StoreTable` | pmon/go.c:1079-1083 | the table is planted in order |
| `Control.Patcher.StoreBreakpointInPlace` | pmon/go.c:1062-1090 | the whole of store_breakpoint |
| `Control.StoreTraceLayers` | pmon/go.c:1095-1105 | planting the step breakpoints over patched memory saves what was there |
| `Control.RemoveTraceUnlayers` | pmon/go.c:1107-1115 | lifting them gives the patched memory back |
| `Control.StorePlainRemembers` | pmon/go.c:1062-1090 | planting the table and the temporary breakpoint patches exactly their addresses and saves every word lost |
| `Control.RmWhilePlain` | pmon/go.c:674-688 | taking everything out while the table is planted restores the client's memory |
| `Control.RmWhileStepping` | pmon/go.c:674-688 | while only step breakpoints are planted it does so exactly when no unplanted entry at a step target is stale |
| `Control.RmAfterCommand` | pmon/go.c:674-688 | after any command has changed the table and written memory, it does so exactly when, at each planted address not written, the first real word now saved is the client's |
| `Control.RmWhenClean` | pmon/main.c:91 | on clean memory it changes nothing |
| `Control.StoppingClean` | pmon/go.c:1043-1057 | stopping with clean memory stays clean, whatever the stop command does |
| `Control.ObeyingAny` | pmon/go.c:1055-1056 | running the stop command, or what is left of it, with memory patched anywhere keeps the invariant or gives memory back, exactly when it does not spoil it |
| `Control.StoppingAny` | pmon/go.c:1043-1057 | stopping with memory patched anywhere keeps the invariant or gives memory back, exactly when the stop command does not spoil it |
| `Control.StartedOverBreak` | pmon/go.c:711-728 | a client started over a BREAK runs without the invariant |
| `Control.StoreOverLoses` | pmon/go.c:1079-1088 | planting everything over a BREAK leaves no entry with any other word for it |
| `Control.StoppingPatched` | pmon/go.c:913-918 | stopping with everything planted, on a trap that is no breakpoint, is clean exactly when the trap does not leak |
| `Control.InexactIsSound` | pmon/go.c:874-886 | stepping over an inexact watchpoint plants over the planted table |
| `Control.SteppedOver` | pmon/go.c:888-899 | and leaves the table planted as before |
| `Control.TrapIsSound` | pmon/go.c:854-1038 | every trap in every mode keeps the invariant or gives memory back, exactly when it does not leak |
| `Control.ExitIsSound` | pmon/mips.S:555-591 | a client exit into the command loop or the debugger gives memory back exactly when nothing is planted, and one into main exactly when no stale entry is at a step target |
| `Control.ExitToStopIsSound` | pmon/mips.S:580-586 | an exit of a client that the stop command started returns into stop(), and gives memory back exactly when the commands behind do not spoil it |
| `Control.NothingBehind` | pmon/go.c:1055-1056 | with no command behind, such an exit gives memory back exactly when no stale entry is at a step target |
| `Control.CommandIsSound` | pmon/go.c:120-211 | starting the client by any command or request keeps the invariant |
| `Control.StepIsSound` | pmon/go.c:711-1057 | every step of the machine keeps the invariant while the client runs, and hands over the client's memory exactly when it does not leak |
| `Control.RunKeepsInv` | pmon/go.c:711-1057 | over every run without a leak |
| `Control.MemoryIsGivenBack` | pmon/go.c:711-1057 | over every run from power-up, memory is the client's at each return to the monitor, and accounted for while the client runs, exactly until the first leak |
| `Control.ExitLeavesBreak` | pmon/go.c:184-190 | a run in which it is not: one breakpoint, go, exit |
| `Control.StepRestoresStaleWord` | pmon/go.c:907-911 | another: a breakpoint, a change under it, and a debugger step onto it |
| `Control.StopCommandLeavesBreak` | pmon/go.c:913-918 | another: one breakpoint, go, a trap that is no breakpoint, and a stop command that deletes it |
| `Control.DeletedBehindGo` | pmon/go.c:1055-1056 | another: one breakpoint, go, a stop command that starts the client again, and an exit with a command behind that deletes it; with none behind, memory is given back |
| `Control.LostStays` | pmon/go.c:674-1115 | every step that puts no word at the address, and no entry with one, leaves a lost word lost |
| `Control.LostForGood` | pmon/go.c:674-1115 | so does every run of such steps |
| `Distbl.Scan` | pmon/machine.c:486-487 | the loop finds the first row that matches |
| `Distbl.Lookup.Get` | pmon/machine.c:474-491 | the cache never changes the answer |
| `Distbl.TableIsRight` | pmon/machine.c:5-368 | for every word, the first row that matches is of the kind that the word's fields say |
| `SingleStep.TargetIsRight` | pmon/machine.c:423-452 | the target computed is where the instruction goes when it transfers control |
| `SingleStep.StepStopsIff` | pmon/go.c:1246-1276 | the step breakpoints stop the program where it goes next, exactly unless it goes back to its own address or jumps to memory that takes no BREAK |
| `SingleStep.StepOverStops` | pmon/go.c:1246-1276 | stepping over a call stops at the address it links; anything else is stepped as before |
| `SingleStep.CallsAgree` | pmon/machine.c:454-472 | is_jal holds of exactly the instructions that link |
| `SingleStep.SelfBranchIsNotStopped` | pmon/go.c:1262-1264 | a branch to itself is not stopped |
| `SingleStep.JumpIntoRomIsNotStopped` | pmon/go.c:1269-1270 | a jump into memory that takes no BREAK is not stopped |
| `Parens.Strrpset` | lib/strrpset.c:5-22 | the rightmost character of the set, not the first of the string, with the parentheses after it even |
| `Parens.Strbalp` | lib/strbalp.c:5-34 | where the bracket that opens the string, of any of the four kinds, is balanced, or that it is not, or that there is none |
| `Numbers.ScanDigits` | lib/atob.c:95-111 | the numeral modulo the word, or nothing if a character is not a digit of the base |
| `Numbers.HexLiteral` | lib/atob.c:28-136 | a 0x literal means the same in every base |
| `Numbers.GetHex` | lib/atob.c:257-282 | the value of exactly that many hexadecimal digits, if they are there |
| `Expr.StripParens` | pmon/commands.c:989-993 | enclosing parentheses are dropped while they close each other |
| `Expr.GetRsaReg` | pmon/commands.c:980-1106 | the evaluator with its scans computes the function below |
| `Expr.Eval` | pmon/commands.c:980-1106 | a value that is given is below the word modulus |
| `Expr.OpIsRightmost` | pmon/commands.c:995-1035 | the operator of a tree is the one the evaluator splits its text at |
| `Expr.CompoundIsNotEnclosed` | pmon/commands.c:989-993 | a compound text is not taken for a parenthesised one |
| `Expr.EvalIsValue` | pmon/commands.c:980-1072 | any text with any parentheses that groups as a tree evaluates to the tree's value, in every base setting |
| `Expr.EvaluatorIsRight` | pmon/commands.c:980-1072 | the minimally parenthesised text of any tree evaluates to its value modulo the word, and fails exactly when some divisor comes to zero |
| `Expr.LetterNumbers` | pmon/commands.c:1074-1098 | a hexadecimal number that starts with a letter evaluates to itself; with symbols first, exactly if it is zero and no symbol has that name, or is what the variable for the result held and one has |
| `Expr.LetterNumberLost` | pmon/commands.c:1085-1093 | one that does not |
| `Expr.LetterSymbols` | pmon/commands.c:1074-1098 | a symbol whose name starts with such a letter evaluates to its value with numbers first, unless it is one; with symbols first, to what the variable for the result held |
| `Expr.LetterSymbolLost` | pmon/commands.c:1085-1093 | one whose value is lost |
| `Calendar.SplitDays` | pmon/time.c:107-117 | whole days and a rest inside one day, for every time and offset |
| `Calendar.FindYear` | pmon/time.c:125-139 | the year that holds the day, before or after 1970 |
| `Calendar.FindMonth` | pmon/time.c:142-144 | the month that holds the day |
| `Calendar.Offtime` | pmon/time.c:96-149 | every field in range, and together they denote the time |
| `Calendar.DenotesOnce` | pmon/time.c:96-149 | a time has one broken-down form |
| `Calendar.GmMkTime` | pmon/time.c:565-595 | the seconds of the date, or -1 for the dates refused |
| `Calendar.SecondsRoundTrip` | pmon/time.c:151-158 | gmtime then gmmktime is the identity on every time from 1970 on |
| `Calendar.DateRoundTrip` | pmon/time.c:565-595 | gmmktime then gmtime gives back every normalised date from 1970 on |
| `Calendar.ZellerIsWeekDay` | pmon/time.c:372-379 | Zeller's congruence gives the week day that counting days gives, for every year and month |
| `Calendar.PickDay` | pmon/time.c:386-394 | the day found is the n-th of its week day, or the last |
| `Calendar.NthOnce` | pmon/time.c:386-394 | there is only one such day |
| `Calendar.NthMeans` | pmon/time.c:386-394 | it is the n-th up to the fourth, and the last for the fifth |
| `Calendar.TransTime` | pmon/time.c:323-410 | the transition is on the day that the rule names, at its time |
| `Calendar.JulianSkipsLeapDay` | pmon/time.c:338-349 | a Julian day rule names the same date in every year |
| `Symbols.HashName` | pmon/sym.c:41-54 | the loop computes the hash, which has 28 bits |
| `Symbols.WalkChain` | pmon/sym.c:130-133 | the walk finds the name on the chain if it is there; of two empty names, if what lies behind them agrees |
| `Symbols.FindName` | pmon/sym.c:120-135 | and on the chain of its bucket it is there if any symbol has the name |
| `Symbols.Gather` | pmon/sym.c:99-102 | the list of all chains |
| `Symbols.SearchChains` | pmon/sym.c:152-163 | the long search finds a closest symbol |
| `Symbols.SearchList` | pmon/sym.c:167-190 | so does the binary search |
| `Symbols.ClosestAgree` | pmon/sym.c:141-191 | any two closest symbols have the same value |
| `Symbols.StrcmpFlips` | pmon/sym.c:67-71 | comparing names is antisymmetric and zero only for equal names |
| `Symbols.StrcmpChains` | pmon/sym.c:67-71 | and transitive |
| `Symbols.HashedMore` | pmon/sym.c:221-225 | a new symbol at the head of its bucket keeps every symbol on its chain once |
| `Symbols.SymTab.constructor` | pmon/sym.c:20-34 | the empty table is valid |
| `Symbols.SymTab.NewSym` | pmon/sym.c:194-231 | binds the name to the value and changes no other name, or for want of memory changes no binding; the value is the only one unless the name is empty and an empty one was not recognised; the table stays valid |
| `Symbols.SymTab.ClrSyms` | pmon/sym.c:235-253 | no symbol is left, and the table is valid |
| `Symbols.SymTab.GetSort` | pmon/sym.c:86-114 | a list kept from before is given as it is, else one is made, or without memory the other one taken over if there is one; it is a sorted permutation of the symbols |
| `Symbols.SymTab.GetSymByName` | pmon/sym.c:120-135 | lookup by name refines the table of bindings, for every name but an empty one that is not recognised |
| `Symbols.SymTab.GetSymByValue` | pmon/sym.c:141-191 | the symbol found is a closest one, with or without memory for the list |
| `LoadGuard.AcceptedIsLoadable` | pmon/loadfn.c:68-112 | every byte of an accepted range is in an unmapped segment, below the end of memory, and outside the PROM and the monitor, in spite of wrap-around |
| `LoadGuard.GuardIsExact` | pmon/loadfn.c:68-112 | a range is accepted exactly when each of its bytes is such |
| `LoadGuard.AcceptedIsPlaced` | pmon/loadfn.c:106-109 | and is inside the range recorded |
| `SRecord.Loader.CheckLoadAddr` | pmon/loadfn.c:68-112 | the answer of the guard and the range recorded |
| `SRecord.ReadFront` | pmon/loadfn.c:155-190 | the length and address read, or the code for what is wrong with them |
| `SRecord.Loader.StoreData` | pmon/loadfn.c:197-203 | bytes are stored in order up to the first that cannot be read |
| `SRecord.Loader.DataRec` | pmon/loadfn.c:143-212 | nothing is stored outside the allowed memory whatever the text; a record that encodes bytes stores them and is accepted exactly if its checksum is right |
| `SRecord.Loader.EndRec` | pmon/loadfn.c:267-279 | the entry point, or the marker |
| `SRecord.Loader.S3Load` | pmon/loadfn.c:285-306 | the same for every kind of record |
| `SRecord.HexOfBytes` | pmon/commands.c:676 | the digits of an address are the digits of its bytes |
| `SRecord.SumAddress` | pmon/commands.c:673-675 | the address part of the checksum |
| `SRecord.DumpRecord` | pmon/commands.c:669-685 | the line printed is the record of the bytes with its checksum |
| `SRecord.TextEncodes` | pmon/loadfn.c:155-212 | a printed record reads back as the bytes it was printed from |
| `SRecord.DumpLines` | pmon/commands.c:668-690 | the lines print all the bytes in order, at most 32 a line, the end line last |
| `SRecord.LoadEncoded` | pmon/loadfn.c:143-212 | a well-formed record is accepted exactly if its checksum is right |
| `SRecord.DumpAndLoad` | pmon/loadfn.c:285-306 | loading a dump of loadable addresses accepts every line, ends, and stores exactly the dumped bytes where they came from |
| `SRecord.LoadAltered` | pmon/loadfn.c:205-208 | a line with one data byte changed is reported as a bad checksum |
| `FastLoad.SpellOut` | pmon/loadfn.c:348-356 | the number that base-64 digits spell, or none |
| `FastLoad.FastLoader.GetB64` | pmon/loadfn.c:342-370 | the number and what it adds to the checksum |
| `FastLoad.FastLoader.Write` | pmon/loadfn.c:437-454 | bytes are stored from the next address on if the guard accepts them |
| `FastLoad.FastLoader.ZeroFill` | pmon/loadfn.c:429-442 | three zero bytes for each count |
| `FastLoad.FastLoader.OneByte` | pmon/loadfn.c:443-454 | one byte |
| `FastLoad.FastLoader.ThreeBytes` | pmon/loadfn.c:495-507 | three bytes, the high one first |
| `FastLoad.FastLoader.Load` | pmon/loadfn.c:394-512 | the state, the code and the count are those of the records played in turn; and whatever the text, every byte is stored where it may be, with the memory there then is, and inside the range recorded |
| `FastLoad.TextStored` | pmon/loadfn.c:495-507 | loading the data records of any bytes to loadable addresses accepts every record and stores exactly those bytes in order |
| `Bits.PowerOfTwoTest` | lib/queue.c:54 | the test for a power of two is right |
| `Bits.AndFolds` | lib/queue.c:77 | masking with the limit folds an index back into the ring |
| `Watch.CalcMask` | pmon/watch.c:304-323 | the least mask of ones whose aligned block holds both ends of the range; all ones for a range of one address |
| `Watch.MaskCovers` | pmon/rm7kwatch.c:102-118 | the register made from it stands for every word of the range, also across the two unmapped segments |
| `Watch.CoveredIsCaught` | pmon/rm7kwatch.c:154-169 | with any wider mask shared it still matches every word of the range |
| `Watch.Rm7000.constructor` | pmon/rm7kwatch.c:180-187 | no point is set |
| `Watch.Rm7000.Set` | pmon/watch.c:220-259 | which slot is filled, with what, and when the request is refused; every point that is set stays covered; a refused one keeps its register image |
| `Watch.RefusedIsWatched` | pmon/watch.c:246-252 | after a request that the debug host refuses and an insert, every access that was to be watched hits |
| `Watch.Rm7000.Clear` | pmon/watch.c:265-280 | the first point of that kind and place is taken out with its register image, and the other stays as it was and covered |
| `Watch.Rm7000.Insert` | pmon/rm7kwatch.c:142-177 | every access of a watched kind to a word of a point that is set hits its register |
| `RxQueue.Create` | lib/queue.c:47-65 | a queue exactly for a power of two or zero, if there is memory; one that can be used exactly if the size is not zero |
| `RxQueue.Queue.Put` | lib/queue.c:70-79 | the message goes to the end; while the queue is full nothing happens |
| `RxQueue.Queue.Get` | lib/queue.c:84-97 | the oldest message is taken; while the queue is empty nothing happens |
| `RxQueue.Queue.Peek` | lib/queue.c:123-131 | the message at a place, or zero |
| `RxQueue.Device.Accept` | lib/termio.c:248-256 | a character is queued or lost, and the sender stopped, as the step below says |
| `RxQueue.Device.Scan` | lib/termio.c:223-257 | every character that is ready goes through that step |
| `RxQueue.Device.ReadOne` | lib/termio.c:568-573 | the oldest character, the sender let go on when little is queued |
| `RxQueue.Device.FlushInput` | lib/termio.c:292-300 | the queue is emptied and the sender let go on |
| `RxQueue.ReceiveKeeps` | lib/termio.c:223-257 | a character from a sender that keeps to its part is never lost |
| `RxQueue.NoOverrun` | lib/termio.c:215-258 | over every interleaving of arrivals, reads and flushes, nothing is lost and characters come out in order |
| `RxQueue.OneTooMany` | lib/termio.c:248-256 | on the smallest queue one character more is lost |

## Left out

- The network, the disassembler, the command history and shell, the device drivers and the environment are not part of this model: it is about the debugger, the downloaders and the library under them.
- The symbol records of both download formats: that the symbol is added is a parameter of the loaders.
- Printing, clocks, interrupts and what the host says are parameters or are not modelled; a signal on the interrupt character is only the character not being queued.
- Rebooting, profiling and the stop conditions of a multiple step: whether one holds is an input of the trap.
- Control.StepIsSound: the step targets are inputs here, so it holds for any choice of them; which they are is the subject of SingleStep. It assumes that the client has no BREAK of its own at an address in the tables and does not write over a planted one, and that table entries name memory that exists. A stop command may change the table, write memory and start the client by g, c or a step command, and so may the commands behind a g; one that enters the remote debug mode, and a start that is refused because no step breakpoint can be set, are not modelled.
- Control.ExitIsSound: the stack frames that a saved jump buffer returns into are taken as intact, as in Control.ExitToStopIsSound; a trap that resumes the client has run on the same stack (pmon/mips.S:1416).
- Control.CommandIsSound: any change of the breakpoint table between runs is one event, of which setbpt, clrbpt and clrbpts are cases.
- SingleStep.StepStopsIff: registers and addresses are 32-bit; it is about instructions that complete, without a branch in a delay slot, and about the table without the LR33000 and LR33020 rows.
- Expr.EvaluatorIsRight: the text has no length limit, where the original cuts the left operand into a buffer of one line.
- Calendar.Offtime: times are unbounded, where the original's are 32-bit; Calendar.TransTime takes years from 1 on for month rules, as Zeller's formula is not for earlier ones.
- Pointers.SortPointers: pointers are unbounded; the first of their four bytes is one as long as they are below 2^32.
- Symbols.SymTab.NewSym: what lies behind two empty names is an input, here and in Symbols.SymTab.GetSymByName. The longest name's length is not kept.
- Heap.Heap.Malloc: addresses and sizes are in units of the header; the pointer given is the header's.
- Codec.AlteredIsDamaged: characters are of seven bits; one that turns into a SYN starts a new packet there, and a SYN that is lost makes the decoder wait for the next one.
- SRecord.DumpAndLoad: the dumped memory is given as the list of its bytes, and the checksum so far is local to a record.
- SRecord.Loader.EndRec: an end record shorter than its address field reads as one without an address.
- Watch.Rm7000.Set: cover is promised for ranges that end below 2^32; physical addresses given separately are not modelled, since every caller passes none (pmon/go.c:424 and 536). A shift by the width of the word, which C leaves open, is taken as the machine's.
- Watch.Rm7000.Insert: the rule by which the processor matches addresses is an assumption of the model, written out in Hits.
- RxQueue.Queue.Put: the wait of a full queue, and that of an empty one in RxQueue.Queue.Get, is one turn that does nothing; whether it ends is up to the rest of the program.
- RxQueue.NoOverrun: the characters sent to stop and start the sender are not modelled; that it stops in time is the assumption.
- Link.DeliveryExactlyOnce: the order of packets on the line is kept, as a serial line does; that sends and receives end at all is not claimed. Damage is reported as damage; Codec says of which characters that is so.
