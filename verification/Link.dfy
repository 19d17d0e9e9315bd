/** The stop-and-wait message link of the remote debugger (pmon/debug.c).

    Two ends exchange messages with putmsg and getmsg. Each waits inside a loop
    for whatever getpkt reports next: a packet, a damaged packet or a timeout.
    The step functions below say what one such report does to an end; the class
    `Endpoint` runs them in the loops the program uses, and `Run` lets two ends
    interleave them over channels that lose and damage packets. */
module Link {

  // ------------------------------------------------------------ one end

  /** A message text, as character codes. */
  type Text = seq<int>

  datatype Packet = Data(num: int, msg: Text) | Ack(num: int)

  /** What one call of getpkt reports: a packet, -1 (damaged) or -2 (timeout). */
  datatype Arrival = Got(pkt: Packet) | Damaged | TimedOut

  /** The three statics txseq, rxseq and lastwasget. */
  datatype Regs = Regs(txseq: int, rxseq: int, lastWasGet: bool)

  /** The 6-bit successor `(x + 1) & 63`. */
  function NextSeq(x: int): int {
    if x == 63 then 0 else x + 1
  }

  /** What putmsg transmits when it (re)sends, after a timeout or otherwise. */
  function Resend(r: Regs, msg: Text, afterTimeout: bool): seq<Packet> {
    if afterTimeout && r.lastWasGet then [Ack(r.rxseq), Data(r.txseq, msg)] else [Data(r.txseq, msg)]
  }

  /** Does this report end putmsg's wait? */
  predicate Acknowledges(r: Regs, a: Arrival) {
    a == Got(Ack(NextSeq(r.txseq)))
  }

  /** What putmsg transmits on a report that does not end its wait. */
  function PutReply(r: Regs, msg: Text, a: Arrival): seq<Packet> {
    if a.TimedOut? then Resend(r, msg, true)
    else if a == Got(Ack(r.txseq)) then Resend(r, msg, false)
    else []
  }

  function PutDone(r: Regs): Regs {
    Regs(NextSeq(r.txseq), r.rxseq, false)
  }

  /** Does this report end getmsg's wait? */
  predicate Delivers(r: Regs, a: Arrival) {
    a.Got? && a.pkt.Data? && a.pkt.num == r.rxseq
  }

  function GetReply(r: Regs, a: Arrival): seq<Packet> {
    if a.Got? then [] else [Ack(r.rxseq)]
  }

  function GetDone(r: Regs): Regs {
    Regs(r.txseq, NextSeq(r.rxseq), true)
  }

  // ------------------------------------------------------------ the loops

  /** Everything putmsg transmits in answer to reports none of which ends its wait. */
  function PutReplies(r: Regs, msg: Text, arrivals: seq<Arrival>): seq<Packet> {
    if arrivals == [] then []
    else PutReplies(r, msg, arrivals[..|arrivals| - 1]) + PutReply(r, msg, arrivals[|arrivals| - 1])
  }

  function GetReplies(r: Regs, arrivals: seq<Arrival>): seq<Packet> {
    if arrivals == [] then []
    else GetReplies(r, arrivals[..|arrivals| - 1]) + GetReply(r, arrivals[|arrivals| - 1])
  }

  class Endpoint {
    var txseq: int
    var rxseq: int
    var lastWasGet: bool

    function State(): Regs
      reads this
    {
      Regs(txseq, rxseq, lastWasGet)
    }

    constructor ()
      ensures State() == Regs(0, 0, false)
    {
      txseq, rxseq, lastWasGet := 0, 0, false;
    }

    /** putmsg against the reports getpkt will make. It consumes exactly the reports
        up to and including the first acknowledgement of the current message; if the
        reports run out first it is still waiting and has changed nothing. */
    method PutMsg(msg: Text, arrivals: seq<Arrival>) returns (sent: seq<Packet>, used: nat, done: bool)
      modifies this
      ensures used <= |arrivals|
      ensures forall i :: 0 <= i < used - (if done then 1 else 0) ==> !Acknowledges(old(State()), arrivals[i])
      ensures done ==> used > 0 && Acknowledges(old(State()), arrivals[used - 1])
      ensures !done ==> used == |arrivals|
      ensures State() == if done then PutDone(old(State())) else old(State())
      ensures sent == Resend(old(State()), msg, false)
                      + PutReplies(old(State()), msg, arrivals[..used - (if done then 1 else 0)])
    {
      ghost var r := State();
      var ns := NextSeq(txseq);
      sent, used, done := [Data(txseq, msg)], 0, false;
      ghost var replies := [];
      while used < |arrivals|
        invariant used <= |arrivals| && !done && State() == r
        invariant forall i :: 0 <= i < used ==> !Acknowledges(r, arrivals[i])
        invariant replies == PutReplies(r, msg, arrivals[..used])
        invariant sent == Resend(r, msg, false) + replies
      {
        var a := arrivals[used];
        assert arrivals[..used + 1][..used] == arrivals[..used];
        used := used + 1;
        if a == Got(Ack(ns)) {
          txseq, lastWasGet, done := ns, false, true;
          return;
        }
        if a.TimedOut? {
          if lastWasGet {
            sent := sent + [Ack(rxseq)];
          }
          sent := sent + [Data(txseq, msg)];
        } else if a == Got(Ack(txseq)) {
          sent := sent + [Data(txseq, msg)];
        }
        replies := replies + PutReply(r, msg, a);
      }
      assert arrivals[..used] == arrivals;
    }

    /** getmsg against the reports getpkt will make. */
    method GetMsg(arrivals: seq<Arrival>) returns (sent: seq<Packet>, used: nat, done: bool, msg: Text)
      modifies this
      ensures used <= |arrivals|
      ensures forall i :: 0 <= i < used - (if done then 1 else 0) ==> !Delivers(old(State()), arrivals[i])
      ensures done ==> used > 0 && arrivals[used - 1] == Got(Data(old(rxseq), msg))
      ensures !done ==> used == |arrivals|
      ensures State() == if done then GetDone(old(State())) else old(State())
      ensures sent == GetReplies(old(State()), arrivals[..used - (if done then 1 else 0)])
                      + (if done then [Ack(rxseq)] else [])
    {
      sent, used, done, msg := [], 0, false, [];
      while used < |arrivals|
        invariant used <= |arrivals| && !done
        invariant State() == old(State())
        invariant forall i :: 0 <= i < used ==> !Delivers(State(), arrivals[i])
        invariant sent == GetReplies(State(), arrivals[..used])
      {
        var a := arrivals[used];
        assert arrivals[..used + 1][..used] == arrivals[..used];
        used := used + 1;
        if a.Got? && a.pkt.Data? && a.pkt.num == rxseq {
          msg, done := a.pkt.msg, true;
          rxseq := NextSeq(rxseq);
          sent := sent + [Ack(rxseq)];
          lastWasGet := true;
          return;
        }
        if !a.Got? {
          sent := sent + [Ack(rxseq)];
        }
      }
      assert arrivals[..used] == arrivals;
    }
  }

  // ------------------------------------------------------------ two ends

  /** An end between calls, inside putmsg, or inside getmsg. */
  datatype Activity = Idle | Putting(msg: Text) | Getting

  /** An end with its history: every message handed to putmsg, how many putmsg calls
      returned, and every message getmsg returned. */
  datatype End = End(regs: Regs, act: Activity, handed: seq<Text>, completed: nat, accepted: seq<Text>)

  /** Two ends and the FIFO channels between them, oldest packet first. */
  datatype System = System(a: End, b: End, ab: seq<Packet>, ba: seq<Packet>)

  /** One step of one end: begin a call, take the next packet of its incoming channel
      intact or damaged, take noise for a damaged packet, time out, or have the channel
      lose a packet it carries. */
  datatype Event = BeginPut(msg: Text) | BeginGet | Receive | Garble | Noise | Expire | Lose(at: nat)

  const START := End(Regs(0, 0, false), Idle, [], 0, [])
  const BOOT := System(START, START, [], [])

  function Swap(s: System): System {
    System(s.b, s.a, s.ba, s.ab)
  }

  /** End `a` handles one report of getpkt; an end that is in no call reads nothing. */
  function Handle(s: System, arr: Arrival): System {
    var e := s.a;
    match e.act
    case Idle => s
    case Putting(m) =>
      if Acknowledges(e.regs, arr) then
        s.(a := e.(regs := PutDone(e.regs), act := Idle, completed := e.completed + 1))
      else
        s.(ab := s.ab + PutReply(e.regs, m, arr))
    case Getting =>
      if Delivers(e.regs, arr) then
        var r := GetDone(e.regs);
        s.(a := e.(regs := r, act := Idle, accepted := e.accepted + [arr.pkt.msg]), ab := s.ab + [Ack(r.rxseq)])
      else
        s.(ab := s.ab + GetReply(e.regs, arr))
  }

  /** End `a` handles several reports in turn. */
  function HandleAll(s: System, arrs: seq<Arrival>): System {
    if arrs == [] then s else Handle(HandleAll(s, arrs[..|arrs| - 1]), arrs[|arrs| - 1])
  }

  /** What `Endpoint.PutMsg` sends while it waits is what the steps of a run send. */
  lemma {:induction false} PutMsgTakesSteps(s: System, arrs: seq<Arrival>)
    requires s.a.act.Putting?
    requires forall i :: 0 <= i < |arrs| ==> !Acknowledges(s.a.regs, arrs[i])
    ensures HandleAll(s, arrs) == s.(ab := s.ab + PutReplies(s.a.regs, s.a.act.msg, arrs))
  {
    if arrs == [] {
      assert s.ab + [] == s.ab;
    } else {
      PutMsgTakesSteps(s, arrs[..|arrs| - 1]);
    }
  }

  lemma {:induction false} GetMsgTakesSteps(s: System, arrs: seq<Arrival>)
    requires s.a.act.Getting?
    requires forall i :: 0 <= i < |arrs| ==> !Delivers(s.a.regs, arrs[i])
    ensures HandleAll(s, arrs) == s.(ab := s.ab + GetReplies(s.a.regs, arrs))
  {
    if arrs == [] {
      assert s.ab + [] == s.ab;
    } else {
      GetMsgTakesSteps(s, arrs[..|arrs| - 1]);
    }
  }

  /** An event of end `a`; one that is not possible in `s` leaves it unchanged. */
  function StepA(s: System, ev: Event): System {
    match ev
    case BeginPut(m) =>
      if s.a.act.Idle? then
        s.(a := s.a.(act := Putting(m), handed := s.a.handed + [m]), ab := s.ab + Resend(s.a.regs, m, false))
      else s
    case BeginGet => if s.a.act.Idle? then s.(a := s.a.(act := Getting)) else s
    case Receive => if s.a.act.Idle? || s.ba == [] then s else Handle(s.(ba := s.ba[1..]), Got(s.ba[0]))
    case Garble => if s.a.act.Idle? || s.ba == [] then s else Handle(s.(ba := s.ba[1..]), Damaged)
    case Noise => Handle(s, Damaged)
    case Expire => Handle(s, TimedOut)
    case Lose(i) => if i < |s.ab| then s.(ab := s.ab[..i] + s.ab[i + 1..]) else s
  }

  /** Every interleaving of the two ends is a sequence of (which end, event). */
  function Step(s: System, who: bool, ev: Event): System {
    if who then StepA(s, ev) else Swap(StepA(Swap(s), ev))
  }

  function Run(events: seq<(bool, Event)>): System {
    if events == [] then BOOT
    else
      var last := events[|events| - 1];
      Step(Run(events[..|events| - 1]), last.0, last.1)
  }

  // ------------------------------------------------------------ the invariant

  /** What the channel from `x` to `y` may hold: copies of the message `y` is waiting
      for, behind copies of the one it accepted last. */
  ghost predicate DataWindow(x: End, y: End, xy: seq<Packet>) {
    var k := |y.accepted|;
    && (forall p <- xy | p.Data? ::
          || (p.num == y.regs.rxseq && k == x.completed < |x.handed| && p.msg == x.handed[k])
          || (NextSeq(p.num) == y.regs.rxseq && 0 <= p.num < 64 && 0 < k <= |x.handed| && p.msg == x.handed[k - 1]))
    && (forall i, j :: 0 <= i < j < |xy| && xy[i].Data? && xy[j].Data? && xy[i].num == y.regs.rxseq ==>
          xy[j].num == y.regs.rxseq)
  }

  /** What the channel back to `x` may hold: copies of the acknowledgement `x` waits
      for, behind copies of the previous one. */
  ghost predicate AckWindow(x: End, y: End, yx: seq<Packet>) {
    var ns := NextSeq(x.regs.txseq);
    && (forall p <- yx | p.Ack? :: p.num == x.regs.txseq || (p.num == ns && |y.accepted| == x.completed + 1))
    && (forall i, j :: 0 <= i < j < |yx| && yx[i].Ack? && yx[j].Ack? && yx[i].num == ns ==> yx[j].num == ns)
  }

  /** The 6-bit sequence number of the n-th message. */
  function Seq6(n: nat): int {
    if n == 0 then 0 else NextSeq(Seq6(n - 1))
  }

  lemma {:induction false} Seq6IsLowBits(n: nat)
    ensures Seq6(n) == n % 64
  {
    if n > 0 {
      Seq6IsLowBits(n - 1);
      assert n - 1 == (n - 1) / 64 * 64 + (n - 1) % 64;
    }
  }

  ghost predicate Counters(x: End, y: End) {
    && |x.handed| == x.completed + (if x.act.Putting? then 1 else 0)
    && (x.act.Putting? ==> x.act.msg == x.handed[x.completed])
    && x.completed <= |y.accepted| <= x.completed + 1
    && y.accepted <= x.handed
    && 0 <= x.regs.txseq < 64 && x.regs.txseq == Seq6(x.completed)
    && 0 <= y.regs.rxseq < 64 && y.regs.rxseq == Seq6(|y.accepted|)
  }

  /** Everything about messages travelling from `x` to `y`. */
  ghost predicate OneWay(x: End, y: End, xy: seq<Packet>, yx: seq<Packet>) {
    Counters(x, y) && DataWindow(x, y, xy) && AckWindow(x, y, yx)
  }

  ghost predicate Inv(s: System) {
    OneWay(s.a, s.b, s.ab, s.ba) && OneWay(s.b, s.a, s.ba, s.ab)
  }

  /** Losing any packet keeps both windows. */
  lemma {:induction false} LosingKeepsWindows(x: End, y: End, ch: seq<Packet>, i: nat)
    requires i < |ch|
    ensures DataWindow(x, y, ch) ==> DataWindow(x, y, ch[..i] + ch[i + 1..])
    ensures AckWindow(x, y, ch) ==> AckWindow(x, y, ch[..i] + ch[i + 1..])
  {
    var shorter := ch[..i] + ch[i + 1..];
    assert forall j :: 0 <= j < |shorter| ==> shorter[j] == ch[if j < i then j else j + 1];
  }

  lemma {:induction false} LosingKeepsOneWay(x: End, y: End, xy: seq<Packet>, yx: seq<Packet>, i: nat)
    requires OneWay(x, y, xy, yx)
    ensures i < |xy| ==> OneWay(x, y, xy[..i] + xy[i + 1..], yx)
    ensures i < |yx| ==> OneWay(x, y, xy, yx[..i] + yx[i + 1..])
  {
    if i < |xy| {
      LosingKeepsWindows(x, y, xy, i);
    }
    if i < |yx| {
      LosingKeepsWindows(x, y, yx, i);
    }
  }

  lemma {:induction false} LosingKeepsInv(s: System, i: nat)
    requires Inv(s) && i < |s.ab|
    ensures Inv(s.(ab := s.ab[..i] + s.ab[i + 1..]))
  {
    LosingKeepsOneWay(s.a, s.b, s.ab, s.ba, i);
    LosingKeepsOneWay(s.b, s.a, s.ba, s.ab, i);
  }

  /** A packet is current when it is one its sender `x` would transmit now. */
  ghost predicate Current(x: End, p: Packet) {
    match p
    case Data(n, m) => x.act.Putting? && n == x.regs.txseq && m == x.act.msg
    case Ack(n) => n == x.regs.rxseq
  }

  lemma {:induction false} SendingDataKeepsWindow(x: End, y: End, xy: seq<Packet>, p: Packet)
    requires Counters(x, y) && DataWindow(x, y, xy) && Current(x, p)
    ensures DataWindow(x, y, xy + [p])
  {
    if p.Data? && |y.accepted| == x.completed + 1 {
      assert NextSeq(p.num) == y.regs.rxseq;
    }
  }

  lemma {:induction false} SendingAckKeepsWindow(x: End, y: End, yx: seq<Packet>, p: Packet)
    requires Counters(x, y) && AckWindow(x, y, yx) && Current(y, p)
    ensures AckWindow(x, y, yx + [p])
  {
    if p.Ack? && |y.accepted| == x.completed + 1 {
      assert p.num == NextSeq(x.regs.txseq);
    }
  }

  /** Transmitting current packets keeps the windows of both directions. */
  lemma {:induction false} SendingKeepsInv(s: System, ps: seq<Packet>)
    requires Inv(s)
    requires forall p <- ps :: Current(s.a, p)
    ensures Inv(s.(ab := s.ab + ps))
    decreases |ps|
  {
    if ps == [] {
      assert s.ab + ps == s.ab;
    } else {
      var t := s.(ab := s.ab + [ps[0]]);
      SendingDataKeepsWindow(s.a, s.b, s.ab, ps[0]);
      SendingAckKeepsWindow(s.b, s.a, s.ab, ps[0]);
      SendingKeepsInv(t, ps[1..]);
      assert s.ab + ps == t.ab + ps[1..];
    }
  }

  /** Accepting the head of the incoming channel moves the data window up by one. */
  lemma {:induction false} AcceptingKeepsInv(s: System, p: Packet)
    requires Inv(s) && s.ba != [] && p == s.ba[0]
    requires s.a.act.Getting? && Delivers(s.a.regs, Got(p))
    ensures Inv(Handle(s.(ba := s.ba[1..]), Got(p)))
  {
    var t := s.(a := s.a.(regs := GetDone(s.a.regs), act := Idle, accepted := s.a.accepted + [p.msg]), ba := s.ba[1..]);
    assert Counters(t.b, t.a);
    assert Inv(t);
    SendingKeepsInv(t, [Ack(t.a.regs.rxseq)]);
  }

  /** Taking the awaited acknowledgement moves the acknowledgement window up by one. */
  lemma {:induction false} CompletingKeepsInv(s: System)
    requires Inv(s) && s.ba != []
    requires s.a.act.Putting? && Acknowledges(s.a.regs, Got(s.ba[0]))
    ensures Inv(Handle(s.(ba := s.ba[1..]), Got(s.ba[0])))
  {
    TakingKeepsInv(s);
    assert |s.b.accepted| == s.a.completed + 1;
    var t := Handle(s.(ba := s.ba[1..]), Got(s.ba[0]));
    assert Counters(t.a, t.b) && Counters(t.b, t.a);
    assert AckWindow(t.a, t.b, t.ba);
    assert DataWindow(t.a, t.b, t.ab);
  }

  /** Any report that leaves the end in its call, whatever happened to the channel head. */
  lemma {:induction false} WaitingKeepsInv(s: System, arr: Arrival)
    requires Inv(s)
    requires s.a.act.Putting? ==> !Acknowledges(s.a.regs, arr)
    requires s.a.act.Getting? ==> !Delivers(s.a.regs, arr)
    ensures Inv(Handle(s, arr))
  {
    match s.a.act
    case Idle =>
    case Putting(m) => SendingKeepsInv(s, PutReply(s.a.regs, m, arr));
    case Getting => SendingKeepsInv(s, GetReply(s.a.regs, arr));
  }

  lemma {:induction false} TakingKeepsInv(s: System)
    requires Inv(s) && s.ba != []
    ensures Inv(s.(ba := s.ba[1..]))
  {
    LosingKeepsOneWay(s.b, s.a, s.ba, s.ab, 0);
    LosingKeepsOneWay(s.a, s.b, s.ab, s.ba, 0);
    assert s.ba[..0] + s.ba[1..] == s.ba[1..];
  }

  lemma {:induction false} ListeningKeepsInv(s: System)
    requires Inv(s) && s.a.act.Idle?
    ensures Inv(s.(a := s.a.(act := Getting)))
  {
  }

  lemma {:induction false} BeginningKeepsInv(s: System, m: Text)
    requires Inv(s) && s.a.act.Idle?
    ensures Inv(StepA(s, BeginPut(m)))
  {
    var t := s.(a := s.a.(act := Putting(m), handed := s.a.handed + [m]));
    assert Counters(t.a, t.b);
    assert Inv(t);
    SendingKeepsInv(t, Resend(t.a.regs, m, false));
  }

  lemma {:induction false} ReceivingKeepsInv(s: System)
    requires Inv(s) && s.ba != [] && !s.a.act.Idle?
    ensures Inv(Handle(s.(ba := s.ba[1..]), Got(s.ba[0])))
  {
    var arr := Got(s.ba[0]);
    if s.a.act.Getting? && Delivers(s.a.regs, arr) {
      AcceptingKeepsInv(s, s.ba[0]);
    } else if s.a.act.Putting? && Acknowledges(s.a.regs, arr) {
      CompletingKeepsInv(s);
    } else {
      TakingKeepsInv(s);
      WaitingKeepsInv(s.(ba := s.ba[1..]), arr);
    }
  }

  lemma {:induction false} StepKeepsInv(s: System, ev: Event)
    requires Inv(s)
    ensures Inv(StepA(s, ev))
  {
    match ev
    case BeginPut(m) => if s.a.act.Idle? { BeginningKeepsInv(s, m); }
    case BeginGet => if s.a.act.Idle? { ListeningKeepsInv(s); }
    case Receive =>
      if !s.a.act.Idle? && s.ba != [] {
        ReceivingKeepsInv(s);
      }
    case Garble =>
      if !s.a.act.Idle? && s.ba != [] {
        TakingKeepsInv(s);
        WaitingKeepsInv(s.(ba := s.ba[1..]), Damaged);
      }
    case Noise => WaitingKeepsInv(s, Damaged);
    case Expire => WaitingKeepsInv(s, TimedOut);
    case Lose(i) =>
      if i < |s.ab| {
        LosingKeepsInv(s, i);
      }
  }

  lemma {:induction false} RunKeepsInv(events: seq<(bool, Event)>)
    ensures Inv(Run(events))
  {
    if events != [] {
      var front := events[..|events| - 1];
      RunKeepsInv(front);
      StepKeepsInv(Run(front), events[|events| - 1].1);
      StepKeepsInv(Swap(Run(front)), events[|events| - 1].1);
    }
  }

  // ------------------------------------------------------------ the guarantee

  /** The messages `y` accepted are the first ones `x` was handed, in order and once
      each; acceptances lead returned putmsg calls by at most one; and a putmsg that
      has returned left nothing undelivered. */
  ghost predicate ExactlyOnce(x: End, y: End) {
    && y.accepted <= x.handed
    && x.completed <= |y.accepted| <= x.completed + 1
    && (!x.act.Putting? ==> y.accepted == x.handed)
  }

  lemma {:induction false} DeliveryExactlyOnce(events: seq<(bool, Event)>)
    ensures ExactlyOnce(Run(events).a, Run(events).b)
    ensures ExactlyOnce(Run(events).b, Run(events).a)
  {
    RunKeepsInv(events);
  }
}
