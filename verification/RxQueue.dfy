/** Serial input: the ring buffer (lib/queue.c) and the receive path with flow control around it
    (lib/termio.c). */
module RxQueue {
  import opened Bits

  // ------------------------------------------------------------ the ring buffer

  /** The entry `i` places from the front, `first`, of a ring of `limit` + 1 places. */
  function Slot(first: nat, i: nat, limit: nat): nat {
    if first + i <= limit then first + i else first + i - limit - 1
  }

  class Queue {
    const dat: array<int>
    const limit: int
    var first: nat
    var count: nat
    ghost const width: nat

    ghost predicate Valid()
      reads this, dat
    {
      && 0 <= limit == Ones(width) && dat.Length == limit + 1
      && first <= limit && count <= limit
    }

    /** The messages in the queue, the oldest first. */
    ghost function Contents(): (s: seq<int>)
      requires Valid()
      reads this, dat
      ensures |s| == count
    {
      seq(count, i requires 0 <= i < count && Valid() reads this, dat => dat[Slot(first, i, limit)])
    }

    /** A queue made for no entries at all is not fit for use. */
    constructor (size: nat, ghost k: nat)
      requires size >= 1 ==> size - 1 == Ones(k)
      ensures size >= 1 ==> Valid() && Contents() == []
      ensures limit == size - 1 && fresh(dat)
    {
      dat := new int[size];
      limit, width := size - 1, k;
      first, count := 0, 0;
    }

    /** One turn of Qput: while the queue is full it only waits. */
    method Put(msg: int) returns (done: bool)
      requires Valid()
      modifies this, dat
      ensures Valid() && done == (old(count) < limit)
      ensures Contents() == if done then old(Contents()) + [msg] else old(Contents())
    {
      if count == limit {
        return false;
      }
      AndFolds(first + count, width);
      dat[And(first + count, limit)] := msg;
      count := count + 1;
      assert Contents()[..count - 1] == old(Contents());
      return true;
    }

    /** One turn of Qget: the oldest message; while the queue is empty it only waits. */
    method Get() returns (done: bool, msg: int)
      requires Valid()
      modifies this
      ensures Valid() && done == (old(count) != 0)
      ensures if done then old(Contents()) == [msg] + Contents() else Contents() == []
    {
      if count == 0 {
        return false, 0;
      }
      AndFolds(first + 1, width);
      ghost var before := Contents();
      msg := dat[first];
      first := And(first + 1, limit);
      count := count - 1;
      done := true;
      assert before[0] == msg && before[1..] == Contents();
    }

    /** Qread: the message `n` places from the front, or zero if there is none. */
    method Peek(n: nat) returns (msg: int)
      requires Valid()
      ensures msg == if n < count then Contents()[n] else 0
    {
      if n >= count {
        return 0;
      }
      AndFolds(first + n, width);
      return dat[And(first + n, limit)];
    }
  }

  /** Qcreate: a queue exactly for a size that is a power of two, if there is memory for it; but
      the test lets zero through too, and what is made then has a limit of -1. */
  method Create(size: int, memory: bool) returns (q: Queue?)
    ensures (q != null) <==> memory && (size == 0 || (size > 0 && PowerOfTwo(size)))
    ensures q != null ==> fresh(q) && fresh(q.dat) && q.limit == size - 1
    ensures q != null ==> (q.Valid() <==> size != 0) && (size != 0 ==> q.Contents() == [])
  {
    if size < 0 {
      return null;
    }
    ghost var k := 0;
    if size != 0 {
      PowerOfTwoTest(size);
      if And(size, size - 1) != 0 {
        return null;
      }
      k := PowerOfTwoLessOne(size);
    }
    if !memory {
      return null;
    }
    q := new Queue(size, k);
  }

  // ------------------------------------------------------------ the receive path, step by step

  /** The settings of a line that the receive path looks at. */
  datatype Term = Term(istrip: bool, isig: bool, ixon: bool, ixany: bool, vintr: int, vstop: int, vstart: int)

  /** A line. `queue` holds what is queued; `offered` counts the characters that reached the queue
      since the sender was last told to stop. The logs are of every character queued, taken out, and
      lost for want of space. */
  datatype Line = Line(term: Term, limit: nat, queue: seq<int>, rxoff: bool, txoff: bool,
                       offered: nat, queued: seq<int>, taken: seq<int>, lost: seq<int>)

  const MARK := 20

  /** A character for the queue: stored if there is space, and the sender stopped when it gets low. */
  function Enqueue(d: Line, c: int): Line {
    var n := d.limit - |d.queue|;
    var d1 := if n > 0 then d.(queue := d.queue + [c], queued := d.queued + [c]) else d.(lost := d.lost + [c]);
    if n > 0 && n < MARK && !d.rxoff then d1.(rxoff := true, offered := 0)
    else d1.(offered := if d.rxoff then d.offered + 1 else 0)
  }

  /** One character from the device, as scandevs treats it. */
  function Receive(d: Line, raw: int): Line {
    var c := if d.term.istrip then raw % 128 else raw;
    if d.term.isig && c == d.term.vintr then d
    else if d.term.ixon && d.term.ixany && d.txoff then d.(txoff := false)
    else if d.term.ixon && c == d.term.vstop then d.(txoff := true)
    else if d.term.ixon && c == d.term.vstart then d.(txoff := false)
    else Enqueue(d, c)
  }

  /** One character read: the sender is let go on first if little is queued. */
  function Take(d: Line): Line
    requires d.queue != []
  {
    var d1 := if |d.queue| < MARK && d.rxoff then d.(rxoff := false, offered := 0) else d;
    d1.(queue := d.queue[1..], taken := d.taken + [d.queue[0]])
  }

  /** TCSETAF: the queue is emptied and the sender let go on. */
  function Flush(d: Line): Line {
    d.(queue := [], taken := d.taken + d.queue, rxoff := false, offered := 0)
  }

  /** Nothing is lost, what is taken and what is queued are the characters queued, in order, and
      there is room for what a stopped sender may still send. */
  ghost predicate Inv(d: Line) {
    && d.limit >= 63 && |d.queue| <= d.limit
    && d.lost == []
    && d.queued == d.taken + d.queue
    && (!d.rxoff ==> d.limit - |d.queue| >= MARK - 1)
    && (d.rxoff ==> d.limit - |d.queue| + d.offered >= MARK - 2)
  }

  /** The sender keeps to its part: at most 18 more characters after it was told to stop. */
  predicate Obeys(d: Line) {
    d.rxoff ==> d.offered <= MARK - 2
  }

  lemma {:induction false} ReceiveKeeps(d: Line, c: int)
    requires Inv(d) && Obeys(Receive(d, c))
    ensures Inv(Receive(d, c))
  {
    var e := if d.term.istrip then c % 128 else c;
    assert d.taken + (d.queue + [e]) == d.taken + d.queue + [e];
  }

  lemma {:induction false} TakeKeeps(d: Line)
    requires Inv(d) && d.queue != []
    ensures Inv(Take(d))
  {
    assert d.taken + [d.queue[0]] + d.queue[1..] == d.taken + d.queue;
  }

  lemma {:induction false} FlushKeeps(d: Line)
    requires Inv(d)
    ensures Inv(Flush(d))
  {
    assert d.taken + d.queue + [] == d.taken + d.queue;
  }

  // ------------------------------------------------------------ every interleaving

  datatype Event = Arrive(c: int) | Read | Clear

  predicate Enabled(d: Line, e: Event) {
    e.Read? ==> d.queue != []
  }

  function Next(d: Line, e: Event): Line
    requires Enabled(d, e)
  {
    match e
    case Arrive(c) => Receive(d, c)
    case Read => Take(d)
    case Clear => Flush(d)
  }

  /** The events happen one after the other, and the sender keeps to its part throughout. */
  ghost predicate Happens(d: Line, es: seq<Event>)
    decreases |es|
  {
    es == [] || (Enabled(d, es[0]) && Obeys(Next(d, es[0])) && Happens(Next(d, es[0]), es[1..]))
  }

  ghost function After(d: Line, es: seq<Event>): Line
    requires Happens(d, es)
    decreases |es|
  {
    if es == [] then d else After(Next(d, es[0]), es[1..])
  }

  lemma {:induction false} RunKeeps(d: Line, es: seq<Event>)
    requires Inv(d) && Happens(d, es)
    ensures Inv(After(d, es))
    decreases |es|
  {
    if es != [] {
      match es[0]
      case Arrive(c) =>
        ReceiveKeeps(d, c);
        RunKeeps(Receive(d, c), es[1..]);
      case Read =>
        TakeKeeps(d);
        RunKeeps(Take(d), es[1..]);
      case Clear =>
        FlushKeeps(d);
        RunKeeps(Flush(d), es[1..]);
    }
  }

  /** A line just opened. */
  function Opened(term: Term, limit: nat): Line {
    Line(term, limit, [], false, false, 0, [], [], [])
  }

  /** Over every interleaving of arrivals, reads and flushes, on a queue of 64 places or more, with
      a sender that stops in time: no character is ever lost, and characters come out in the order
      in which they were queued. */
  lemma {:induction false} NoOverrun(term: Term, limit: nat, es: seq<Event>)
    requires limit >= 63 && Happens(Opened(term, limit), es)
    ensures After(Opened(term, limit), es).lost == []
    ensures var d := After(Opened(term, limit), es); d.taken + d.queue == d.queued
  {
    RunKeeps(Opened(term, limit), es);
  }

  /** Characters arriving without a read. */
  function Flood(d: Line, n: nat): Line {
    if n == 0 then d else Receive(Flood(d, n - 1), 1)
  }

  lemma {:induction false} FloodFills(term: Term, n: nat)
    requires !term.isig && !term.ixon && n <= 63
    ensures var d := Flood(Opened(term, 63), n);
      && |d.queue| == n && d.lost == [] && d.limit == 63 && d.term == term
      && d.rxoff == (n >= 45) && d.offered == if n >= 45 then n - 45 else 0
  {
    if n > 0 {
      FloodFills(term, n - 1);
    }
  }

  /** The bound is tight: on a queue of 64 places the 45th character has the sender stopped, 18 more
      fill the queue, and the one after that is lost. */
  lemma {:induction false} OneTooMany(term: Term)
    requires !term.isig && !term.ixon
    ensures Obeys(Flood(Opened(term, 63), 63))
    ensures var d := Flood(Opened(term, 63), 64); !Obeys(d) && d.lost != []
  {
    FloodFills(term, 63);
  }

  // ------------------------------------------------------------ the device

  ghost function ReceiveAll(d: Line, cs: seq<int>): Line
    decreases |cs|
  {
    if cs == [] then d else Receive(ReceiveAll(d, cs[..|cs| - 1]), cs[|cs| - 1])
  }

  /** A device entry: its queue and its flow-control state. */
  class Device {
    const rxq: Queue
    const term: Term
    var rxoff: bool
    var txoff: bool
    ghost var offered: nat
    ghost var queued: seq<int>
    ghost var taken: seq<int>
    ghost var lost: seq<int>

    ghost predicate Valid()
      reads this, rxq, rxq.dat
    {
      rxq.Valid()
    }

    /** The line that the entry implements. */
    ghost function Model(): Line
      requires Valid()
      reads this, rxq, rxq.dat
    {
      Line(term, rxq.limit, rxq.Contents(), rxoff, txoff, offered, queued, taken, lost)
    }

    constructor (q: Queue, term: Term)
      requires q.Valid() && q.Contents() == []
      ensures Valid() && Model() == Opened(term, q.limit) && rxq == q
    {
      rxq, this.term := q, term;
      rxoff, txoff := false, false;
      offered, queued, taken, lost := 0, [], [], [];
    }

    /** The end of the loop body of scandevs, for a character that is not a control. */
    method Accept(c: int)
      requires Valid()
      modifies this, rxq, rxq.dat
      ensures Valid() && Model() == Enqueue(old(Model()), c)
    {
      var n := rxq.limit - rxq.count;
      ghost var stopped := rxoff;
      if n > 0 {
        var _ := rxq.Put(c);
        queued := queued + [c];
        if n < MARK && !rxoff {
          rxoff := true;
        }
      } else {
        lost := lost + [c];
      }
      offered := if stopped then offered + 1 else 0;
    }

    method ReceiveOne(raw: int)
      requires Valid()
      modifies this, rxq, rxq.dat
      ensures Valid() && Model() == Receive(old(Model()), raw)
    {
      var c := if term.istrip then raw % 128 else raw;
      if term.isig && c == term.vintr {
        return;
      }
      if term.ixon {
        if term.ixany && txoff {
          txoff := false;
          return;
        }
        if c == term.vstop {
          txoff := true;
          return;
        }
        if c == term.vstart {
          txoff := false;
          return;
        }
      }
      Accept(c);
    }

    /** scandevs, for the characters `cs` that the device has ready. */
    method Scan(cs: seq<int>)
      requires Valid()
      modifies this, rxq, rxq.dat
      ensures Valid() && Model() == ReceiveAll(old(Model()), cs)
    {
      var i := 0;
      while i < |cs|
        invariant 0 <= i <= |cs| && Valid() && Model() == ReceiveAll(old(Model()), cs[..i])
      {
        assert cs[..i + 1][..i] == cs[..i];
        ReceiveOne(cs[i]);
        i := i + 1;
      }
      assert cs[..i] == cs;
    }

    /** The heart of _read, once something is queued. */
    method ReadOne() returns (ch: int)
      requires Valid() && rxq.Contents() != []
      modifies this, rxq
      ensures Valid() && ch == old(rxq.Contents())[0] && Model() == Take(old(Model()))
    {
      if rxq.count < MARK && rxoff {
        rxoff := false;
        offered := 0;
      }
      ghost var before := rxq.Contents();
      var _, msg := rxq.Get();
      ch := msg;
      assert before[1..] == rxq.Contents();
      taken := taken + [ch];
    }

    /** TCSETAF up to the new settings. */
    method FlushInput()
      requires Valid()
      modifies this, rxq
      ensures Valid() && Model() == Flush(old(Model()))
    {
      ghost var before := rxq.Contents();
      ghost var out: seq<int> := [];
      while rxq.count != 0
        invariant Valid() && out + rxq.Contents() == before && taken == old(taken) + out
        invariant rxoff == old(rxoff) && txoff == old(txoff) && offered == old(offered)
        invariant queued == old(queued) && lost == old(lost)
        decreases rxq.count
      {
        ghost var was := rxq.Contents();
        var _, ch := rxq.Get();
        FlushStep(out, was, rxq.Contents(), ch, old(taken));
        out := out + [ch];
        taken := taken + [ch];
      }
      assert out + [] == out;
      rxoff := false;
      offered := 0;
    }
  }

  lemma {:induction false} FlushStep(out: seq<int>, was: seq<int>, now: seq<int>, ch: int, taken: seq<int>)
    requires was == [ch] + now
    ensures out + [ch] + now == out + was && taken + (out + [ch]) == taken + out + [ch]
  {
  }
}
