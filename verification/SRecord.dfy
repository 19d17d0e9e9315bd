/** Dumping memory as Motorola S-records (pmon/commands.c, sdump) and loading them again
    (pmon/loadfn.c). A record is its text with the line end trimmed; what loading writes is a log
    of the bytes stored, in order. */
module SRecord {
  import opened Numbers
  import opened LoadGuard

  datatype Code = Cont | Done | BadChar | BadLen | BadType | BadSum | NoSymSpace | BadAddr | MinusOne

  datatype Flags = Flags(symbolsOnly: bool, ignoreSum: bool)

  datatype Store = Store(addr: int, byte: int)

  datatype Load = Load(span: Span, wrote: seq<Store>, entry: int)

  // ------------------------------------------------------------ bytes in text

  predicate AreBytes(ds: seq<int>) {
    forall i :: 0 <= i < |ds| ==> 0 <= ds[i] < 256
  }

  /** A byte as two digits. */
  function Two(v: int): (s: string)
    ensures |s| == 2
  {
    [HexDigit(v / 16 % 16), HexDigit(v % 16)]
  }

  /** The byte written as two digits at place `k`, if it is there. */
  function Pair(s: string, k: nat): (v: Option<int>)
    ensures v.Some? ==> 0 <= v.value < 256
  {
    if k + 2 <= |s| && Digit(s[k]) >= 0 && Digit(s[k + 1]) >= 0
    then Some(16 * Digit(s[k]) + Digit(s[k + 1])) else None
  }

  lemma {:induction false} PairIsHex(s: string, k: nat)
    ensures Pair(s, k) == HexAt(s, k, 2)
  {
    if k + 2 <= |s| {
      var t := s[k..k + 2];
      assert t[0] == s[k] && t[1] == s[k + 1];
      assert t[..1][..0] == [];
      if AllDigits(t, 16) {
        assert Numeral(t[..1], 16) == Digit(t[0]);
      }
    }
  }

  /** The texts of a list of values, one after the other. */
  function Spread(text: int -> string, ds: seq<int>): string {
    if ds == [] then [] else Spread(text, ds[..|ds| - 1]) + text(ds[|ds| - 1])
  }

  lemma {:induction false} SpreadMore(text: int -> string, ds: seq<int>, v: int)
    ensures Spread(text, ds + [v]) == Spread(text, ds) + text(v)
  {
    assert (ds + [v])[..|ds|] == ds;
  }

  lemma {:induction false} SpreadAppend(text: int -> string, a: seq<int>, b: seq<int>)
    ensures Spread(text, a + b) == Spread(text, a) + Spread(text, b)
    decreases |b|
  {
    if b == [] {
      assert a + b == a;
    } else {
      var front, v := b[..|b| - 1], b[|b| - 1];
      assert a + b == a + front + [v];
      SpreadAppend(text, a, front);
      SpreadMore(text, a + front, v);
      Reassociate(Spread(text, a), Spread(text, front), text(v));
    }
  }

  lemma {:induction false} Reassociate(a: string, b: string, c: string)
    ensures (a + b) + c == a + (b + c)
  {
  }

  function HexBytes(ds: seq<int>): string {
    Spread(Two, ds)
  }

  ghost predicate TwoWide(text: int -> string, v: int) {
    |text(v)| == 2
  }

  lemma {:induction false} SpreadLength(text: int -> string, ds: seq<int>)
    requires forall v :: TwoWide(text, v)
    ensures |Spread(text, ds)| == 2 * |ds|
  {
    if ds != [] {
      SpreadLength(text, ds[..|ds| - 1]);
      assert TwoWide(text, ds[|ds| - 1]);
    }
  }

  lemma {:induction false} SpreadAt(text: int -> string, ds: seq<int>, i: nat)
    requires i < |ds| && forall v :: TwoWide(text, v)
    ensures |Spread(text, ds)| == 2 * |ds|
    ensures Spread(text, ds)[2 * i..2 * i + 2] == text(ds[i])
  {
    var front, v := ds[..|ds| - 1], ds[|ds| - 1];
    SpreadLength(text, ds);
    SpreadLength(text, front);
    assert TwoWide(text, v);
    if i < |ds| - 1 {
      SpreadAt(text, front, i);
      assert Spread(text, ds)[2 * i..2 * i + 2] == Spread(text, front)[2 * i..2 * i + 2];
    }
  }

  /** The `i`-th pair of digits from place `k`. */
  function PairAt(s: string, k: nat, i: nat): (v: Option<int>)
    ensures v.Some? ==> 0 <= v.value < 256
  {
    Pair(s, k + 2 * i)
  }

  /** The bytes `ds` are written as pairs of digits from place `k`. */
  predicate Holds(s: string, k: nat, ds: seq<int>) {
    forall i {:trigger PairAt(s, k, i)} :: 0 <= i < |ds| ==> PairAt(s, k, i) == Some(ds[i])
  }

  /** `ds` is what reading up to `n` bytes from place `k` gives: it stops short only at a pair that
      is not there. */
  predicate ReadOf(s: string, k: nat, n: int, ds: seq<int>) {
    && |ds| <= (if n > 0 then n else 0)
    && Holds(s, k, ds)
    && (|ds| < n ==> PairAt(s, k, |ds|).None?)
  }

  lemma {:induction false} ReadOfHeld(s: string, k: nat, ds: seq<int>, es: seq<int>)
    requires Holds(s, k, ds) && ReadOf(s, k, |ds|, es)
    ensures es == ds
  {
    forall i | 0 <= i < |es| && i < |ds|
      ensures es[i] == ds[i]
    {
      assert PairAt(s, k, i) == Some(ds[i]);
    }
  }

  function Sum(ds: seq<int>): int {
    if ds == [] then 0 else Sum(ds[..|ds| - 1]) + ds[|ds| - 1]
  }

  /** The low byte of the complement of a sum. */
  function Check(sum: int): (c: int)
    ensures 0 <= c < 256
  {
    255 - sum % 256
  }

  function BigEndian(ds: seq<int>): int {
    if ds == [] then 0 else BigEndian(ds[..|ds| - 1]) * 256 + ds[|ds| - 1]
  }

  /** Each byte of a printed list reads back. */
  lemma {:induction false} ByteAt(pre: string, ds: seq<int>, i: nat)
    requires AreBytes(ds) && i < |ds|
    ensures |HexBytes(ds)| == 2 * |ds|
    ensures Pair(pre + HexBytes(ds), |pre| + 2 * i) == Some(ds[i])
  {
    forall v
      ensures TwoWide(Two, v)
    {
    }
    SpreadAt(Two, ds, i);
    var s := HexBytes(ds);
    assert s[2 * i] == s[2 * i..2 * i + 2][0] && s[2 * i + 1] == s[2 * i..2 * i + 2][1];
  }

  // ------------------------------------------------------------ loading one record

  /** The log with the stores of `ds`, from `addr` on, added. */
  function Logged(log: seq<Store>, addr: int, ds: seq<int>): (w: seq<Store>)
    ensures |w| == |log| + |ds|
    decreases |ds|
  {
    if ds == [] then log else Logged(log, addr, ds[..|ds| - 1]) + [Store(addr + |ds| - 1, ds[|ds| - 1])]
  }

  lemma {:induction false} LoggedAt(log: seq<Store>, addr: int, ds: seq<int>, i: nat)
    requires i < |log| + |ds|
    ensures Logged(log, addr, ds)[i] == if i < |log| then log[i] else Store(addr + i - |log|, ds[i - |log|])
    decreases |ds|
  {
    if ds != [] && i < |log| + |ds| - 1 {
      LoggedAt(log, addr, ds[..|ds| - 1], i);
    }
  }

  lemma {:induction false} LoggedMore(log: seq<Store>, addr: int, ds: seq<int>, v: int)
    ensures Logged(log, addr, ds + [v]) == Logged(log, addr, ds) + [Store(addr + |ds|, v)]
  {
    assert (ds + [v])[..|ds|] == ds;
  }

  /** Every byte in the log was written where it may be, inside the recorded range. */
  ghost predicate AllPlaced(m: Layout, l: Load) {
    forall i :: 0 <= i < |l.wrote| ==> Placed(m, l.span, l.wrote[i].addr)
  }

  lemma {:induction false} WideningKeepsPlaced(m: Layout, l: Load, addr: int, size: int)
    requires AllPlaced(m, l)
    ensures AllPlaced(m, l.(span := Widen(l.span, addr, size)))
  {
  }

  lemma {:induction false} StoresArePlaced(m: Layout, l: Load, addr: int, count: int, ds: seq<int>)
    requires 0 <= addr < WORD && count < 256 && Accepts(m, addr, count) && |ds| <= (if count > 0 then count else 0)
    requires AllPlaced(m, l)
    ensures AllPlaced(m, Stored(l, addr, count, ds))
  {
    WideningKeepsPlaced(m, l, addr, count);
    var w := Logged(l.wrote, addr, ds);
    forall i | 0 <= i < |w|
      ensures Placed(m, Widen(l.span, addr, count), w[i].addr)
    {
      LoggedAt(l.wrote, addr, ds, i);
      if i < |l.wrote| {
        assert Placed(m, l.(span := Widen(l.span, addr, count)).span, l.wrote[i].addr);
      } else {
        AcceptedIsPlaced(m, l.span, addr, count, w[i].addr);
      }
    }
  }

  /** How many address bytes a data record of this type has. */
  function AddressBytes(c: char): nat {
    if c == '3' then 4 else if c == '2' then 3 else 2
  }

  /** A range of `count` bytes recorded, and `ds` written at the start of it. */
  function Stored(l: Load, addr: int, count: int, ds: seq<int>): Load {
    l.(span := Widen(l.span, addr, count), wrote := Logged(l.wrote, addr, ds))
  }

  /** The outcome of loading bytes `ds` to address `to` when the record's checksum is `cs` and
      the rest of its sum is `sum`: the bytes are stored in order, and the record is accepted
      exactly when its checksum is the complement of the sum. */
  function Outcome(f: Flags, l: Load, to: int, ds: seq<int>, cs: int, sum: int): (Code, int, Load) {
    var l1 := Stored(l, to, |ds|, ds);
    if f.ignoreSum || cs == Check(sum + Sum(ds)) then (Cont, |ds|, l1) else (BadSum, 0, l1)
  }

  /** The same with the guard: nothing is stored to a range that is not accepted. */
  function Guarded(f: Flags, m: Layout, l: Load, to: int, ds: seq<int>, cs: int, sum: int): (Code, int, Load)
    requires 0 <= to
  {
    if Accepts(m, to, |ds|) then Outcome(f, l, to, ds, cs, sum) else (BadAddr, 0, l)
  }

  /** `s` is the text of a data record whose address bytes, data and checksum are these. */
  predicate Encodes(s: string, ab: seq<int>, ds: seq<int>, cs: int) {
    && |s| >= 4 && s[0] == 'S' && '1' <= s[1] <= '3' && |ab| == AddressBytes(s[1])
    && Pair(s, 2) == Some(|ds| + |ab| + 1) && |s| == 6 + 2 * |ab| + 2 * |ds|
    && Holds(s, 4, ab)
    && Holds(s, 4 + 2 * |ab|, ds)
    && PairAt(s, 4 + 2 * |ab|, |ds|) == Some(cs)
  }

  method GetByte(s: string, k: nat) returns (v: Option<int>)
    ensures v == Pair(s, k)
  {
    v := GetHex(s, k, 2);
    PairIsHex(s, k);
  }

  lemma {:induction false} HoldsMore(s: string, k: nat, ds: seq<int>, v: int)
    requires Holds(s, k, ds) && PairAt(s, k, |ds|) == Some(v)
    ensures Holds(s, k, ds + [v])
    ensures Sum(ds + [v]) == Sum(ds) + v && BigEndian(ds + [v]) == BigEndian(ds) * 256 + v
  {
    assert (ds + [v])[..|ds|] == ds;
  }

  /** The address bytes, as many as can be read. */
  method ReadAddress(s: string, n: nat) returns (addr: int, sum: int, got: nat, ghost ab: seq<int>)
    ensures ReadOf(s, 4, n, ab) && got == |ab| && addr == BigEndian(ab) && sum == Sum(ab)
  {
    addr, sum, got, ab := 0, 0, 0, [];
    while got < n
      invariant got == |ab| <= n && Holds(s, 4, ab) && addr == BigEndian(ab) && sum == Sum(ab)
    {
      var v := GetByte(s, 4 + 2 * got);
      if v.None? {
        return;
      }
      HoldsMore(s, 4, ab, v.value);
      addr := addr * 256 + v.value;
      sum := sum + v.value;
      ab := ab + [v.value];
      got := got + 1;
    }
  }

  /** The length and the address at the front of a data record, or what is wrong with them. */
  method ReadFront(s: string, ghost ab: seq<int>, ghost ds: seq<int>, ghost cs: int)
    returns (code: Code, len: int, addr: int, sum: int, ghost es: seq<int>)
    requires |s| >= 2
    ensures Pair(s, 2).None? ==> code == BadChar
    ensures Pair(s, 2).Some? && Pair(s, 2).value * 2 != |s| - 4 ==> code == BadLen
    ensures Pair(s, 2).Some? && Pair(s, 2).value * 2 == |s| - 4 ==>
      var n := AddressBytes(s[1]);
      && ReadOf(s, 4, n, es) && len == Pair(s, 2).value
      && code == if |es| == n then Cont else if |es| == n - 1 then MinusOne else BadChar
    ensures code == Cont ==> 0 <= len < 256 && addr == BigEndian(es) && sum == Sum(es)
    ensures Encodes(s, ab, ds, cs) ==> code == Cont && es == ab && len == |ds| + |ab| + 1
  {
    len, addr, sum, es := 0, 0, 0, [];
    var l := GetByte(s, 2);
    if l.None? {
      code := BadChar;
      return;
    }
    len := l.value;
    if len * 2 != |s| - 4 {
      code := BadLen;
      return;
    }
    var n := AddressBytes(s[1]);
    var got;
    addr, sum, got, es := ReadAddress(s, n);
    if Encodes(s, ab, ds, cs) {
      ReadOfHeld(s, 4, ab, es);
    }
    code := if got == n then Cont else if got == n - 1 then MinusOne else BadChar;
  }

  /** What a download has recorded and written so far. */
  class Loader {
    var span: Span
    var wrote: seq<Store>
    var entry: int

    constructor ()
      ensures Contents() == Load(Span(WORD - 1, 0), [], 0)
    {
      span, wrote, entry := Span(WORD - 1, 0), [], 0;
    }

    function Contents(): Load
      reads this
    {
      Load(span, wrote, entry)
    }

    /** dl_checkloadaddr, with the range it records. */
    method CheckLoadAddr(m: Layout, addr: int, size: int) returns (ok: bool)
      requires 0 <= addr < WORD
      modifies `span
      ensures ok == Accepts(m, addr, size)
      ensures span == if ok then Widen(old(span), addr, size) else old(span)
    {
      ok := Accepts(m, addr, size);
      if ok {
        if addr < span.min {
          span := span.(min := addr);
        }
        if Wrap(addr + size) > span.max {
          span := span.(max := Wrap(addr + size));
        }
      }
    }

    /** Stores bytes as they are read, until one cannot be. */
    method StoreData(s: string, k: nat, count: int, addr: int) returns (sum: int, got: nat, ghost ds: seq<int>)
      modifies `wrote
      ensures ReadOf(s, k, count, ds) && got == |ds| && sum == Sum(ds)
      ensures wrote == Logged(old(wrote), addr, ds)
    {
      sum, got, ds := 0, 0, [];
      while got < count
        invariant got == |ds| && (got <= count || got == 0) && Holds(s, k, ds) && sum == Sum(ds)
        invariant wrote == Logged(old(wrote), addr, ds)
      {
        var v := GetByte(s, k + 2 * got);
        if v.None? {
          return;
        }
        HoldsMore(s, k, ds, v.value);
        LoggedMore(old(wrote), addr, ds, v.value);
        wrote := wrote + [Store(addr + got, v.value)];
        sum := sum + v.value;
        ds := ds + [v.value];
        got := got + 1;
      }
    }

    /** Stores the data of a record if its range is accepted. */
    method StoreChecked(s: string, k: nat, count: int, addr: int, m: Layout)
      returns (ok: bool, sum: int, got: nat, ghost ds: seq<int>)
      requires 0 <= addr < WORD && count < 256
      modifies `span, `wrote
      ensures old(AllPlaced(m, Contents())) ==> AllPlaced(m, Contents())
      ensures ok == Accepts(m, addr, count)
      ensures !ok ==> Contents() == old(Contents())
      ensures ok ==> ReadOf(s, k, count, ds) && got == |ds| && sum == Sum(ds)
      ensures ok ==> Contents() == Stored(old(Contents()), addr, count, ds)
    {
      ghost var before := Contents();
      ok := CheckLoadAddr(m, addr, count);
      sum, got, ds := 0, 0, [];
      if ok {
        sum, got, ds := StoreData(s, k, count, addr);
        if AllPlaced(m, before) {
          StoresArePlaced(m, before, addr, count, ds);
        }
      }
    }

    /** The part of a data record after its address. */
    method DataPart(s: string, f: Flags, m: Layout, len: int, n: nat, addr: int, sum: int,
                    ghost ds: seq<int>, ghost cs: int) returns (code: Code, plen: int)
      requires 0 <= addr < WORD && len < 256
      modifies `span, `wrote
      ensures old(AllPlaced(m, Contents())) ==> AllPlaced(m, Contents())
      ensures |ds| == len - n - 1 && Holds(s, 4 + 2 * n, ds) && PairAt(s, 4 + 2 * n, |ds|) == Some(cs)
           ==> (code, plen, Contents()) == Guarded(f, m, old(Contents()), addr, ds, cs, sum)
    {
      var count := len - n - 1;
      var ok, data, got;
      ghost var es;
      ok, data, got, es := StoreChecked(s, 4 + 2 * n, count, addr, m);
      if !ok {
        return BadAddr, 0;
      }
      if |ds| == count && Holds(s, 4 + 2 * n, ds) {
        ReadOfHeld(s, 4 + 2 * n, ds, es);
      }
      if got < count {
        return BadChar, 0;
      }
      var c := GetByte(s, 4 + 2 * n + 2 * got);
      if c.None? {
        return BadChar, 0;
      }
      if !f.ignoreSum && c.value != Check(sum + data) {
        return BadSum, 0;
      }
      return Cont, got;
    }

    /** s3_datarec. Whatever the text, nothing is written outside the allowed memory, and a record
        that encodes some bytes has them stored and is accepted if its checksum is right. Bytes
        are stored as they are read, before the checksum is known. */
    method DataRec(s: string, f: Flags, offset: int, m: Layout, ghost ab: seq<int>, ghost ds: seq<int>, ghost cs: int)
      returns (code: Code, plen: int)
      requires |s| >= 2 && '1' <= s[1] <= '3'
      modifies `span, `wrote
      ensures old(AllPlaced(m, Contents())) ==> AllPlaced(m, Contents())
      ensures f.symbolsOnly ==> code == Cont && Contents() == old(Contents())
      ensures !f.symbolsOnly && Pair(s, 2).None? ==> code == BadChar && Contents() == old(Contents())
      ensures !f.symbolsOnly && Pair(s, 2).Some? && Pair(s, 2).value * 2 != |s| - 4 ==>
        code == BadLen && Contents() == old(Contents())
      ensures !f.symbolsOnly && Encodes(s, ab, ds, cs) ==>
        (code, plen, Contents())
        == Guarded(f, m, old(Contents()), Wrap(BigEndian(ab) + offset), ds, cs, |ds| + |ab| + 1 + Sum(ab))
    {
      if f.symbolsOnly {
        return Cont, 0;
      }
      var front, len, addr, sum;
      ghost var es;
      front, len, addr, sum, es := ReadFront(s, ab, ds, cs);
      if front != Cont {
        return front, 0;
      }
      code, plen := DataPart(s, f, m, len, AddressBytes(s[1]), Wrap(addr + offset), len + sum, ds, cs);
    }

    /** s3_endrec: the entry point, or a marker if it cannot be read; the load is done either way. */
    method EndRec(s: string, offset: int) returns (code: Code)
      requires |s| >= 2 && '7' <= s[1] <= '9'
      modifies `entry
      ensures code == Done
      ensures var adr := HexAt(s, 4, ('9' as int - s[1] as int + 2) * 2);
        entry == if adr.Some? then Wrap(adr.value + offset) else 0xdead_beef
    {
      var adr := GetHex(s, 4, ('9' as int - s[1] as int + 2) * 2);
      entry := if adr.Some? then Wrap(adr.value + offset) else 0xdead_beef;
      code := Done;
    }

    /** dl_s3load; `symbols` is what a symbol record comes to. Whatever the record, nothing is
        written outside the allowed memory. */
    method S3Load(s: string, f: Flags, offset: int, m: Layout, symbols: Code,
                  ghost ab: seq<int>, ghost ds: seq<int>, ghost cs: int) returns (code: Code, plen: int)
      modifies this
      ensures old(AllPlaced(m, Contents())) ==> AllPlaced(m, Contents())
      ensures !f.symbolsOnly && Encodes(s, ab, ds, cs) ==>
        (code, plen, Contents())
        == Guarded(f, m, old(Contents()), Wrap(BigEndian(ab) + offset), ds, cs, |ds| + |ab| + 1 + Sum(ab))
      ensures |s| >= 2 && s[0] == 'S' && '7' <= s[1] <= '9' ==>
        var adr := HexAt(s, 4, ('9' as int - s[1] as int + 2) * 2);
        && code == Done
        && Contents() == old(Contents()).(entry := if adr.Some? then Wrap(adr.value + offset) else 0xdead_beef)
    {
      plen := 0;
      if s == [] || s[0] != 'S' {
        code := BadChar;
      } else if |s| == 1 {
        code := BadType;
      } else if s[1] == '0' {
        code := Cont;
      } else if '1' <= s[1] <= '3' {
        code, plen := DataRec(s, f, offset, m, ab, ds, cs);
      } else if s[1] == '4' {
        code := symbols;
      } else if '7' <= s[1] <= '9' {
        code := EndRec(s, offset);
      } else {
        code := BadType;
      }
    }
  }

  // ------------------------------------------------------------ the text of a data record

  /** A line of bytes after its type. */
  function Line(bytes: seq<int>): string {
    "S3" + HexBytes(bytes)
  }

  /** An S3 record of given address bytes, data and checksum. */
  function Text(ab: seq<int>, ds: seq<int>, cs: int): string
    requires |ab| == 4 && |ds| <= 250 && AreBytes(ab) && AreBytes(ds) && 0 <= cs < 256
  {
    Line([|ds| + 5] + ab + ds + [cs])
  }

  lemma {:induction false} TextEncodes(ab: seq<int>, ds: seq<int>, cs: int)
    requires |ab| == 4 && |ds| <= 250 && AreBytes(ab) && AreBytes(ds) && 0 <= cs < 256
    ensures Encodes(Text(ab, ds, cs), ab, ds, cs)
  {
    var all, s := [|ds| + 5] + ab + ds + [cs], Text(ab, ds, cs);
    ByteAt("S3", all, 0);
    TextHead(ab, ds, cs);
    TextData(ab, ds, cs);
  }

  lemma {:induction false} TextHead(ab: seq<int>, ds: seq<int>, cs: int)
    requires |ab| == 4 && |ds| <= 250 && AreBytes(ab) && AreBytes(ds) && 0 <= cs < 256
    ensures Holds(Text(ab, ds, cs), 4, ab)
  {
    var all, s := [|ds| + 5] + ab + ds + [cs], Text(ab, ds, cs);
    forall i | 0 <= i < 4
      ensures PairAt(s, 4, i) == Some(ab[i])
    {
      ByteAt("S3", all, 1 + i);
    }
  }

  lemma {:induction false} TextData(ab: seq<int>, ds: seq<int>, cs: int)
    requires |ab| == 4 && |ds| <= 250 && AreBytes(ab) && AreBytes(ds) && 0 <= cs < 256
    ensures Holds(Text(ab, ds, cs), 12, ds)
    ensures PairAt(Text(ab, ds, cs), 12, |ds|) == Some(cs)
  {
    var all, s := [|ds| + 5] + ab + ds + [cs], Text(ab, ds, cs);
    forall i | 0 <= i < |ds|
      ensures PairAt(s, 12, i) == Some(ds[i])
    {
      assert all[5 + i] == ds[i];
      ByteAt("S3", all, 5 + i);
    }
    assert all[5 + |ds|] == cs;
    ByteAt("S3", all, 5 + |ds|);
  }

  // ------------------------------------------------------------ dumping

  /** The low `n` bytes of `v`, highest first. */
  function BytesOf(v: int, n: nat): (ds: seq<int>)
    ensures |ds| == n && AreBytes(ds)
    decreases n
  {
    if n == 0 then [] else BytesOf(v / 256, n - 1) + [v % 256]
  }

  function AddressOf(adr: int): (ab: seq<int>)
    ensures |ab| == 4 && AreBytes(ab)
  {
    BytesOf(adr, 4)
  }

  function Pow256(n: nat): int {
    if n == 0 then 1 else 256 * Pow256(n - 1)
  }

  lemma {:induction false} BytesReadBack(v: int, n: nat)
    requires 0 <= v < Pow256(n)
    ensures BigEndian(BytesOf(v, n)) == v
  {
    if n > 0 {
      BytesReadBack(v / 256, n - 1);
      var ds := BytesOf(v / 256, n - 1);
      assert (ds + [v % 256])[..|ds|] == ds;
    }
  }

  lemma {:induction false} AddressReadsBack(adr: int)
    requires 0 <= adr < WORD
    ensures BigEndian(AddressOf(adr)) == adr
  {
    assert Pow256(4) == 256 * 256 * Pow256(2) && Pow256(2) == 256 * 256;
    BytesReadBack(adr, 4);
  }

  /** The right checksum of an S3 record. */
  function CheckOf(ab: seq<int>, ds: seq<int>): (cs: int)
    ensures 0 <= cs < 256
  {
    Check(|ds| + |ab| + 1 + Sum(ab) + Sum(ds))
  }

  /** The line for the bytes `ds` at address `adr`. */
  function Record(adr: int, ds: seq<int>): string
    requires |ds| <= 250 && AreBytes(ds)
  {
    Text(AddressOf(adr), ds, CheckOf(AddressOf(adr), ds))
  }

  const END_LINE := "S70500000000FA"

  function ChunkLength(siz: int): (len: nat)
    requires siz >= 0
    ensures len <= 32 && len <= siz && (siz > 0 ==> len > 0)
  {
    if siz < 32 then siz else 32
  }

  lemma {:induction false} HexPair(v: int, n: nat)
    requires v >= 0
    ensures Hex(v, n + 2) == Hex(v / 256, n) + Two(v % 256)
  {
    assert v / 16 / 16 == v / 256 && v % 16 == v % 256 % 16 && v / 16 % 16 == v % 256 / 16 % 16;
    assert Hex(v, n + 2) == Hex(v / 16, n + 1) + [HexDigit(v % 16)];
    assert Hex(v / 16, n + 1) == Hex(v / 256, n) + [HexDigit(v / 16 % 16)];
  }

  /** An even number of digits of a number are the digits of its bytes. */
  lemma {:induction false} HexOfBytes(v: int, n: nat)
    requires v >= 0
    ensures Hex(v, 2 * n) == HexBytes(BytesOf(v, n))
  {
    if n > 0 {
      HexOfBytes(v / 256, n - 1);
      HexPair(v, 2 * n - 2);
      SpreadMore(Two, BytesOf(v / 256, n - 1), v % 256);
    }
  }

  /** The first part of the checksum: the address bytes, lowest first. */
  method SumAddress(adr: int) returns (cs: int)
    requires 0 <= adr < WORD
    ensures cs == Sum(AddressOf(adr))
  {
    cs := 0;
    var i, rest := 0, adr;
    while i < 4
      invariant 0 <= i <= 4 && Sum(AddressOf(adr)) == cs + Sum(BytesOf(rest, 4 - i))
    {
      SumLast(BytesOf(rest / 256, 3 - i), rest % 256);
      cs := cs + rest % 256;
      rest := rest / 256;
      i := i + 1;
    }
  }

  lemma {:induction false} SumLast(ds: seq<int>, v: int)
    ensures Sum(ds + [v]) == Sum(ds) + v
  {
    assert (ds + [v])[..|ds|] == ds;
  }

  lemma {:induction false} LineMore(bytes: seq<int>, v: int)
    ensures Line(bytes) + Two(v) == Line(bytes + [v])
  {
    SpreadMore(Two, bytes, v);
  }

  lemma {:induction false} HeaderText(n: int, adr: int)
    requires 0 <= adr < WORD
    ensures "S3" + Two(n) + Hex(adr, 8) == Line([n] + AddressOf(adr))
  {
    HexOfBytes(adr, 4);
    SpreadAppend(Two, [n], AddressOf(adr));
    SpreadMore(Two, [], n);
    assert [] + [n] == [n];
  }

  /** Prints the data bytes onto a line and adds them to the sum. */
  method PrintData(ds: seq<int>, line0: string, cs0: int, ghost pre: seq<int>) returns (line: string, cs: int)
    requires line0 == Line(pre)
    ensures line == Line(pre + ds) && cs == cs0 + Sum(ds)
  {
    line, cs := line0, cs0;
    assert pre + ds[..0] == pre;
    var i := 0;
    while i < |ds|
      invariant 0 <= i <= |ds| && line == Line(pre + ds[..i]) && cs == cs0 + Sum(ds[..i])
    {
      LineMore(pre + ds[..i], ds[i]);
      SumLast(ds[..i], ds[i]);
      assert ds[..i + 1] == ds[..i] + [ds[i]];
      assert pre + ds[..i + 1] == pre + ds[..i] + [ds[i]];
      cs := cs + ds[i];
      line := line + Two(ds[i]);
      i := i + 1;
    }
    assert ds[..i] == ds;
  }

  /** The line sdump prints for the bytes `ds` at `adr`. */
  method DumpRecord(adr: int, ds: seq<int>) returns (line: string)
    requires 0 <= adr < WORD && |ds| <= 250 && AreBytes(ds)
    ensures line == Record(adr, ds)
  {
    var cs := SumAddress(adr);
    HeaderText(|ds| + 5, adr);
    line, cs := PrintData(ds, "S3" + Two(|ds| + 5) + Hex(adr, 8), |ds| + 5 + cs, [|ds| + 5] + AddressOf(adr));
    RecordIsLine(adr, ds, cs);
    line := line + Two(Check(cs));
  }

  lemma {:induction false} RecordIsLine(adr: int, ds: seq<int>, cs: int)
    requires |ds| <= 250 && AreBytes(ds) && cs == |ds| + 5 + Sum(AddressOf(adr)) + Sum(ds)
    ensures Record(adr, ds) == Line([|ds| + 5] + AddressOf(adr) + ds) + Two(Check(cs))
  {
    LineMore([|ds| + 5] + AddressOf(adr) + ds, Check(cs));
  }

  // ------------------------------------------------------------ the round trip

  /** The line is a record of the bytes `ds` at `adr` with the right checksum. */
  ghost predicate Prints(line: string, adr: int, ds: seq<int>) {
    exists ab :: PrintsWith(line, adr, ds, ab)
  }

  ghost predicate PrintsWith(line: string, adr: int, ds: seq<int>, ab: seq<int>) {
    Encodes(line, ab, ds, CheckOf(ab, ds)) && BigEndian(ab) == adr
  }

  lemma {:induction false} RecordPrints(adr: int, ds: seq<int>)
    requires 0 <= adr < WORD && |ds| <= 250 && AreBytes(ds)
    ensures Prints(Record(adr, ds), adr, ds)
  {
    AddressReadsBack(adr);
    TextEncodes(AddressOf(adr), ds, CheckOf(AddressOf(adr), ds));
    assert PrintsWith(Record(adr, ds), adr, ds, AddressOf(adr));
  }

  /** A way to say that a line prints given bytes at a given address. */
  type Printing = (string, int, seq<int>) -> bool

  ghost const PRINTS: Printing := (line: string, adr: int, ds: seq<int>) => Prints(line, adr, ds)

  /** The lines print the bytes `data` from `adr` on, at most 32 to a line, the end line last. */
  ghost predicate DumpOf(prints: Printing, lines: seq<string>, adr: int, data: seq<int>)
    decreases |data|
  {
    if data == [] then lines == [END_LINE]
    else
      var len := ChunkLength(|data|);
      |lines| > 1 && prints(lines[0], adr, data[..len]) && DumpOf(prints, lines[1..], Wrap(adr + len), data[len..])
  }

  /** Whatever lines dump the bytes from place `k` on, putting them after `lines` dumps them all. */
  ghost predicate LeadsTo(prints: Printing, lines: seq<string>, adr: int, data: seq<int>, a: int, k: int)
    requires 0 <= k <= |data|
  {
    forall rest :: DumpOf(prints, rest, a, data[k..]) ==> DumpOf(prints, lines + rest, adr, data)
  }

  lemma {:induction false} LeadsOn(prints: Printing, lines: seq<string>, adr: int, data: seq<int>, a: int, k: int,
                                   line: string)
    requires 0 <= k < |data| && LeadsTo(prints, lines, adr, data, a, k)
    requires prints(line, a, data[k..k + ChunkLength(|data| - k)])
    ensures var len := ChunkLength(|data| - k);
      LeadsTo(prints, lines + [line], adr, data, Wrap(a + len), k + len)
  {
    var len := ChunkLength(|data| - k);
    var left := data[k..];
    assert left[..len] == data[k..k + len] && left[len..] == data[k + len..];
    forall rest | DumpOf(prints, rest, Wrap(a + len), data[k + len..])
      ensures DumpOf(prints, lines + [line] + rest, adr, data)
    {
      assert ([line] + rest)[1..] == rest;
      DumpIsNotEmpty(prints, rest, Wrap(a + len), data[k + len..]);
      assert DumpOf(prints, [line] + rest, a, left);
      assert lines + [line] + rest == lines + ([line] + rest);
    }
  }

  lemma {:induction false} DumpIsNotEmpty(prints: Printing, lines: seq<string>, adr: int, data: seq<int>)
    requires DumpOf(prints, lines, adr, data)
    ensures |lines| > 0
  {
  }

  lemma {:induction false} NothingLeads(prints: Printing, adr: int, data: seq<int>)
    ensures LeadsTo(prints, [], adr, data, adr, 0)
  {
    assert data[0..] == data;
    forall rest | DumpOf(prints, rest, adr, data[0..])
      ensures DumpOf(prints, [] + rest, adr, data)
    {
      assert [] + rest == rest;
    }
  }

  lemma {:induction false} EndLeads(prints: Printing, lines: seq<string>, adr: int, data: seq<int>, a: int)
    requires LeadsTo(prints, lines, adr, data, a, |data|)
    ensures DumpOf(prints, lines + [END_LINE], adr, data)
  {
    assert DumpOf(prints, [END_LINE], a, data[|data|..]);
  }

  /** sdump, of the bytes at `adr`. */
  method DumpLines(adr: int, data: seq<int>, ghost prints: Printing) returns (lines: seq<string>)
    requires 0 <= adr < WORD && AreBytes(data) && prints == PRINTS
    ensures DumpOf(prints, lines, adr, data)
  {
    lines := [];
    var a, k := adr, 0;
    NothingLeads(prints, adr, data);
    while |data| - k > 0
      invariant 0 <= a < WORD && 0 <= k <= |data| && LeadsTo(prints, lines, adr, data, a, k)
    {
      var len := ChunkLength(|data| - k);
      var line := DumpChunk(a, data[k..k + len], prints);
      LeadsOn(prints, lines, adr, data, a, k, line);
      lines := lines + [line];
      a, k := Wrap(a + len), k + len;
    }
    EndLeads(prints, lines, adr, data, a);
    lines := lines + [END_LINE];
  }

  method DumpChunk(adr: int, ds: seq<int>, ghost prints: Printing) returns (line: string)
    requires 0 <= adr < WORD && |ds| <= 250 && AreBytes(ds) && prints == PRINTS
    ensures prints(line, adr, ds)
  {
    line := DumpRecord(adr, ds);
    RecordPrints(adr, ds);
  }

  lemma {:induction false} LoggedAppend(log: seq<Store>, addr: int, a: seq<int>, b: seq<int>)
    ensures Logged(Logged(log, addr, a), addr + |a|, b) == Logged(log, addr, a + b)
    decreases |b|
  {
    if b == [] {
      assert a + b == a;
    } else {
      var front := b[..|b| - 1];
      LoggedAppend(log, addr, a, front);
      assert (a + b)[..|a + b| - 1] == a + front;
    }
  }

  lemma {:induction false} LoggedSplit(log: seq<Store>, addr: int, data: seq<int>, len: nat)
    requires len <= |data|
    ensures Logged(Logged(log, addr, data[..len]), addr + len, data[len..]) == Logged(log, addr, data)
  {
    LoggedAppend(log, addr, data[..len], data[len..]);
    assert data[..len] + data[len..] == data;
  }

  /** A well-formed record, loaded: it is accepted if and only if its checksum is right, and its
      bytes are stored from its address on either way. */
  method LoadEncoded(loader: Loader, line: string, f: Flags, m: Layout,
                     ghost adr: int, ghost ab: seq<int>, ghost ds: seq<int>, ghost cs: int) returns (code: Code)
    requires Encodes(line, ab, ds, cs) && 0 <= adr < WORD && BigEndian(ab) == adr
    requires !f.symbolsOnly && Accepts(m, adr, |ds|)
    modifies loader
    ensures code == if f.ignoreSum || cs == CheckOf(ab, ds) then Cont else BadSum
    ensures loader.wrote == Logged(old(loader.wrote), adr, ds)
  {
    var plen;
    code, plen := loader.S3Load(line, f, 0, m, Cont, ab, ds, cs);
  }

  /** The next line of a dump that is being loaded is loadable. */
  lemma {:induction false} NextIsAccepted(a: int, left: nat, m: Layout)
    requires Sane(m) && 0 <= a < WORD && left > 0 && AllLoadable(m, a, left)
    ensures Accepts(m, a, ChunkLength(left)) && a + left < WORD
  {
    assert Loadable(m, a + left - 1);
    GuardIsExact(m, a, ChunkLength(left));
  }

  /** A line of a dump, loaded. */
  method LoadLine(loader: Loader, line: string, f: Flags, m: Layout, ghost adr: int, ghost ds: seq<int>,
                  ghost prints: Printing) returns (code: Code)
    requires prints == PRINTS && prints(line, adr, ds) && 0 <= adr < WORD
    requires !f.symbolsOnly && Accepts(m, adr, |ds|)
    modifies loader
    ensures code == Cont && loader.wrote == Logged(old(loader.wrote), adr, ds)
  {
    assert Prints(line, adr, ds);
    ghost var ab :| PrintsWith(line, adr, ds, ab);
    code := LoadEncoded(loader, line, f, m, adr, ab, ds, CheckOf(ab, ds));
  }

  /** A line that is not the last prints the next bytes, and the lines after it the rest. */
  lemma {:induction false} StepOfDump(prints: Printing, lines: seq<string>, a: int, data: seq<int>)
    requires |lines| > 1 && DumpOf(prints, lines, a, data)
    ensures data != []
    ensures var len := ChunkLength(|data|);
      prints(lines[0], a, data[..len]) && DumpOf(prints, lines[1..], Wrap(a + len), data[len..])
  {
  }

  lemma {:induction false} LastOfDump(prints: Printing, lines: seq<string>, a: int, data: seq<int>)
    requires |lines| == 1 && DumpOf(prints, lines, a, data)
    ensures data == [] && lines[0] == END_LINE
  {
  }

  lemma {:induction false} RestIsLoadable(m: Layout, a: int, size: nat, len: nat)
    requires AllLoadable(m, a, size) && len <= size
    ensures AllLoadable(m, a + len, size - len)
  {
  }

  /** The lines of a dump of loadable addresses. */
  ghost predicate Ready(prints: Printing, lines: seq<string>, adr: int, data: seq<int>, m: Layout) {
    && |lines| > 0 && 0 <= adr < WORD
    && DumpOf(prints, lines, adr, data)
    && Sane(m) && AllLoadable(m, adr, |data|)
  }

  /** What is known of the first of several lines: it prints a chunk that is accepted, and the
      lines after it dump the rest. */
  lemma {:induction false} FirstOfDump(prints: Printing, lines: seq<string>, adr: int, data: seq<int>, m: Layout,
                                       log: seq<Store>)
    returns (chunk: seq<int>, next: int, rest: seq<int>)
    requires |lines| > 1 && Ready(prints, lines, adr, data, m)
    ensures 0 <= adr < WORD && prints(lines[0], adr, chunk) && Accepts(m, adr, |chunk|)
    ensures Ready(prints, lines[1..], next, rest, m)
    ensures Logged(Logged(log, adr, chunk), next, rest) == Logged(log, adr, data)
  {
    StepOfDump(prints, lines, adr, data);
    var len := ChunkLength(|data|);
    NextIsAccepted(adr, |data|, m);
    RestIsLoadable(m, adr, |data|, len);
    LoggedSplit(log, adr, data, len);
    chunk, next, rest := data[..len], adr + len, data[len..];
  }

  /** Loading the lines of a dump up to its last line. */
  method LoadDump(loader: Loader, lines: seq<string>, f: Flags, m: Layout, ghost adr: int, ghost data: seq<int>,
                  ghost prints: Printing) returns (last: string)
    requires prints == PRINTS && Ready(prints, lines, adr, data, m) && !f.symbolsOnly
    modifies loader
    ensures last == END_LINE
    ensures loader.wrote == Logged(old(loader.wrote), adr, data)
    decreases |lines|
  {
    if |lines| == 1 {
      LastOfDump(prints, lines, adr, data);
      return lines[0];
    }
    ghost var chunk, next, rest := FirstOfDump(prints, lines, adr, data, m, loader.wrote);
    var code := LoadLine(loader, lines[0], f, m, adr, chunk, prints);
    last := LoadDump(loader, lines[1..], f, m, next, rest, prints);
  }

  lemma {:induction false} ZeroNumeral(s: string)
    requires forall i :: 0 <= i < |s| ==> s[i] == '0'
    ensures AllDigits(s, 16) && Numeral(s, 16) == 0
  {
    if s != [] {
      ZeroNumeral(s[..|s| - 1]);
    }
  }

  /** Whatever memory holds, loading a dump of loadable addresses accepts every line, ends at the
      end line, and stores exactly the dumped bytes, in order, where they came from. */
  method DumpAndLoad(loader: Loader, adr: int, data: seq<int>, f: Flags, m: Layout) returns (code: Code)
    requires Sane(m) && 0 <= adr < WORD && AreBytes(data) && !f.symbolsOnly && AllLoadable(m, adr, |data|)
    modifies loader
    ensures code == Done && loader.entry == 0
    ensures loader.wrote == Logged(old(loader.wrote), adr, data)
  {
    var lines := DumpLines(adr, data, PRINTS);
    DumpIsNotEmpty(PRINTS, lines, adr, data);
    var last := LoadDump(loader, lines, f, m, adr, data, PRINTS);
    code := LoadEnd(loader, last, f, m);
  }

  /** The end line ends the load, with entry point zero. */
  method LoadEnd(loader: Loader, line: string, f: Flags, m: Layout) returns (code: Code)
    requires line == END_LINE
    modifies loader
    ensures code == Done && loader.entry == 0 && loader.wrote == old(loader.wrote)
  {
    ZeroNumeral(line[4..12]);
    var plen;
    code, plen := loader.S3Load(line, f, 0, m, Cont, [], [], 0);
  }

  // ------------------------------------------------------------ an altered byte

  lemma {:induction false} SumUpdate(ds: seq<int>, i: nat, v: int)
    requires i < |ds|
    ensures Sum(ds[i := v]) == Sum(ds) - ds[i] + v
  {
    var front := ds[..|ds| - 1];
    if i < |ds| - 1 {
      SumUpdate(front, i, v);
      assert ds[i := v][..|ds| - 1] == front[i := v];
    } else {
      assert ds[i := v][..|ds| - 1] == front;
    }
  }

  lemma {:induction false} CheckDiffers(sum: int, d: int)
    requires -256 < d < 256 && d != 0
    ensures Check(sum + d) != Check(sum)
  {
  }

  /** Changing one byte changes the checksum that is wanted. */
  lemma {:induction false} AlteredCheck(ab: seq<int>, ds: seq<int>, i: nat, v: int)
    requires i < |ds| && AreBytes(ds) && 0 <= v < 256 && v != ds[i]
    ensures CheckOf(ab, ds[i := v]) != CheckOf(ab, ds)
  {
    SumUpdate(ds, i, v);
    CheckDiffers(|ds| + |ab| + 1 + Sum(ab) + Sum(ds), v - ds[i]);
  }

  /** A dumped line with one data byte changed is always reported as a bad checksum. */
  method LoadAltered(loader: Loader, adr: int, ds: seq<int>, i: nat, v: int, f: Flags, m: Layout) returns (code: Code)
    requires 0 <= adr < WORD && |ds| <= 250 && AreBytes(ds) && i < |ds| && 0 <= v < 256 && v != ds[i]
    requires !f.symbolsOnly && !f.ignoreSum && Accepts(m, adr, |ds|)
    modifies loader
    ensures code == BadSum
  {
    var ab := AddressOf(adr);
    var line := Text(ab, ds[i := v], CheckOf(ab, ds));
    AddressReadsBack(adr);
    TextEncodes(ab, ds[i := v], CheckOf(ab, ds));
    AlteredCheck(ab, ds, i, v);
    code := LoadEncoded(loader, line, f, m, adr, ab, ds[i := v], CheckOf(ab, ds));
  }
}
