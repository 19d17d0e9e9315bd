/** The fast download format (pmon/loadfn.c, dl_fastload): records of four characters, base-64
    data, and commands that start with a slash. */
module FastLoad {
  import opened LoadGuard

  datatype Code = Cont | Done | BadChar | BadLen | BadType | BadSum | NoSymSpace | BadAddr

  /** `symbolsOnly`, `ignoreSum`, `noSymbols` and `top` are the Y, I, N and T flags. */
  datatype Flags = Flags(symbolsOnly: bool, ignoreSum: bool, noSymbols: bool, top: bool)

  /** A byte stored, and the size of memory when it was. */
  datatype Wrote = Wrote(addr: int, byte: int, limit: int)

  // ------------------------------------------------------------ base 64

  /** The value of a base-64 digit, or 64. Characters are taken modulo 128. */
  function Digit64(c: char): (d: int)
    ensures 0 <= d <= 64
  {
    var i := c as int % 128;
    if i == 44 then 62 else if i == 46 then 63
    else if 48 <= i <= 57 then i + 4
    else if 65 <= i <= 90 then i - 65
    else if 97 <= i <= 122 then i - 71
    else 64
  }

  /** The number that the digits from place `k` up to `e` spell, in 32 bits; -1 if one is not a
      digit. */
  function SpellTo(s: string, k: nat, e: nat): (v: int)
    requires e <= |s|
    ensures -1 <= v < WORD
    decreases e
  {
    if e <= k then 0
    else
      var hi := SpellTo(s, k, e - 1);
      var d := Digit64(s[e - 1]);
      if hi < 0 || d == 64 then -1 else Wrap(hi * 64 + d)
  }

  /** The number that `n` digits from place `k` spell. */
  function Spell(s: string, k: nat, n: nat): (v: int)
    requires k + n <= |s|
    ensures -1 <= v < WORD
  {
    SpellTo(s, k, k + n)
  }

  /** What a number of `n` digits adds to the checksum. */
  function SumOf(v: int, n: int): int {
    if n == 6 then v / 0x100_0000 % 4096 + v / 0x1000 % 4096 + v % 4096
    else if n == 4 then v / 0x1000 % 4096 + v % 4096
    else if n == 2 then v % 4096
    else 0
  }

  lemma {:induction false} SpellFails(s: string, k: nat, i: nat, n: nat)
    requires i < n && k + n <= |s| && (Spell(s, k, i) < 0 || Digit64(s[k + i]) == 64)
    ensures Spell(s, k, n) == -1
    decreases n
  {
    if i < n - 1 {
      SpellFails(s, k, i, n - 1);
    }
  }

  /** The digit loop of getb64. */
  method SpellOut(s: string, k: nat, n: nat) returns (v: int)
    requires k + n <= |s|
    ensures v == Spell(s, k, n)
  {
    v := 0;
    var i := 0;
    while i < n
      invariant 0 <= i <= n && v == Spell(s, k, i) && v >= 0
    {
      var d := Digit64(s[k + i]);
      if d == 64 {
        SpellFails(s, k, i, n);
        return -1;
      }
      v := Wrap(v * 64 + d);
      i := i + 1;
    }
  }

  // ------------------------------------------------------------ what a record does

  /** What a download keeps: the size of memory, the range recorded, the bytes stored, the entry
      point, the next address, the checksum, and the register that remembers a load at the top. */
  datatype Fast = Fast(memorysize: int, span: Span, wrote: seq<Wrote>, entry: int, nextaddr: int,
                       chksum: int, a3: int)

  /** How a record ends: its code, where the next one is, and how many bytes it counts for. */
  datatype Ended = Ended(st: Fast, code: Code, next: int, len: int)

  function Zeros(n: nat): (z: seq<int>)
    ensures |z| == n
  {
    if n == 0 then [] else Zeros(n - 1) + [0]
  }

  /** The log with bytes from `addr` on added. */
  function Stored(log: seq<Wrote>, addr: int, bs: seq<int>, limit: int): seq<Wrote>
    decreases |bs|
  {
    if bs == [] then log
    else Stored(log, addr, bs[..|bs| - 1], limit) + [Wrote(addr + |bs| - 1, bs[|bs| - 1] % 256, limit)]
  }

  /** The number of `n` digits at `k` has been read. */
  function Summed(st: Fast, s: string, k: nat, n: nat): Fast
    requires k + n <= |s|
  {
    if Spell(s, k, n) < 0 then st else st.(chksum := st.chksum + SumOf(Spell(s, k, n), n))
  }

  /** Bytes to be stored from the next address on, by the record at `k`. */
  function Storing(m: Layout, st: Fast, bs: seq<int>, k: nat, f: Flags): (e: Ended)
    requires 0 <= st.nextaddr < WORD
    ensures 0 <= e.st.nextaddr < WORD && e.next == k + 4
  {
    if f.symbolsOnly then Ended(st.(nextaddr := Wrap(st.nextaddr + |bs|)), Cont, k + 4, 0)
    else if !Accepts(m.(memorysize := st.memorysize), st.nextaddr, |bs|) then Ended(st, BadAddr, k + 4, 0)
    else
      Ended(st.(span := Widen(st.span, st.nextaddr, |bs|), nextaddr := Wrap(st.nextaddr + |bs|),
                wrote := Stored(st.wrote, st.nextaddr, bs, st.memorysize)), Cont, k + 4, |bs|)
  }

  function DataRecord(m: Layout, st: Fast, s: string, k: nat, f: Flags): (e: Ended)
    requires k + 4 <= |s| && 0 <= st.nextaddr < WORD
    ensures 0 <= e.st.nextaddr < WORD && e.next == k + 4
  {
    var v := Spell(s, k, 4);
    if v < 0 then Ended(st, BadLen, k + 4, 0)
    else Storing(m, Summed(st, s, k, 4), [v / 0x1_0000, v / 0x100, v], k, f)
  }

  function ZeroRecord(m: Layout, st: Fast, s: string, k: nat, f: Flags): (e: Ended)
    requires k + 4 <= |s| && 0 <= st.nextaddr < WORD
    ensures 0 <= e.st.nextaddr < WORD && e.next == k + 4
  {
    var v := Spell(s, k + 2, 2);
    if v < 0 then Ended(st, BadChar, k + 4, 0)
    else Storing(m, Summed(st, s, k + 2, 2), Zeros(3 * v), k, f)
  }

  function ByteRecord(m: Layout, st: Fast, s: string, k: nat, f: Flags): (e: Ended)
    requires k + 4 <= |s| && 0 <= st.nextaddr < WORD
    ensures 0 <= e.st.nextaddr < WORD && e.next == k + 4
  {
    var v := Spell(s, k + 2, 2);
    if v < 0 then Ended(st, BadChar, k + 4, 0)
    else Storing(m, Summed(st, s, k + 2, 2), [v], k, f)
  }

  function SumRecord(st: Fast, s: string, k: nat, f: Flags): Ended
    requires k + 4 <= |s|
  {
    var v := Spell(s, k + 2, 2);
    if v < 0 then Ended(st, BadChar, k + 4, 0)
    else if !f.ignoreSum && v != st.chksum % 4096 then Ended(st.(chksum := st.chksum % 4096), BadSum, k + 4, 0)
    else Ended(st.(chksum := 0), Cont, k + 4, 0)
  }

  function AddressRecord(st: Fast, s: string, k: nat, f: Flags, offset: int): Ended
    requires k + 4 <= |s|
  {
    if k + 8 > |s| then Ended(st, BadLen, k + 4, 0)
    else
      var v := Spell(s, k + 2, 6);
      var st1 := Summed(st, s, k + 2, 6);
      if v < 0 then Ended(st, BadChar, k + 8, 0)
      else if f.top && st.a3 == 0 then
        var size := Wrap(st.memorysize - v);
        Ended(st1.(memorysize := size, nextaddr := Wrap(size + K0BASE), a3 := Wrap(size + K0BASE)), Cont, k + 8, 0)
      else Ended(st1.(nextaddr := Wrap(v + offset)), Cont, k + 8, 0)
  }

  /** The first comma from place `i` on; the length if there is none. */
  function Comma(s: string, i: nat): (c: int)
    requires i <= |s|
    ensures i <= c <= |s| && (c < |s| ==> s[c] == ',') && forall j :: i <= j < c ==> s[j] != ','
    decreases |s| - i
  {
    if i == |s| || s[i] == ',' then i else Comma(s, i + 1)
  }

  /** A symbol's name ends at a comma, in some later record. */
  function SymbolRecord(st: Fast, s: string, k: nat, f: Flags, newsym: bool): Ended
    requires k + 4 <= |s|
  {
    var c := Comma(s, k + 2);
    if c == |s| then Ended(st, BadLen, k + 4, 0)
    else Ended(st, if f.noSymbols || newsym then Cont else NoSymSpace, k + (c - k) / 4 * 4 + 4, 0)
  }

  /** The record at place `k`; `newsym` is what adding a symbol there comes to. */
  function Record(m: Layout, st: Fast, s: string, k: nat, f: Flags, offset: int, newsym: bool): (e: Ended)
    requires k + 4 <= |s| && 0 <= st.nextaddr < WORD
    ensures k + 4 <= e.next && 0 <= e.st.nextaddr < WORD
  {
    if s[k] != '/' then DataRecord(m, st, s, k, f)
    else if s[k + 1] == 'K' then Ended(st.(chksum := 0), Cont, k + 4, 0)
    else if s[k + 1] == 'C' then SumRecord(st, s, k, f)
    else if s[k + 1] == 'Z' then ZeroRecord(m, st, s, k, f)
    else if s[k + 1] == 'B' then ByteRecord(m, st, s, k, f)
    else if s[k + 1] == 'A' then AddressRecord(st, s, k, f, offset)
    else if s[k + 1] == 'E' then Ended(st.(entry := st.nextaddr), Done, k + 4, 0)
    else if s[k + 1] == 'S' then SymbolRecord(st, s, k, f, newsym)
    else Ended(st, BadType, k + 4, 0)
  }

  type Reader = (Fast, int) -> Ended

  /** What each record of a text does. */
  function Records(m: Layout, s: string, f: Flags, offset: int, newsym: int -> bool): Reader {
    (st: Fast, k: int) =>
      if 0 <= k && k + 4 <= |s| && 0 <= st.nextaddr < WORD
      then Record(m, st, s, k, f, offset, newsym(k)) else Ended(st, BadLen, k, 0)
  }

  lemma {:induction false} RecordsAt(m: Layout, s: string, f: Flags, offset: int, newsym: int -> bool, st: Fast, k: nat)
    requires k + 4 <= |s| && 0 <= st.nextaddr < WORD
    ensures Records(m, s, f, offset, newsym)(st, k) == Record(m, st, s, k, f, offset, newsym(k))
  {
  }

  /** The records that a symbols-only load ends at: those of data. */
  function Ends(s: string, f: Flags): int -> bool {
    (k: int) => f.symbolsOnly && 0 <= k < |s| && s[k] != '/'
  }

  /** The records from place `k` on, with `len` bytes counted and `done` the code so far. */
  function Played(rec: Reader, ends: int -> bool, size: nat, st: Fast, k: int, len: int, done: Code): (Fast, Code, int)
    decreases size - k
  {
    if k >= size then (st, done, len)
    else
      var e := rec(st, k);
      if e.next <= k || (e.code != Cont && e.code != Done) then (e.st, e.code, 0)
      else if ends(k) then (e.st, done, len)
      else Played(rec, ends, size, e.st, e.next, len + e.len, if e.code == Done then Done else done)
  }

  // ------------------------------------------------------------ bytes there and back

  /** The character of a base-64 digit. */
  function Char64(d: int): (c: char)
    requires 0 <= d < 64
    ensures Digit64(c) == d && c != '/'
  {
    if d < 26 then (d + 65) as char
    else if d < 52 then (d + 71) as char
    else if d < 62 then (d - 4) as char
    else if d == 62 then ',' else '.'
  }

  /** Three bytes. */
  datatype Triple = Triple(b0: int, b1: int, b2: int)

  predicate AreBytes(t: Triple) {
    0 <= t.b0 < 256 && 0 <= t.b1 < 256 && 0 <= t.b2 < 256
  }

  /** The data record of three bytes. */
  function Group(t: Triple): (s: string)
    requires AreBytes(t)
    ensures |s| == 4
  {
    [Char64(t.b0 / 4), Char64(t.b0 % 4 * 16 + t.b1 / 16), Char64(t.b1 % 16 * 4 + t.b2 / 64), Char64(t.b2 % 64)]
  }

  predicate AllBytes(ts: seq<Triple>) {
    forall i :: 0 <= i < |ts| ==> AreBytes(ts[i])
  }

  /** The data records of any bytes, three to a record. */
  function Groups(ts: seq<Triple>): (s: string)
    requires AllBytes(ts)
    ensures |s| == 4 * |ts|
  {
    if ts == [] then "" else Group(ts[0]) + Groups(ts[1..])
  }

  function Three(t: Triple): (bs: seq<int>) {
    [t.b0, t.b1, t.b2]
  }

  function Flat(ts: seq<Triple>): (bs: seq<int>)
    ensures |bs| == 3 * |ts|
  {
    if ts == [] then [] else Three(ts[0]) + Flat(ts[1..])
  }

  lemma {:induction false} GroupNumber(t: Triple) returns (v2: int, v3: int, v4: int)
    requires AreBytes(t)
    ensures v2 == t.b0 / 4 * 64 + (t.b0 % 4 * 16 + t.b1 / 16) && 0 <= v2 < 4096
    ensures v3 == v2 * 64 + (t.b1 % 16 * 4 + t.b2 / 64) && 0 <= v3 < 0x4_0000
    ensures v4 == v3 * 64 + t.b2 % 64 == (t.b0 * 256 + t.b1) * 256 + t.b2 && 0 <= v4 < 0x100_0000
  {
    v2 := t.b0 / 4 * 64 + (t.b0 % 4 * 16 + t.b1 / 16);
    assert v2 == t.b0 * 16 + t.b1 / 16;
    v3 := v2 * 64 + (t.b1 % 16 * 4 + t.b2 / 64);
    assert v3 == (t.b0 * 256 + t.b1) * 4 + t.b2 / 64;
    v4 := v3 * 64 + t.b2 % 64;
  }

  lemma {:induction false} GroupBytes(t: Triple, v: int)
    requires AreBytes(t) && v == (t.b0 * 256 + t.b1) * 256 + t.b2
    ensures v / 0x1_0000 == t.b0 && v / 0x100 % 256 == t.b1 && v % 256 == t.b2
  {
    var h := t.b0 * 256 + t.b1;
    assert v / 0x100 == h && v % 256 == t.b2;
    assert h % 256 == t.b1 && h / 256 == t.b0;
    assert v / 0x1_0000 == h / 256;
  }

  lemma {:induction false} SpellOne(s: string, k: nat, n: nat)
    requires k + n < |s| && Digit64(s[k + n]) < 64 && 0 <= Spell(s, k, n) < 0x4_0000
    ensures Spell(s, k, n + 1) == Spell(s, k, n) * 64 + Digit64(s[k + n])
  {
  }

  lemma {:induction false} SpellFour(s: string, k: nat, n: nat)
    requires n == 4 && k + n <= |s| && forall i :: k <= i < k + n ==> Digit64(s[i]) < 64
    ensures Spell(s, k, n)
         == ((Digit64(s[k]) * 64 + Digit64(s[k + 1])) * 64 + Digit64(s[k + 2])) * 64 + Digit64(s[k + 3])
  {
    SpellOne(s, k, n - 4);
    SpellOne(s, k, n - 3);
    SpellOne(s, k, n - 2);
    SpellOne(s, k, n - 1);
  }

  /** A record of three bytes is read as their number. */
  lemma {:induction false} SpellGroup(s: string, k: nat, t: Triple, n: nat)
    requires AreBytes(t) && n == 4 && k + n <= |s| && s[k..k + n] == Group(t)
    ensures s[k] != '/' && Spell(s, k, n) == (t.b0 * 256 + t.b1) * 256 + t.b2
  {
    var g := Group(t);
    forall i | k <= i < k + n
      ensures Digit64(s[i]) < 64
    {
      assert s[i] == g[i - k];
    }
    assert s[k] == g[0] && s[k + 1] == g[1] && s[k + 2] == g[2] && s[k + 3] == g[3];
    SpellFour(s, k, n);
    var v2, v3, v4 := GroupNumber(t);
  }

  lemma {:induction false} StoredAppend(log: seq<Wrote>, addr: int, xs: seq<int>, ys: seq<int>, limit: int)
    ensures Stored(log, addr, xs + ys, limit) == Stored(Stored(log, addr, xs, limit), addr + |xs|, ys, limit)
    decreases |ys|
  {
    if ys == [] {
      assert xs + ys == xs;
    } else {
      StoredAppend(log, addr, xs, ys[..|ys| - 1], limit);
      assert (xs + ys)[..|xs + ys| - 1] == xs + ys[..|ys| - 1];
    }
  }

  /** Only the low bytes of what is stored matter. */
  lemma {:induction false} StoredSame(log: seq<Wrote>, addr: int, xs: seq<int>, ys: seq<int>, limit: int)
    requires |xs| == |ys| && forall i :: 0 <= i < |xs| ==> xs[i] % 256 == ys[i] % 256
    ensures Stored(log, addr, xs, limit) == Stored(log, addr, ys, limit)
    decreases |xs|
  {
    if xs != [] {
      StoredSame(log, addr, xs[..|xs| - 1], ys[..|ys| - 1], limit);
    }
  }

  /** Everything from the next address on, for `size` bytes, may be loaded. */
  ghost predicate Room(m: Layout, st: Fast, size: nat) {
    && 0 <= st.nextaddr < WORD && Sane(m.(memorysize := st.memorysize))
    && AllLoadable(m.(memorysize := st.memorysize), st.nextaddr, size)
  }

  /** Bytes that have room are stored. */
  lemma {:induction false} RoomStores(m: Layout, st: Fast, bs: seq<int>, k: nat, f: Flags)
    requires Room(m, st, |bs|) && 0 < |bs| < 0x1_0000 && !f.symbolsOnly
    ensures Storing(m, st, bs, k, f)
            == Ended(st.(span := Widen(st.span, st.nextaddr, |bs|), nextaddr := st.nextaddr + |bs|,
                         wrote := Stored(st.wrote, st.nextaddr, bs, st.memorysize)), Cont, k + 4, |bs|)
  {
    var size := m.(memorysize := st.memorysize);
    GuardIsExact(size, st.nextaddr, |bs|);
    AcceptedEnds(size, st.nextaddr, |bs|);
  }

  /** One data record stores its three bytes. */
  lemma {:induction false} GroupStores(m: Layout, st: Fast, s: string, k: nat, f: Flags, t: Triple)
    requires AreBytes(t) && k + 4 <= |s| && s[k..k + 4] == Group(t) && Room(m, st, 3) && !f.symbolsOnly
    ensures s[k] != '/'
    ensures var e := DataRecord(m, st, s, k, f);
      && e.code == Cont && e.len == 3 && e.st.memorysize == st.memorysize && e.st.nextaddr == st.nextaddr + 3
      && e.st.wrote == Stored(st.wrote, st.nextaddr, Three(t), st.memorysize)
  {
    SpellGroup(s, k, t, 4);
    var v := Spell(s, k, 4);
    var bs := [v / 0x1_0000, v / 0x100, v];
    RoomStores(m, Summed(st, s, k, 4), bs, k, f);
    GroupLog(t, v, st.wrote, st.nextaddr, st.memorysize);
  }

  lemma {:induction false} GroupLog(t: Triple, v: int, log: seq<Wrote>, addr: int, limit: int)
    requires AreBytes(t) && v == (t.b0 * 256 + t.b1) * 256 + t.b2
    ensures Stored(log, addr, [v / 0x1_0000, v / 0x100, v], limit) == Stored(log, addr, Three(t), limit)
  {
    GroupBytes(t, v);
    var xs, ys := [v / 0x1_0000, v / 0x100, v], Three(t);
    assert xs[0] % 256 == ys[0] % 256 && xs[1] % 256 == ys[1] % 256 && xs[2] % 256 == ys[2] % 256;
    StoredSame(log, addr, xs, ys, limit);
  }

  /** So it does in a text, and the load goes on behind it. */
  lemma {:induction false} GroupRead(m: Layout, st: Fast, s: string, k: nat, f: Flags, offset: int,
                                     newsym: int -> bool, t: Triple, rec: Reader, ends: int -> bool,
                                     len: int, done: Code)
    returns (st': Fast)
    requires AreBytes(t) && k + 4 <= |s| && s[k..k + 4] == Group(t) && Room(m, st, 3) && !f.symbolsOnly
    requires rec == Records(m, s, f, offset, newsym) && ends == Ends(s, f)
    ensures st'.memorysize == st.memorysize && st'.nextaddr == st.nextaddr + 3 < WORD
    ensures st'.wrote == Stored(st.wrote, st.nextaddr, Three(t), st.memorysize)
    ensures Played(rec, ends, |s|, st, k, len, done) == Played(rec, ends, |s|, st', k + 4, len + 3, done)
  {
    GroupStores(m, st, s, k, f, t);
    assert rec(st, k) == DataRecord(m, st, s, k, f) by {
      RecordsAt(m, s, f, offset, newsym, st, k);
    }
    st' := DataRecord(m, st, s, k, f).st;
    PlayedOn(rec, ends, |s|, st, k, len, done, st');
  }

  lemma {:induction false} PlayedCases(rec: Reader, ends: int -> bool, size: nat, st: Fast, k: int, len: int,
                                       done: Code)
    requires k < size && k < rec(st, k).next
    ensures var e := rec(st, k);
      Played(rec, ends, size, st, k, len, done)
      == if e.code != Cont && e.code != Done then (e.st, e.code, 0)
         else if ends(k) then (e.st, done, len)
         else Played(rec, ends, size, e.st, e.next, len + e.len, if e.code == Done then Done else done)
  {
  }

  lemma {:induction false} PlayedOn(rec: Reader, ends: int -> bool, size: nat, st: Fast, k: int, len: int, done: Code,
                                    st': Fast)
    requires k < size && !ends(k) && rec(st, k) == Ended(st', Cont, k + 4, 3)
    ensures Played(rec, ends, size, st, k, len, done) == Played(rec, ends, size, st', k + 4, len + 3, done)
  {
  }

  lemma {:induction false} RoomFirst(m: Layout, st: Fast, size: nat)
    requires Room(m, st, size) && 3 <= size
    ensures Room(m, st, 3)
  {
  }

  lemma {:induction false} RoomAfter(m: Layout, st: Fast, st': Fast, size: nat)
    requires Room(m, st, size) && 3 <= size && st'.memorysize == st.memorysize && st'.nextaddr == st.nextaddr + 3 < WORD
    ensures Room(m, st', size - 3)
  {
  }

  lemma {:induction false} GroupsStored(m: Layout, st: Fast, s: string, k: nat, ts: seq<Triple>, f: Flags, offset: int,
                                        newsym: int -> bool, len: int, done: Code, rec: Reader, ends: int -> bool,
                                        total: int)
    returns (final: Fast)
    requires AllBytes(ts) && k <= |s| && s[k..] == Groups(ts)
    requires Room(m, st, 3 * |ts|) && !f.symbolsOnly && total == len + 3 * |ts|
    requires rec == Records(m, s, f, offset, newsym) && ends == Ends(s, f)
    ensures Played(rec, ends, |s|, st, k, len, done) == (final, done, total)
    ensures final.wrote == Stored(st.wrote, st.nextaddr, Flat(ts), st.memorysize)
    decreases |ts|
  {
    if ts == [] {
      assert |s[k..]| == 0;
      final := st;
    } else {
      GroupsFirst(s, k, ts);
      RoomFirst(m, st, 3 * |ts|);
      var st' := GroupRead(m, st, s, k, f, offset, newsym, ts[0], rec, ends, len, done);
      RoomAfter(m, st, st', 3 * |ts|);
      final := GroupsStored(m, st', s, k + 4, ts[1..], f, offset, newsym, len + 3, done, rec, ends, total);
      FlatStored(st.wrote, st.nextaddr, ts, st.memorysize, st'.wrote, st'.nextaddr);
    }
  }

  /** Loading the records of any bytes, to addresses that may be loaded, accepts every record and
      stores exactly those bytes, in order. */
  lemma {:induction false} TextStored(m: Layout, st: Fast, ts: seq<Triple>, f: Flags, offset: int, newsym: int -> bool)
    requires AllBytes(ts) && Room(m, st, 3 * |ts|) && !f.symbolsOnly
    ensures var s := Groups(ts);
      var r := Played(Records(m, s, f, offset, newsym), Ends(s, f), |s|, st, 0, 0, Cont);
      r.1 == Cont && r.2 == 3 * |ts| && r.0.wrote == Stored(st.wrote, st.nextaddr, Flat(ts), st.memorysize)
  {
    var s := Groups(ts);
    assert s[0..] == s;
    var rec := Records(m, s, f, offset, newsym);
    var final := GroupsStored(m, st, s, 0, ts, f, offset, newsym, 0, Cont, rec, Ends(s, f), 3 * |ts|);
  }

  lemma {:induction false} GroupsFirst(s: string, k: nat, ts: seq<Triple>)
    requires AllBytes(ts) && ts != [] && k <= |s| && s[k..] == Groups(ts)
    ensures k + 4 <= |s| && s[k..k + 4] == Group(ts[0]) && s[k + 4..] == Groups(ts[1..])
  {
    var t := s[k..];
    assert t[..4] == Group(ts[0]) && t[4..] == Groups(ts[1..]);
    assert s[k..k + 4] == t[..4] && s[k + 4..] == t[4..];
  }

  lemma {:induction false} FlatStored(log: seq<Wrote>, addr: int, ts: seq<Triple>, limit: int,
                                      log': seq<Wrote>, addr': int)
    requires ts != [] && log' == Stored(log, addr, Three(ts[0]), limit) && addr' == addr + 3
    ensures Stored(log, addr, Flat(ts), limit) == Stored(log', addr', Flat(ts[1..]), limit)
  {
    StoredAppend(log, addr, Three(ts[0]), Flat(ts[1..]), limit);
  }

  // ------------------------------------------------------------ the loader

  /** The byte was stored where it might be, with the memory there was, inside the range recorded. */
  predicate WellPlaced(m: Layout, s: Span, w: Wrote) {
    Placed(m.(memorysize := w.limit), s, w.addr)
  }

  ghost predicate AllPlaced(m: Layout, s: Span, log: seq<Wrote>) {
    forall i :: 0 <= i < |log| ==> WellPlaced(m, s, log[i])
  }

  lemma {:induction false} StillPlaced(m: Layout, s: Span, log: seq<Wrote>, addr: int, size: int)
    requires AllPlaced(m, s, log)
    ensures AllPlaced(m, Widen(s, addr, size), log)
  {
    forall i | 0 <= i < |log|
      ensures WellPlaced(m, Widen(s, addr, size), log[i])
    {
      assert WellPlaced(m, s, log[i]);
    }
  }

  class FastLoader {
    const m: Layout
    var memorysize: int
    var span: Span
    var wrote: seq<Wrote>
    var entry: int
    var nextaddr: int
    var chksum: int
    var a3: int

    constructor (m: Layout, memorysize: int, nextaddr: int, a3: int)
      requires 0 <= nextaddr < WORD
      ensures Safe() && this.m == m
      ensures Contents() == Fast(memorysize, Span(WORD - 1, 0), [], 0, nextaddr, 0, a3)
    {
      this.m := m;
      this.memorysize, this.nextaddr, this.a3 := memorysize, nextaddr, a3;
      span, wrote, entry, chksum := Span(WORD - 1, 0), [], 0, 0;
    }

    function Contents(): Fast
      reads this
    {
      Fast(memorysize, span, wrote, entry, nextaddr, chksum, a3)
    }

    /** Every byte so far went where it might. */
    ghost predicate Safe()
      reads this
    {
      0 <= nextaddr < WORD && AllPlaced(m, span, wrote)
    }

    /** getb64: `n` digits; a negative `n` leaves the checksum alone. */
    method GetB64(s: string, k: nat, n: int) returns (v: int)
      requires k + (if n < 0 then -n else n) <= |s|
      modifies `chksum
      ensures v == Spell(s, k, if n < 0 then -n else n)
      ensures chksum == old(chksum) + if v < 0 then 0 else SumOf(v, n)
    {
      v := SpellOut(s, k, if n < 0 then -n else n);
      if v >= 0 {
        chksum := chksum + SumOf(v, n);
      }
    }

    /** Checks the range from the next address on; the stores that follow stay inside it. */
    method Check(size: int) returns (ok: bool)
      requires Safe()
      modifies `span
      ensures Safe()
      ensures ok == Accepts(m.(memorysize := memorysize), nextaddr, size)
      ensures span == if ok then Widen(old(span), nextaddr, size) else old(span)
    {
      ok := Accepts(m.(memorysize := memorysize), nextaddr, size);
      if ok {
        StillPlaced(m, span, wrote, nextaddr, size);
        span := Widen(span, nextaddr, size);
      }
    }

    /** Stores a byte at the next address. */
    method Put(v: int)
      requires Safe() && Placed(m.(memorysize := memorysize), span, nextaddr)
      modifies `wrote, `nextaddr
      ensures Safe() && nextaddr == old(nextaddr) + 1
      ensures wrote == old(wrote) + [Wrote(old(nextaddr), v % 256, memorysize)]
    {
      wrote := wrote + [Wrote(nextaddr, v % 256, memorysize)];
      nextaddr := nextaddr + 1;
    }

    /** Stores bytes from the next address on, in an accepted range. */
    method PutAll(bs: seq<int>)
      requires Safe() && AllGood(m.(memorysize := memorysize), span, nextaddr, |bs|)
      modifies `wrote, `nextaddr
      ensures Safe() && nextaddr == old(nextaddr) + |bs|
      ensures wrote == Stored(old(wrote), old(nextaddr), bs, memorysize)
    {
      var i := 0;
      while i < |bs|
        invariant 0 <= i <= |bs| && Safe() && nextaddr == old(nextaddr) + i
        invariant wrote == Stored(old(wrote), old(nextaddr), bs[..i], memorysize)
      {
        assert bs[..i + 1][..i] == bs[..i];
        Put(bs[i]);
        i := i + 1;
      }
      assert bs[..i] == bs;
    }

    /** Checks and stores bytes, or refuses; with the Y flag only counts them. */
    method Write(bs: seq<int>, k: nat, f: Flags) returns (code: Code, len: int)
      requires Safe() && |bs| < 0x1_0000
      modifies `span, `wrote, `nextaddr
      ensures Safe()
      ensures Ended(Contents(), code, k + 4, len) == Storing(m, old(Contents()), bs, k, f)
    {
      if f.symbolsOnly {
        nextaddr := Wrap(nextaddr + |bs|);
        return Cont, 0;
      }
      var before := span;
      var ok := Check(|bs|);
      if !ok {
        return BadAddr, 0;
      }
      AcceptedIsGood(m.(memorysize := memorysize), before, nextaddr, |bs|);
      AcceptedEnds(m.(memorysize := memorysize), nextaddr, |bs|);
      PutAll(bs);
      return Cont, |bs|;
    }

    /** /Z: three zero bytes for each count. */
    method ZeroFill(s: string, k: nat, f: Flags) returns (code: Code, len: int)
      requires Safe() && k + 4 <= |s|
      modifies this
      ensures Safe()
      ensures Ended(Contents(), code, k + 4, len) == ZeroRecord(m, old(Contents()), s, k, f)
    {
      var zcnt := GetB64(s, k + 2, 2);
      if zcnt < 0 {
        return BadChar, 0;
      }
      TwoDigits(s, k + 2);
      code, len := Write(Zeros(3 * zcnt), k, f);
    }

    /** /B: one byte. */
    method OneByte(s: string, k: nat, f: Flags) returns (code: Code, len: int)
      requires Safe() && k + 4 <= |s|
      modifies this
      ensures Safe()
      ensures Ended(Contents(), code, k + 4, len) == ByteRecord(m, old(Contents()), s, k, f)
    {
      var bdat := GetB64(s, k + 2, 2);
      if bdat < 0 {
        return BadChar, 0;
      }
      code, len := Write([bdat], k, f);
    }

    /** Four digits: three bytes, the high one first. */
    method ThreeBytes(s: string, k: nat, f: Flags) returns (code: Code, len: int)
      requires Safe() && k + 4 <= |s|
      modifies this
      ensures Safe()
      ensures Ended(Contents(), code, k + 4, len) == DataRecord(m, old(Contents()), s, k, f)
    {
      var bdat := GetB64(s, k, 4);
      if bdat < 0 {
        return BadLen, 0;
      }
      code, len := Write([bdat / 0x1_0000, bdat / 0x100, bdat], k, f);
    }

    /** /C: the checksum so far against the one sent. */
    method CompareSum(s: string, k: nat, f: Flags) returns (code: Code)
      requires Safe() && k + 4 <= |s|
      modifies `chksum
      ensures Safe()
      ensures Ended(Contents(), code, k + 4, 0) == SumRecord(old(Contents()), s, k, f)
    {
      var sent := GetB64(s, k + 2, -2);
      if sent < 0 {
        return BadChar;
      }
      chksum := chksum % 4096;
      if !f.ignoreSum && sent != chksum {
        return BadSum;
      }
      chksum := 0;
      return Cont;
    }

    /** /A: where to go on; with the T flag the first one takes memory from the top. */
    method Address(s: string, k: nat, f: Flags, offset: int, ghost n: nat) returns (code: Code, next: int, ghost j: nat)
      requires Safe() && k + 4 <= |s| == k + 4 * n
      modifies `chksum, `nextaddr, `memorysize, `a3
      ensures Safe() && next == k + 4 * j && 0 < j <= n
      ensures Ended(Contents(), code, next, 0) == AddressRecord(old(Contents()), s, k, f, offset)
    {
      if k + 4 >= |s| {
        return BadLen, k + 4, 1;
      }
      var addr := GetB64(s, k + 2, 6);
      if addr < 0 {
        return BadChar, k + 8, 2;
      }
      if f.top && a3 == 0 {
        memorysize := Wrap(memorysize - addr);
        nextaddr := Wrap(memorysize + K0BASE);
        a3 := nextaddr;
      } else {
        nextaddr := Wrap(addr + offset);
      }
      return Cont, k + 8, 2;
    }

    /** The end of a name: where the record after its comma is, or -1 if there is none. */
    method SkipName(s: string, k: nat, ghost n: nat) returns (blkinx: int, ghost j: nat)
      requires k + 4 <= |s| == k + 4 * n
      ensures var c := Comma(s, k + 2); blkinx == if c == |s| then -1 else k + (c - k) / 4 * 4 + 4
      ensures blkinx != -1 ==> blkinx == k + 4 * j && 0 < j <= n
    {
      var i := k + 2;
      blkinx, j := k + 4, 1;
      while s[i] != ','
        invariant 0 < j <= n && blkinx == k + 4 * j && blkinx - 4 <= i < blkinx && k + 2 <= i
        invariant Comma(s, i) == Comma(s, k + 2)
        decreases |s| - i
      {
        i := i + 1;
        if i >= blkinx {
          if blkinx >= |s| {
            return -1, 0;
          }
          blkinx, j := blkinx + 4, j + 1;
        }
      }
      RecordOf(i - k, j);
    }

    /** One command after a slash; `newsym` is what adding a symbol comes to. */
    method Slash(s: string, k: nat, f: Flags, offset: int, newsym: bool, ghost n: nat)
        returns (code: Code, next: int, len: int, ghost j: nat)
      requires Safe() && k + 4 <= |s| == k + 4 * n && s[k] == '/'
      modifies this
      ensures Safe() && next == k + 4 * j && 0 < j <= n
      ensures Ended(Contents(), code, next, len) == Record(m, old(Contents()), s, k, f, offset, newsym)
    {
      code, next, len, j := Cont, k + 4, 0, 1;
      if s[k + 1] == 'K' {
        chksum := 0;
      } else if s[k + 1] == 'C' {
        code := CompareSum(s, k, f);
      } else if s[k + 1] == 'Z' {
        code, len := ZeroFill(s, k, f);
      } else if s[k + 1] == 'B' {
        code, len := OneByte(s, k, f);
      } else if s[k + 1] == 'A' {
        code, next, j := Address(s, k, f, offset, n);
      } else if s[k + 1] == 'E' {
        entry := nextaddr;
        code := Done;
      } else if s[k + 1] == 'S' {
        var end;
        ghost var e;
        end, e := SkipName(s, k, n);
        if end == -1 {
          code := BadLen;
        } else {
          next, j := end, e;
          code := if f.noSymbols || newsym then Cont else NoSymSpace;
        }
      } else {
        code := BadType;
      }
    }

    method OneRecord(s: string, k: nat, f: Flags, offset: int, newsym: int -> bool, ghost rec: Reader, ghost n: nat)
        returns (code: Code, next: int, len: int, last: bool, ghost j: nat)
      requires Safe() && k + 4 <= |s| == k + 4 * n && rec == Records(m, s, f, offset, newsym)
      modifies this
      ensures Safe() && next == k + 4 * j && 0 < j <= n && last == Ends(s, f)(k) && (last ==> code != Done)
      ensures Ended(Contents(), code, next, len) == rec(old(Contents()), k)
    {
      RecordsAt(m, s, f, offset, newsym, Contents(), k);
      last := f.symbolsOnly && s[k] != '/';
      if s[k] == '/' {
        code, next, len, j := Slash(s, k, f, offset, newsym(k), n);
      } else {
        next, j := k + 4, 1;
        code, len := ThreeBytes(s, k, f);
      }
    }

    /** dl_fastload: the records do what each of them does, one after the other; and whatever the
        text, every byte is stored where it may be and inside the range recorded. */
    method Load(recbuf: string, f: Flags, offset: int, newsym: int -> bool) returns (code: Code, plen: int)
      requires Safe()
      modifies this
      ensures Safe()
      ensures |recbuf| % 4 != 0 ==> code == BadLen && plen == 0 && Contents() == old(Contents())
      ensures |recbuf| % 4 == 0 ==>
        (Contents(), code, plen)
        == Played(Records(m, recbuf, f, offset, newsym), Ends(recbuf, f), |recbuf|, old(Contents()), 0, 0, Cont)
    {
      if |recbuf| % 4 != 0 {
        return BadLen, 0;
      }
      ghost var rec := Records(m, recbuf, f, offset, newsym);
      code, plen := PlayAll(recbuf, f, offset, newsym, rec, Ends(recbuf, f), |recbuf| / 4);
    }

    /** One turn of its loop. */
    method Turn(recbuf: string, k: nat, f: Flags, offset: int, newsym: int -> bool, len: int, done: Code,
                ghost rec: Reader, ghost ends: int -> bool, ghost n: nat)
        returns (stop: bool, code: Code, plen: int, next: int, ghost j: nat)
      requires Safe() && k + 4 <= |recbuf| == k + 4 * n
      requires rec == Records(m, recbuf, f, offset, newsym) && ends == Ends(recbuf, f)
      modifies this
      ensures Safe() && next == k + 4 * j && 0 < j <= n
      ensures Played(rec, ends, |recbuf|, old(Contents()), k, len, done)
           == if stop then (Contents(), code, plen) else Played(rec, ends, |recbuf|, Contents(), next, plen, code)
    {
      ghost var st := Contents();
      var size, last;
      code, next, size, last, j := OneRecord(recbuf, k, f, offset, newsym, rec, n);
      PlayedCases(rec, ends, |recbuf|, st, k, len, done);
      if code != Cont && code != Done {
        stop, plen := true, 0;
      } else if last {
        stop, code, plen := true, done, len;
      } else {
        stop, plen := false, len + size;
        if code != Done {
          code := done;
        }
      }
    }

    /** Its loop. */
    method PlayAll(recbuf: string, f: Flags, offset: int, newsym: int -> bool,
                   ghost rec: Reader, ghost ends: int -> bool, ghost records: nat)
        returns (code: Code, plen: int)
      requires Safe() && |recbuf| == 4 * records
      requires rec == Records(m, recbuf, f, offset, newsym) && ends == Ends(recbuf, f)
      modifies this
      ensures Safe()
      ensures (Contents(), code, plen) == Played(rec, ends, |recbuf|, old(Contents()), 0, 0, Cont)
    {
      code, plen := Cont, 0;
      var blkinx := 0;
      ghost var left := records;
      while blkinx < |recbuf|
        invariant Safe() && 0 <= blkinx && |recbuf| == blkinx + 4 * left
        invariant Played(rec, ends, |recbuf|, old(Contents()), 0, 0, Cont)
               == Played(rec, ends, |recbuf|, Contents(), blkinx, plen, code)
        decreases left
      {
        var stop;
        ghost var j;
        stop, code, plen, blkinx, j := Turn(recbuf, blkinx, f, offset, newsym, plen, code, rec, ends, left);
        if stop {
          return;
        }
        left := left - j;
      }
    }
  }

  ghost predicate AllGood(m: Layout, s: Span, addr: int, size: int) {
    forall a :: addr <= a < addr + size ==> Placed(m, s, a)
  }

  lemma {:induction false} AcceptedIsGood(m: Layout, s: Span, addr: int, size: int)
    requires 0 <= addr < WORD && 0 <= size < 0x1_0000 && Accepts(m, addr, size)
    ensures AllGood(m, Widen(s, addr, size), addr, size)
  {
    forall a | addr <= a < addr + size
      ensures Placed(m, Widen(s, addr, size), a)
    {
      AcceptedIsPlaced(m, s, addr, size, a);
    }
  }

  lemma {:induction false} AcceptedEnds(m: Layout, addr: int, size: int)
    requires 0 <= addr < WORD && 0 <= size < 0x1_0000 && Accepts(m, addr, size)
    ensures Wrap(addr + size) == addr + size
  {
    if size > 0 {
      AcceptedRange(m, addr, size);
    }
  }

  /** Place `i` is in the record that ends at 4 * `j`. */
  lemma {:induction false} RecordOf(i: nat, j: nat)
    requires 4 * j - 4 <= i < 4 * j
    ensures i / 4 * 4 + 4 == 4 * j
  {
  }

  lemma {:induction false} TwoDigits(s: string, k: nat)
    requires k + 2 <= |s|
    ensures Spell(s, k, 2) < 4096
  {
    assert SpellTo(s, k, k) == 0;
    assert SpellTo(s, k, k + 1) < 64;
  }
}
