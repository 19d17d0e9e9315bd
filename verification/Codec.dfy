/** Packet framing of the remote debugger's serial link (pmon/debug.c putpkt, getpkt).

    A packet is SYN, a type-and-length character, a length character, a sequence
    character, the text, and an 18-bit sum of everything after the SYN in three
    characters. Sums and fields travel six bits at a time, offset by '@'. */
module Codec {
  import opened Link

  const SYN := 22
  const AT := 64
  const MAXMSG := 80

  // ------------------------------------------------------------ encoder

  /** The character that carries the six-bit value `v`. */
  function Six(v: nat): int
    requires v < 64
  {
    v + AT
  }

  predicate SevenBit(s: Text) {
    forall i :: 0 <= i < |s| ==> 0 <= s[i] < 128
  }

  predicate LegalCheck(c: Text) {
    |c| == 3 && AT <= c[0] && AT <= c[1] && AT <= c[2]
  }

  function Sum(s: Text): int {
    if s == [] then 0 else Sum(s[..|s| - 1]) + s[|s| - 1]
  }

  /** The three checksum characters of an 18-bit sum. */
  function Check(sum: int): Text
  {
    [Six(sum / 4096 % 64), Six(sum / 64 % 64), Six(sum % 64)]
  }

  function TextOf(p: Packet): Text {
    if p.Data? then p.msg else []
  }

  /** The three header characters. */
  function Header(p: Packet): Text
    requires |TextOf(p)| < MAXMSG && 0 <= p.num < 64
  {
    [Six((if p.Ack? then 32 else 0) + |TextOf(p)| / 64), Six(|TextOf(p)| % 64), Six(p.num)]
  }

  function Body(p: Packet): Text
    requires |TextOf(p)| < MAXMSG && 0 <= p.num < 64
  {
    Header(p) + TextOf(p)
  }

  function Encode(p: Packet): Text
    requires |TextOf(p)| < MAXMSG && 0 <= p.num < 64
  {
    [SYN] + Body(p) + Check(Sum(Body(p)))
  }

  /** putpkt, filling its 80-character buffer; a longer text would overrun it. */
  method PutPkt(num: int, msg: Text, ack: bool) returns (wire: Text)
    requires 0 <= num < 64 && (ack ==> msg == []) && |msg| <= 73
    requires SevenBit(msg)
    ensures wire == Encode(if ack then Ack(num) else Data(num, msg))
    ensures |wire| <= 80
  {
    ghost var p := if ack then Ack(num) else Data(num, msg);
    var typeLen := (if ack then 32 else 0) + |msg| / 64;
    var tmp := [SYN, Six(typeLen), Six(|msg| % 64), Six(num)];
    var csum := tmp[1] + tmp[2] + tmp[3];
    SumOfThree(Header(p));
    assert Header(p) + msg[..0] == Header(p);
    var i := 0;
    while i < |msg|
      invariant 0 <= i <= |msg|
      invariant tmp == [SYN] + Header(p) + msg[..i]
      invariant csum == Sum(Header(p) + msg[..i])
    {
      assert (Header(p) + msg[..i + 1])[..i + 3] == Header(p) + msg[..i];
      csum := csum + msg[i];
      tmp := tmp + [msg[i]];
      i := i + 1;
    }
    assert Body(p) == Header(p) + msg[..i] by { assert msg[..i] == msg; }
    wire := tmp + [Six(csum / 4096 % 64), Six(csum / 64 % 64), Six(csum % 64)];
  }

  lemma {:induction false} SumOfThree(s: Text)
    requires |s| == 3
    ensures Sum(s) == s[0] + s[1] + s[2]
  {
    assert s[..2][..1] == s[..1];
    assert s[..1][..0] == [];
    assert Sum(s[..1]) == s[0];
    assert Sum(s[..2]) == s[0] + s[1];
  }

  // ------------------------------------------------------------ decoder

  datatype State = Start | TypLen1 | Len2 | Seq | Msg | Csum1 | Csum2 | Csum3

  /** The locals of getpkt; `text` is the part of the buffer written so far. */
  datatype Decoder = Decoder(state: State, isAck: bool, len: int, num: int, text: Text, csum: int, rsum: int)

  /** Reading one more character either goes on or ends the call. */
  datatype Progress = More(d: Decoder) | Stop(report: Arrival)

  /** Mid-message the buffer still has room: what getpkt relies on to stay inside it. */
  predicate ValidDecoder(d: Decoder) {
    && (d.state == Msg ==> |d.text| < d.len < MAXMSG)
    && (d.state == Seq ==> 0 <= d.len < MAXMSG && d.text == [])
    && (d.state == Len2 ==> 0 <= d.len && d.text == [])
    && (d.state == TypLen1 ==> d.text == [])
    && |d.text| < MAXMSG
  }

  const IDLE := Decoder(Start, false, 0, 0, [], 0, 0)

  function Finish(d: Decoder): Progress {
    if d.rsum % 0x40000 != d.csum then Stop(Damaged)
    else Stop(Got(if d.isAck then Ack(d.num) else Data(d.num, d.text)))
  }

  function Feed(d: Decoder, ch: int): Progress {
    if ch == SYN then More(d.(state := TypLen1, csum := 0, rsum := 0, text := []))
    else if d.state == Start then More(d)
    else if d.state != Msg && ch < AT then Stop(Damaged)
    else match d.state
      case Start => More(d)
      case TypLen1 => More(d.(state := Len2, isAck := ch / 32 % 2 == 1, len := ch % 32, rsum := d.rsum + ch))
      case Len2 =>
        var n := d.len * 64 + (ch - AT);
        if n >= MAXMSG then Stop(Damaged) else More(d.(state := Seq, len := n, rsum := d.rsum + ch))
      case Seq => More(d.(state := if d.len == 0 then Csum1 else Msg, num := ch - AT, rsum := d.rsum + ch))
      case Msg =>
        var t := d.text + [ch];
        More(d.(state := if |t| == d.len then Csum1 else Msg, text := t, rsum := d.rsum + ch))
      case Csum1 => More(d.(state := Csum2, csum := d.csum * 64 + (ch - AT)))
      case Csum2 => More(d.(state := Csum3, csum := d.csum * 64 + (ch - AT)))
      case Csum3 => Finish(d.(csum := d.csum * 64 + (ch - AT)))
  }

  lemma {:induction false} FeedKeepsValid(d: Decoder, ch: int)
    requires ValidDecoder(d)
    ensures Feed(d, ch).More? ==> ValidDecoder(Feed(d, ch).d)
  {
  }

  /** One call of getpkt from state `d`: its report and the characters left unread.
      Running out of characters is the timeout. */
  function Decode(d: Decoder, input: Text): (Arrival, Text)
    decreases |input|
  {
    if input == [] then (TimedOut, [])
    else match Feed(d, input[0])
      case More(d') => Decode(d', input[1..])
      case Stop(r) => (r, input[1..])
  }

  /** getpkt, writing the text into the caller's buffer as it arrives. */
  method GetPkt(input: Text, rmsg: array<int>) returns (report: Arrival, used: nat)
    requires rmsg.Length == MAXMSG
    modifies rmsg
    ensures used <= |input|
    ensures Decode(IDLE, input) == (report, input[used..])
    ensures report.Got? && report.pkt.Data? ==>
              |report.pkt.msg| < MAXMSG && rmsg[..|report.pkt.msg|] == report.pkt.msg && rmsg[|report.pkt.msg|] == 0
  {
    var d := IDLE;
    used := 0;
    while used < |input|
      invariant used <= |input|
      invariant ValidDecoder(d)
      invariant rmsg[..|d.text|] == d.text
      invariant Decode(IDLE, input) == Decode(d, input[used..])
    {
      var ch := input[used];
      FeedKeepsValid(d, ch);
      if ch != SYN && d.state == Msg {
        rmsg[|d.text|] := ch;
      }
      used := used + 1;
      assert input[used - 1..][1..] == input[used..];
      match Feed(d, ch) {
        case More(d') =>
          d := d';
        case Stop(r) =>
          if r.Got? {
            rmsg[|d.text|] := 0;
          }
          report := r;
          return;
      }
    }
    report := TimedOut;
  }

  // ------------------------------------------------------------ what getpkt makes of a frame

  /** A packet putpkt may be asked to send. */
  predicate Sendable(p: Packet) {
    && 0 <= p.num < 64
    && |TextOf(p)| <= 73
    && SevenBit(TextOf(p)) && SYN !in TextOf(p)
  }

  /** The header `h` announces a packet of this kind, text length and number. */
  predicate Announces(h: Text, ack: bool, len: int, num: int) {
    && |h| == 3 && AT <= h[0] && AT <= h[1] && AT <= h[2] == num + AT
    && ack == (h[0] / 32 % 2 == 1)
    && len == h[0] % 32 * 64 + (h[1] - AT) < MAXMSG
  }

  lemma {:induction false} HeaderAnnounces(p: Packet)
    requires Sendable(p)
    ensures Announces(Header(p), p.Ack?, |TextOf(p)|, p.num)
  {
  }

  /** Reading one character, whatever follows. */
  lemma {:induction false} DecodeOne(d: Decoder, c: int, rest: Text)
    ensures Feed(d, c).More? ==> Decode(d, [c] + rest) == Decode(Feed(d, c).d, rest)
    ensures Feed(d, c).Stop? ==> Decode(d, [c] + rest) == (Feed(d, c).report, rest)
  {
    assert ([c] + rest)[1..] == rest;
  }

  /** The decoder after a SYN and such a header. */
  function AfterHeader(ack: bool, len: int, num: int, sum: int): Decoder {
    Decoder(if len == 0 then Csum1 else Msg, ack, len, num, [], 0, sum)
  }

  lemma {:induction false} DecodeHeader(d: Decoder, h: Text, ack: bool, len: int, num: int, rest: Text)
    requires Announces(h, ack, len, num)
    ensures Decode(d, [SYN] + h + rest) == Decode(AfterHeader(ack, len, num, Sum(h)), rest)
  {
    var r2 := [h[2]] + rest;
    var r1 := [h[1]] + r2;
    var r0 := [h[0]] + r1;
    SumOfThree(h);
    assert [SYN] + h + rest == [SYN] + r0;
    var d1 := d.(state := TypLen1, csum := 0, rsum := 0, text := []);
    DecodeOne(d, SYN, r0);
    var d2 := d1.(state := Len2, isAck := ack, len := h[0] % 32, rsum := h[0]);
    assert Feed(d1, h[0]) == More(d2);
    DecodeOne(d1, h[0], r1);
    var d3 := d2.(state := Seq, len := len, rsum := h[0] + h[1]);
    assert Feed(d2, h[1]) == More(d3);
    DecodeOne(d2, h[1], r2);
    assert Feed(d3, h[2]) == More(AfterHeader(ack, len, num, Sum(h)));
    DecodeOne(d3, h[2], rest);
  }

  lemma {:induction false} DecodeText(d: Decoder, text: Text, rest: Text)
    requires d.state == Msg && text != [] && d.len == |d.text| + |text|
    requires SYN !in text
    ensures Decode(d, text + rest)
            == Decode(d.(state := Csum1, text := d.text + text, rsum := d.rsum + Sum(text)), rest)
    decreases |text|
  {
    var c, tail := text[0], text[1..];
    assert text + rest == [c] + (tail + rest);
    DecodeTextOne(d, c, tail + rest);
    SumFront(text);
    if tail != [] {
      var d' := d.(text := d.text + [c], rsum := d.rsum + c);
      assert d'.text + tail == d.text + text;
      DecodeText(d', tail, rest);
    } else {
      assert tail + rest == rest;
      assert text == [c];
    }
  }

  lemma {:induction false} DecodeTextOne(d: Decoder, c: int, rest: Text)
    requires d.state == Msg && c != SYN
    ensures Decode(d, [c] + rest)
            == Decode(d.(state := if |d.text| + 1 == d.len then Csum1 else Msg, text := d.text + [c],
                         rsum := d.rsum + c), rest)
  {
    DecodeOne(d, c, rest);
  }

  lemma {:induction false} SumFront(s: Text)
    requires s != []
    ensures Sum(s) == s[0] + Sum(s[1..])
    decreases |s|
  {
    var n := |s| - 1;
    if n > 0 {
      SumFront(s[..n]);
      assert s[..n][1..] == s[1..][..n - 1];
    }
  }

  lemma {:induction false} SumSplit(s: Text, t: Text)
    ensures Sum(s + t) == Sum(s) + Sum(t)
    decreases |t|
  {
    if t == [] {
      assert s + t == s;
    } else {
      assert (s + t)[..|s + t| - 1] == s + t[..|t| - 1];
      SumSplit(s, t[..|t| - 1]);
    }
  }

  function CheckValue(c: Text): int
    requires LegalCheck(c)
  {
    ((c[0] - AT) * 64 + (c[1] - AT)) * 64 + (c[2] - AT)
  }

  /** Any three checksum characters finish the packet, for better or worse. */
  lemma {:induction false} DecodeCheck(d: Decoder, c: Text, rest: Text)
    requires d.state == Csum1 && d.csum == 0
    requires |c| == 3 && SYN !in c
    ensures LegalCheck(c) ==> Decode(d, c + rest) == (Finish(d.(csum := CheckValue(c))).report, rest)
    ensures !LegalCheck(c) ==> Decode(d, c + rest).0 == Damaged
  {
    var d1 := d.(state := Csum2, csum := c[0] - AT);
    var d2 := d.(state := Csum3, csum := (c[0] - AT) * 64 + (c[1] - AT));
    assert c + rest == [c[0]] + ([c[1]] + ([c[2]] + rest));
    DecodeOne(d, c[0], [c[1]] + ([c[2]] + rest));
    if AT <= c[0] {
      DecodeOne(d1, c[1], [c[2]] + rest);
      if AT <= c[1] {
        DecodeOne(d2, c[2], rest);
      }
    }
  }

  /** The checksum characters of a frame match its header and text. */
  predicate Matches(h: Text, text: Text, check: Text) {
    LegalCheck(check) && Sum(h + text) % 0x40000 == CheckValue(check)
  }

  /** What a frame with this header and text reports: itself exactly when its checksum
      characters match, otherwise damage. */
  function FrameReport(h: Text, ack: bool, num: int, text: Text, check: Text): Arrival {
    if Matches(h, text, check) then Got(if ack then Ack(num) else Data(num, text)) else Damaged
  }

  /** The decoder after the text of a frame, once its header has been read. */
  lemma {:induction false} DecodeBody(ack: bool, num: int, sum: int, text: Text, rest: Text)
    requires SYN !in text
    ensures Decode(AfterHeader(ack, |text|, num, sum), text + rest)
            == Decode(Decoder(Csum1, ack, |text|, num, text, 0, sum + Sum(text)), rest)
  {
    if text == [] {
      assert text + rest == rest;
    } else {
      var d := Decoder(Msg, ack, |text|, num, [], 0, sum);
      assert d.text + text == text;
      DecodeText(d, text, rest);
    }
  }

  /** From any decoder state. */
  lemma {:induction false} DecodeFrame(d: Decoder, h: Text, ack: bool, num: int, text: Text, check: Text, rest: Text)
    requires Announces(h, ack, |text|, num)
    requires SYN !in text && |check| == 3 && SYN !in check
    ensures Decode(d, [SYN] + h + text + check + rest).0 == FrameReport(h, ack, num, text, check)
    ensures LegalCheck(check) ==> Decode(d, [SYN] + h + text + check + rest).1 == rest
  {
    assert [SYN] + h + text + check + rest == [SYN] + h + (text + (check + rest));
    DecodeHeader(d, h, ack, |text|, num, text + (check + rest));
    DecodeBody(ack, num, Sum(h), text, check + rest);
    DecodeCheck(Decoder(Csum1, ack, |text|, num, text, 0, Sum(h) + Sum(text)), check, rest);
    SumSplit(h, text);
  }

  lemma {:induction false} SumBound(s: Text)
    requires SevenBit(s)
    ensures 0 <= Sum(s) <= 127 * |s|
  {
    if s != [] {
      SumBound(s[..|s| - 1]);
    }
  }

  /** The six-bit digits of an 18-bit number. */
  lemma {:induction false} SixDigits(v: int)
    requires 0 <= v < 0x40000
    ensures v == (v / 4096 % 64 * 64 + v / 64 % 64) * 64 + v % 64
  {
    var q := v / 64;
    assert v == q * 64 + v % 64;
    assert q == q / 64 * 64 + q % 64 && q / 64 == v / 4096 < 64;
  }

  lemma {:induction false} SixDigitsOnly(v: int, x: int, y: int, z: int)
    requires 0 <= x < 64 && 0 <= y < 64 && 0 <= z < 64 && v == (x * 64 + y) * 64 + z
    ensures v / 4096 % 64 == x && v / 64 % 64 == y && v % 64 == z
  {
    var q := x * 64 + y;
    assert v / 64 == q && v % 64 == z;
    assert q / 64 == x && q % 64 == y;
    assert v / 4096 == q / 64;
  }

  lemma {:induction false} CheckIsLegal(sum: int)
    requires 0 <= sum < 0x40000
    ensures LegalCheck(Check(sum)) && SYN !in Check(sum) && SevenBit(Check(sum))
    ensures CheckValue(Check(sum)) == sum
  {
    SixDigits(sum);
  }

  // ------------------------------------------------------------ the guarantees

  /** Whatever state the decoder was left in, the next proper packet comes out whole. */
  lemma {:induction false} RoundTrip(d: Decoder, p: Packet, rest: Text)
    requires Sendable(p)
    ensures Decode(d, Encode(p) + rest) == (Got(p), rest)
  {
    BodyIsPlain(p);
    CheckIsLegal(Sum(Body(p)));
    HeaderAnnounces(p);
    SumBound(Body(p));
    assert Encode(p) + rest == [SYN] + Header(p) + TextOf(p) + Check(Sum(Body(p))) + rest;
    DecodeFrame(d, Header(p), p.Ack?, p.num, TextOf(p), Check(Sum(Body(p))), rest);
  }

  function EncodeAll(ps: seq<Packet>): Text
    requires forall i :: 0 <= i < |ps| ==> Sendable(ps[i])
  {
    if ps == [] then [] else assert Sendable(ps[0]); Encode(ps[0]) + EncodeAll(ps[1..])
  }

  /** The reports of successive getpkt calls until the line falls silent. */
  function Reports(input: Text): seq<Arrival>
    decreases |input|
  {
    if input == [] then []
    else
      var (r, rest) := Decode(IDLE, input);
      if |rest| < |input| then [r] + Reports(rest) else [r]
  }

  /** A line of back-to-back packets is reported packet by packet: the channels of
      `Link`, which carry packets, are faithful to lines that carry characters. */
  lemma {:induction false} StreamRoundTrip(ps: seq<Packet>)
    requires forall i :: 0 <= i < |ps| ==> Sendable(ps[i])
    ensures |Reports(EncodeAll(ps))| == |ps|
    ensures forall i :: 0 <= i < |ps| ==> Reports(EncodeAll(ps))[i] == Got(ps[i])
  {
    if ps != [] {
      RoundTrip(IDLE, ps[0], EncodeAll(ps[1..]));
      StreamRoundTrip(ps[1..]);
      assert |EncodeAll(ps)| > |EncodeAll(ps[1..])|;
    }
  }

  lemma {:induction false} SumUpdate(s: Text, i: nat, c: int)
    requires i < |s|
    ensures Sum(s[i := c]) == Sum(s) - s[i] + c
  {
    var a, b := s[..i], s[i + 1..];
    assert s == a + [s[i]] + b;
    assert s[i := c] == a + [c] + b;
    SumSplit(a + [s[i]], b);
    SumSplit(a + [c], b);
    SumSplit(a, [s[i]]);
    SumSplit(a, [c]);
    assert Sum([s[i]]) == s[i] && Sum([c]) == c;
  }

  // ------------------------------------------------------------ one character altered

  /** The text length that the characters of a header announce. */
  function LenOf(h: Text): int
    requires |h| == 3
  {
    h[0] % 32 * 64 + (h[1] - AT)
  }

  predicate LegalHeader(h: Text) {
    |h| == 3 && AT <= h[0] && AT <= h[1] && AT <= h[2] && LenOf(h) < MAXMSG
  }

  /** A header with an illegal character or too long a length is reported at once. */
  lemma {:induction false} BadHeader(d: Decoder, h: Text, rest: Text)
    requires |h| == 3 && SYN !in h && !LegalHeader(h)
    ensures Decode(d, [SYN] + h + rest).0 == Damaged
  {
    var d1 := Feed(d, SYN).d;
    assert [SYN] + h + rest == [SYN] + ([h[0]] + ([h[1]] + ([h[2]] + rest)));
    DecodeOne(d, SYN, [h[0]] + ([h[1]] + ([h[2]] + rest)));
    DecodeOne(d1, h[0], [h[1]] + ([h[2]] + rest));
    if AT <= h[0] {
      var d2 := Feed(d1, h[0]).d;
      DecodeOne(d2, h[1], [h[2]] + rest);
      if AT <= h[1] && LenOf(h) < MAXMSG {
        DecodeOne(Feed(d2, h[1]).d, h[2], rest);
      }
    }
  }

  /** Seven-bit checksum characters that are not those of the sum do not match it. */
  lemma {:induction false} OnlyItsCheckMatches(h: Text, text: Text, check: Text)
    requires SevenBit(h + text) && |h + text| < 1000
    requires |check| == 3 && SevenBit(check)
    ensures Matches(h, text, check) <==> check == Check(Sum(h + text))
  {
    SumBound(h + text);
    ItsCheckOnly(Sum(h + text), check);
  }

  lemma {:induction false} ItsCheckOnly(sum: int, check: Text)
    requires 0 <= sum < 0x40000 && |check| == 3 && SevenBit(check)
    ensures LegalCheck(check) && sum == CheckValue(check) <==> check == Check(sum)
  {
    CheckIsLegal(sum);
    if LegalCheck(check) && sum == CheckValue(check) {
      SixDigitsOnly(sum, check[0] - AT, check[1] - AT, check[2] - AT);
    }
  }

  lemma {:induction false} ChecksDiffer(a: int, b: int)
    requires 0 <= a < 0x40000 && 0 <= b < 0x40000 && a != b
    ensures Check(a) != Check(b)
  {
    CheckIsLegal(a);
    CheckIsLegal(b);
  }

  /** What getpkt reports of any frame of seven-bit characters: the packet exactly when
      the text is followed by its own checksum. */
  lemma {:induction false} FrameAcceptedIff(d: Decoder, h: Text, text: Text, check: Text, rest: Text)
    requires |h| == 3 && |check| == 3 && SevenBit(h) && SevenBit(text) && SevenBit(check)
    requires SYN !in h && SYN !in text && SYN !in check
    requires LegalHeader(h) ==> |text| == LenOf(h)
    ensures Decode(d, [SYN] + h + text + check + rest).0
            == if LegalHeader(h) && check == Check(Sum(h + text))
               then Got(if h[0] / 32 % 2 == 1 then Ack(h[2] - AT) else Data(h[2] - AT, text)) else Damaged
    ensures LegalHeader(h) && LegalCheck(check) ==> Decode(d, [SYN] + h + text + check + rest).1 == rest
  {
    if LegalHeader(h) {
      DecodeFrame(d, h, h[0] / 32 % 2 == 1, h[2] - AT, text, check, rest);
      OnlyItsCheckMatches(h, text, check);
    } else {
      assert [SYN] + h + text + check + rest == [SYN] + h + (text + check + rest);
      BadHeader(d, h, text + check + rest);
    }
  }

  /** Writing `c` over character `i` of the packet makes the header announce another length. */
  predicate ChangesLength(p: Packet, i: nat, c: int)
    requires Sendable(p)
  {
    AT <= c && (i == 2 || (i == 1 && c % 32 != |TextOf(p)| / 64))
  }

  /** The parts of a packet with one character after the SYN altered. */
  lemma {:induction false} AlteredParts(p: Packet, i: nat, c: int) returns (h: Text, text: Text, check: Text)
    requires Sendable(p) && 0 < i < |Encode(p)| && 0 <= c < 128 && c != SYN
    ensures |h| == 3 && |text| == |TextOf(p)| && |check| == 3
    ensures Encode(p)[i := c] == [SYN] + h + text + check
    ensures i <= |Body(p)| ==> h + text == Body(p)[i - 1 := c] && check == Check(Sum(Body(p)))
    ensures i > |Body(p)| ==> h + text == Body(p) && check == Check(Sum(Body(p)))[i - 1 - |Body(p)| := c]
    ensures h == if i <= 3 then Header(p)[i - 1 := c] else Header(p)
    ensures SevenBit(h) && SevenBit(text) && SevenBit(check)
    ensures SYN !in h && SYN !in text && SYN !in check
    ensures AT <= c || i <= |Body(p)| ==> LegalCheck(check)
  {
    BodyIsPlain(p);
    HeaderIsPlain(p);
    CheckIsLegal(Sum(Body(p)));
    h, text, check := Header(p), TextOf(p), Check(Sum(Body(p)));
    if i <= 3 {
      h := h[i - 1 := c];
    } else if i <= |text| + 3 {
      text := text[i - 4 := c];
    } else {
      check := check[i - 4 - |text| := c];
    }
  }

  lemma {:induction false} HeaderIsPlain(p: Packet)
    requires Sendable(p)
    ensures SevenBit(Header(p)) && SYN !in Header(p)
  {
  }

  lemma {:induction false} BodyIsPlain(p: Packet)
    requires Sendable(p)
    ensures SevenBit(Body(p)) && 0 <= Sum(Body(p)) < 0x40000
  {
    HeaderIsPlain(p);
    SumBound(Body(p));
  }

  /** A packet with one character altered, length apart, is never delivered; unless the
      character is one that ends the call at once, the whole packet has then been read. */
  lemma {:induction false} AlteredIsDamaged(d: Decoder, p: Packet, i: nat, c: int, rest: Text)
    requires Sendable(p) && 0 < i < |Encode(p)|
    requires 0 <= c < 128 && c != SYN && c != Encode(p)[i] && !ChangesLength(p, i, c)
    ensures Decode(d, Encode(p)[i := c] + rest).0 == Damaged
    ensures AT <= c || 3 < i <= |Body(p)| ==> Decode(d, Encode(p)[i := c] + rest).1 == rest
  {
    var h, text, check := AlteredParts(p, i, c);
    AlteredCheck(p, i, c, h, text, check);
    SameLength(p, i, c, h);
    FrameAcceptedIff(d, h, text, check, rest);
  }

  lemma {:induction false} SameLength(p: Packet, i: nat, c: int, h: Text)
    requires Sendable(p) && 0 < i && 0 <= c < 128 && !ChangesLength(p, i, c)
    requires h == if i <= 3 then Header(p)[i - 1 := c] else Header(p)
    ensures LegalHeader(h) ==> LenOf(h) == |TextOf(p)|
    ensures AT <= c || 3 < i ==> LegalHeader(h)
  {
    HeaderAnnounces(p);
  }

  /** The checksum that is sent is not the one of what is sent. */
  lemma {:induction false} AlteredCheck(p: Packet, i: nat, c: int, h: Text, text: Text, check: Text)
    requires Sendable(p) && 0 < i < |Encode(p)| && 0 <= c < 128 && c != Encode(p)[i]
    requires i <= |Body(p)| ==> h + text == Body(p)[i - 1 := c] && check == Check(Sum(Body(p)))
    requires i > |Body(p)| ==> h + text == Body(p) && check == Check(Sum(Body(p)))[i - 1 - |Body(p)| := c]
    ensures check != Check(Sum(h + text))
  {
    if i <= |Body(p)| {
      BodyIsPlain(p);
      SumUpdate(Body(p), i - 1, c);
      SumBound(h + text);
      ChecksDiffer(Sum(h + text), Sum(Body(p)));
    }
  }

  // ------------------------------------------------------------ lengths altered

  /** Where the next packet starts, if any does. */
  function SynAt(s: Text): (k: nat)
    ensures k <= |s| && SYN !in s[..k] && (k < |s| ==> s[k] == SYN)
  {
    if s == [] || s[0] == SYN then 0
    else
      var k := SynAt(s[1..]);
      assert s[..k + 1] == [s[0]] + s[1..][..k];
      k + 1
  }

  /** Decoders that differ only in fields not read yet. */
  predicate Alike(d: Decoder, e: Decoder) {
    && d.state == e.state && d.text == e.text && d.csum == e.csum && d.rsum == e.rsum
    && (d.state == Len2 || d.state == Seq ==> d.isAck == e.isAck && d.len == e.len)
    && (d.state == TypLen1 || d.state == Len2 || d.state == Seq || d == e)
  }

  lemma {:induction false} AlikeFeed(d: Decoder, e: Decoder, c: int)
    requires Alike(d, e)
    ensures Feed(d, c).Stop? ==> Feed(e, c) == Feed(d, c)
    ensures Feed(d, c).More? ==> Feed(e, c).More? && Alike(Feed(d, c).d, Feed(e, c).d)
  {
  }

  lemma {:induction false} AlikeDecode(d: Decoder, e: Decoder, s: Text)
    requires Alike(d, e)
    ensures Decode(d, s) == Decode(e, s)
    decreases |s|
  {
    if s != [] {
      AlikeFeed(d, e, s[0]);
      if Feed(d, s[0]).More? {
        AlikeDecode(Feed(d, s[0]).d, Feed(e, s[0]).d, s[1..]);
      }
    }
  }

  /** A SYN, or the end of the line, makes the decoder forget what it was at. */
  lemma {:induction false} SynForgets(d: Decoder, s: Text)
    requires s == [] || s[0] == SYN
    ensures Decode(d, s) == Decode(IDLE, s)
  {
    if s != [] {
      AlikeDecode(Feed(d, SYN).d, Feed(IDLE, SYN).d, s[1..]);
    }
  }

  /** The characters still to come before a packet whose header was read is complete. */
  function Missing(d: Decoder): int {
    match d.state
    case Msg => d.len - |d.text| + 3
    case Csum1 => 3
    case Csum2 => 2
    case Csum3 => 1
    case _ => 0
  }

  lemma {:induction false} FeedMissing(d: Decoder, c: int)
    requires 1 < Missing(d) && c != SYN && (d.state == Msg ==> |d.text| < d.len)
    ensures Feed(d, c) == Stop(Damaged)
            || (Feed(d, c).More? && Missing(Feed(d, c).d) == Missing(d) - 1
                && (Feed(d, c).d.state == Msg ==> |Feed(d, c).d.text| < d.len == Feed(d, c).d.len))
  {
  }

  /** A packet cut short by another, or by silence, is not delivered. */
  lemma {:induction false} CutShort(d: Decoder, a: Text, b: Text)
    requires |a| < Missing(d) && SYN !in a && (b == [] || b[0] == SYN)
    requires d.state == Msg ==> |d.text| < d.len
    ensures Decode(d, a + b).0 == Damaged || Decode(d, a + b) == Decode(IDLE, b)
    decreases |a|
  {
    if a == [] {
      assert a + b == b;
      SynForgets(d, b);
    } else {
      assert a + b == [a[0]] + (a[1..] + b);
      FeedMissing(d, a[0]);
      DecodeOne(d, a[0], a[1..] + b);
      if Feed(d, a[0]).More? {
        CutShort(Feed(d, a[0]).d, a[1..], b);
      }
    }
  }

  function PacketOf(h: Text, text: Text): Packet
    requires |h| == 3
  {
    if h[0] / 32 % 2 == 1 then Ack(h[2] - AT) else Data(h[2] - AT, text)
  }

  /** The text that `h` announces is followed by its own checksum. */
  predicate Passes(h: Text, line: Text)
    requires |h| == 3 && 0 <= LenOf(h) && LenOf(h) + 3 <= |line|
  {
    line[LenOf(h)..LenOf(h) + 3] == Check(Sum(h + line[..LenOf(h)]))
  }

  /** What getpkt makes of any seven-bit line after a SYN and three characters. */
  lemma {:induction false} LineReport(d: Decoder, h: Text, line: Text)
    requires |h| == 3 && SYN !in h && SevenBit(h) && SevenBit(line)
    ensures !LegalHeader(h) ==> Decode(d, [SYN] + h + line).0 == Damaged
    ensures LegalHeader(h) && LenOf(h) + 3 <= SynAt(line) ==>
              Decode(d, [SYN] + h + line).0 == if Passes(h, line) then Got(PacketOf(h, line[..LenOf(h)])) else Damaged
    ensures LegalHeader(h) && LenOf(h) + 3 > SynAt(line) ==>
              || Decode(d, [SYN] + h + line).0 == Damaged
              || Decode(d, [SYN] + h + line) == Decode(IDLE, line[SynAt(line)..])
  {
    if !LegalHeader(h) {
      BadHeader(d, h, line);
    } else if LenOf(h) + 3 <= SynAt(line) {
      LineComplete(d, h, line);
    } else {
      var k := SynAt(line);
      DecodeHeader(d, h, h[0] / 32 % 2 == 1, LenOf(h), h[2] - AT, line);
      assert line == line[..k] + line[k..];
      CutShort(AfterHeader(h[0] / 32 % 2 == 1, LenOf(h), h[2] - AT, Sum(h)), line[..k], line[k..]);
    }
  }

  lemma {:induction false} LineComplete(d: Decoder, h: Text, line: Text)
    requires SYN !in h && SevenBit(h) && SevenBit(line) && LegalHeader(h) && LenOf(h) + 3 <= SynAt(line)
    ensures Decode(d, [SYN] + h + line).0 == if Passes(h, line) then Got(PacketOf(h, line[..LenOf(h)])) else Damaged
  {
    var n := LenOf(h);
    var text, check, rest := line[..n], line[n..n + 3], line[n + 3..];
    assert text + check == line[..SynAt(line)][..n + 3];
    assert [SYN] + h + line == [SYN] + h + text + check + rest;
    FrameAcceptedIff(d, h, text, check, rest);
  }

  /** What follows the header of a packet on the line. */
  function AfterHead(p: Packet, rest: Text): Text
    requires Sendable(p)
  {
    TextOf(p) + Check(Sum(Body(p))) + rest
  }

  /** The length characters are summed like the others, but they also say where the sum
      is looked for: a packet with its length altered passes for another exactly when the
      text that is then announced happens to be followed by its own checksum. */
  lemma {:induction false} AlteredLength(d: Decoder, p: Packet, i: nat, c: int, rest: Text)
    requires Sendable(p) && 0 < i < |Encode(p)| && ChangesLength(p, i, c) && c < 128 && c != Encode(p)[i]
    requires SevenBit(rest)
    ensures var h, line := Header(p)[i - 1 := c], AfterHead(p, rest);
            && LenOf(h) != |TextOf(p)|
            && Encode(p)[i := c] + rest == [SYN] + h + line
            && (LenOf(h) >= MAXMSG ==> Decode(d, [SYN] + h + line).0 == Damaged)
            && (LenOf(h) < MAXMSG && LenOf(h) + 3 <= SynAt(line) ==>
                  Decode(d, [SYN] + h + line).0
                  == if Passes(h, line) then Got(PacketOf(h, line[..LenOf(h)])) else Damaged)
            && (LenOf(h) < MAXMSG && LenOf(h) + 3 > SynAt(line) ==>
                  || Decode(d, [SYN] + h + line).0 == Damaged
                  || Decode(d, [SYN] + h + line) == Decode(IDLE, line[SynAt(line)..]))
  {
    LengthParts(p, i, c, rest);
    LineReport(d, Header(p)[i - 1 := c], AfterHead(p, rest));
  }

  lemma {:induction false} LineIsPlain(p: Packet, rest: Text)
    requires Sendable(p) && SevenBit(rest)
    ensures SevenBit(AfterHead(p, rest))
  {
    BodyIsPlain(p);
    CheckIsLegal(Sum(Body(p)));
  }

  lemma {:induction false} LengthParts(p: Packet, i: nat, c: int, rest: Text)
    requires Sendable(p) && 0 < i < |Encode(p)| && ChangesLength(p, i, c) && c < 128 && c != Encode(p)[i]
    requires SevenBit(rest)
    ensures var h, line := Header(p)[i - 1 := c], AfterHead(p, rest);
            && Encode(p)[i := c] + rest == [SYN] + h + line
            && SevenBit(line) && SevenBit(h) && SYN !in h && LenOf(h) != |TextOf(p)|
            && (LegalHeader(h) <==> LenOf(h) < MAXMSG)
  {
    assert Encode(p) == [SYN] + Header(p) + (TextOf(p) + Check(Sum(Body(p))));
    LineIsPlain(p, rest);
    HeaderIsPlain(p);
    LengthDiffers(p, i, c);
  }

  lemma {:induction false} LengthDiffers(p: Packet, i: nat, c: int)
    requires Sendable(p) && 0 < i < 3 && ChangesLength(p, i, c) && c != Header(p)[i - 1]
    ensures LenOf(Header(p)[i - 1 := c]) != |TextOf(p)|
    ensures LegalHeader(Header(p)[i - 1 := c]) <==> LenOf(Header(p)[i - 1 := c]) < MAXMSG
  {
    HeaderAnnounces(p);
  }

  /** A message that spells the checksum of an empty one under its number, with its length
      made zero, is taken for the empty one. */
  lemma {:induction false} ShortenedPasses(d: Decoder, p: Packet, rest: Text)
    requires Sendable(p) && p.Data? && p.msg == Check(Sum([AT, AT, Six(p.num)]))
    ensures Decode(d, Encode(p)[2 := AT] + rest).0 == Got(Data(p.num, []))
  {
    var h := [AT, AT, Six(p.num)];
    assert h + [] == h;
    SumOfThree(h);
    CheckIsLegal(Sum(h));
    FrameAcceptedIff(d, h, [], p.msg, Check(Sum(Body(p))) + rest);
    assert Encode(p)[2 := AT] + rest == [SYN] + h + [] + p.msg + (Check(Sum(Body(p))) + rest);
  }

  /** There is one: `@C@` under number 0. */
  lemma {:induction false} ShortenedExists()
    ensures var p := Data(0, [64, 67, 64]); Sendable(p) && p.msg == Check(Sum([AT, AT, Six(p.num)]))
  {
    SumOfThree([64, 64, 64]);
  }
}
