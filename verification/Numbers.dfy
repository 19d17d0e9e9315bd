/** Numbers in text (lib/atob.c). Values are reduced modulo the machine word, `word`. */
module Numbers {

  datatype Option<T> = None | Some(value: T)

  /** The value of a hexadecimal digit, or -1. */
  function Digit(c: char): (d: int)
    ensures -1 <= d < 16
  {
    if '0' <= c <= '9' then c as int - '0' as int
    else if 'a' <= c <= 'f' then c as int - 'a' as int + 10
    else if 'A' <= c <= 'F' then c as int - 'A' as int + 10
    else -1
  }

  /** Every character is a digit of `base`. */
  predicate AllDigits(s: string, base: int) {
    forall i :: 0 <= i < |s| ==> 0 <= Digit(s[i]) < base
  }

  /** What a run of digits stands for, at any length. */
  function Numeral(s: string, base: nat): (n: int)
    requires AllDigits(s, base)
    ensures n >= 0
  {
    if s == [] then 0
    else Numeral(s[..|s| - 1], base) * base + Digit(s[|s| - 1])
  }

  lemma {:induction false} WrapStep(v: int, base: nat, d: int, word: nat)
    requires word > 0
    ensures ((v % word) * base + d) % word == (v * base + d) % word
  {
    var q := v / word;
    assert v * base + d == (v % word) * base + d + word * (q * base) by {
      assert v == word * q + v % word;
      assert v * base == (word * q) * base + (v % word) * base;
      assert (word * q) * base == word * (q * base);
    }
    ModAddMultiple((v % word) * base + d, q * base, word);
  }

  lemma {:induction false} AtLeastOne(word: nat, k: int)
    requires k >= 1
    ensures word * k >= word
  {
    assert word * k == word * (k - 1) + word;
  }

  /** A remainder below the modulus is the remainder. */
  lemma {:induction false} RemainderIs(a: int, q: int, r: int, word: nat)
    requires 0 <= r < word && a == word * q + r
    ensures a % word == r
  {
    var q1, r1 := a / word, a % word;
    assert a == word * q1 + r1;
    assert word * (q - q1) == word * q - word * q1;
    if q > q1 {
      AtLeastOne(word, q - q1);
    } else if q < q1 {
      AtLeastOne(word, q1 - q);
    }
  }

  lemma {:induction false} ModAddMultiple(a: int, k: int, word: nat)
    requires word > 0
    ensures (a + word * k) % word == a % word
  {
    var q, r := a / word, a % word;
    assert a == word * q + r;
    assert word * (q + k) == word * q + word * k;
    RemainderIs(a + word * k, q + k, r, word);
  }

  /** The digit loop of _atob: the numeral modulo the word, or nothing if some character is not
      a digit of the base. */
  method ScanDigits(s: string, base: nat, word: nat) returns (v: Option<int>)
    requires word > 0
    ensures v == if AllDigits(s, base) then Some(Numeral(s, base) % word) else None
  {
    var value := 0;
    var i := 0;
    while i < |s|
      invariant 0 <= i <= |s|
      invariant AllDigits(s[..i], base)
      invariant value == Numeral(s[..i], base) % word
    {
      var digit := Digit(s[i]);
      if digit < 0 || digit >= base {
        return None;
      }
      assert s[..i + 1][..i] == s[..i];
      WrapStep(Numeral(s[..i], base), base, digit, word);
      value := (value * base + digit) % word;
      i := i + 1;
    }
    assert s[..i] == s;
    return Some(value);
  }

  /** The digit loop as a function. */
  function Digits(s: string, base: nat, word: nat): Option<int>
    requires word > 0
  {
    if AllDigits(s, base) then Some(Numeral(s, base) % word) else None
  }

  function Index(s: string, c: char): (i: int)
    ensures -1 <= i < |s|
    ensures i >= 0 ==> s[i] == c && c !in s[..i]
    ensures i == -1 ==> c !in s
  {
    if s == [] then -1
    else if s[0] == c then 0
    else
      var i := Index(s[1..], c);
      assert s == [s[0]] + s[1..];
      if i == -1 then -1 else assert s[..i + 1] == [s[0]] + s[1..][..i]; i + 1
  }

  predicate HexPrefix(s: string) {
    |s| >= 2 && s[0] == '0' && (s[1] == 'x' || s[1] == 'X')
  }

  /** _atob: a 0x prefix forces base 16, and in base 16 a dot joins two halves of 16 bits. */
  function Convert(s: string, base: nat, word: nat): Option<int>
    requires word > 0
    decreases |s|
  {
    var b := if HexPrefix(s) then 16 else base;
    var p := if HexPrefix(s) then s[2..] else s;
    var q := Index(p, '.');
    if b == 16 && q >= 0 then
      if q > 19 || '.' in p[q + 1..] then None
      else
        match (Convert(p[..q], 16, word), Convert(p[q + 1..], 16, word))
        case (Some(v1), Some(v2)) => Some((v1 * 0x1_0000 + v2) % word)
        case _ => None
    else Digits(p, b, word)
  }

  /** _getbase: the base a prefix asks for, and the rest of the text. */
  function GetBase(s: string): (string, nat) {
    if |s| >= 2 && s[0] == '0' && s[1] == 'x' then (s[2..], 16)
    else if |s| >= 2 && s[0] == '0' && (s[1] == 't' || s[1] == 'n') then (s[2..], 10)
    else if |s| >= 2 && s[0] == '0' && s[1] == 'o' then (s[2..], 8)
    else (s, 10)
  }

  /** atob and llatob: base 0 asks for the prefix to decide. */
  function Atob(s: string, base: nat, word: nat): Option<int>
    requires word > 0
  {
    if base == 0 then
      var (p, b) := GetBase(s);
      Convert(p, b, word)
    else Convert(s, base, word)
  }

  /** A 0x literal means the same in every base. */
  lemma {:induction false} HexLiteral(ds: string, base: nat, word: nat)
    requires AllDigits(ds, 16) && word > 0
    ensures Atob("0x" + ds, base, word) == Some(Numeral(ds, 16) % word)
  {
    var s := "0x" + ds;
    assert s[2..] == ds && s[0] == '0' && s[1] == 'x';
    PlainDigits(ds, 16, word);
    ConvertPrefixed(s, ds, base, word);
  }

  /** Digits alone have no prefix and no dot in them. */
  lemma {:induction false} PlainDigits(ds: string, base: nat, word: nat)
    requires AllDigits(ds, 16) && word > 0
    ensures '.' !in ds && !HexPrefix(ds) && Index(ds, '.') == -1
    ensures Convert(ds, 16, word) == Some(Numeral(ds, 16) % word)
  {
    assert |ds| >= 2 ==> Digit(ds[1]) >= 0;
  }

  lemma {:induction false} ConvertPrefixed(s: string, ds: string, base: nat, word: nat)
    requires word > 0 && AllDigits(ds, 16) && HexPrefix(s) && s[2..] == ds && Index(ds, '.') == -1
    ensures Convert(s, base, word) == Some(Numeral(ds, 16) % word)
  {
  }

  // ------------------------------------------------------------ fixed-width hexadecimal

  /** The `n` hexadecimal digits at place `k`, if they are there. */
  function HexAt(s: string, k: nat, n: nat): Option<int> {
    if k + n <= |s| && AllDigits(s[k..k + n], 16) then Some(Numeral(s[k..k + n], 16)) else None
  }

  /** gethex. */
  method GetHex(s: string, k: nat, n: nat) returns (r: Option<int>)
    ensures r == HexAt(s, k, n)
  {
    var v := 0;
    var i := 0;
    while i < n
      invariant 0 <= i <= n && (i > 0 ==> k + i <= |s|)
      invariant i > 0 ==> AllDigits(s[k..k + i], 16) && v == Numeral(s[k..k + i], 16)
      invariant i == 0 ==> v == 0
    {
      if k + i >= |s| {
        return None;
      }
      var digit := Digit(s[k + i]);
      if digit < 0 {
        if k + n <= |s| {
          assert s[k..k + n][i] == s[k + i];
        }
        return None;
      }
      assert s[k..k + i + 1][..i] == s[k..k + i];
      v := v * 16 + digit;
      i := i + 1;
    }
    if n == 0 && k > |s| {
      return None;
    }
    return Some(v);
  }

  function HexDigit(d: int): (c: char)
    requires 0 <= d < 16
    ensures Digit(c) == d
  {
    if d < 10 then (d + '0' as int) as char else (d - 10 + 'A' as int) as char
  }

  /** The last `n` hexadecimal digits of `v`, in capitals. */
  function Hex(v: int, n: nat): (s: string)
    requires v >= 0
    ensures |s| == n && AllDigits(s, 16)
  {
    if n == 0 then [] else Hex(v / 16, n - 1) + [HexDigit(v % 16)]
  }
}
