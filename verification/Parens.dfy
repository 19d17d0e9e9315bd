/** Scanning for operators outside parentheses and for the balancing parenthesis
    (lib/strrpset.c, lib/strbalp.c). */
module Parens {

  /** How many more '(' than ')' there are in `s`. */
  function Net(s: string): int {
    if s == [] then 0
    else Net(s[..|s| - 1]) + Weight(s[|s| - 1])
  }

  function Weight(c: char): int {
    if c == '(' then 1 else if c == ')' then -1 else 0
  }

  lemma {:induction false} NetAppend(a: string, b: string)
    ensures Net(a + b) == Net(a) + Net(b)
    decreases |b|
  {
    if b == [] {
      assert a + b == a;
    } else {
      assert (a + b)[..|a + b| - 1] == a + b[..|b| - 1];
      NetAppend(a, b[..|b| - 1]);
    }
  }

  lemma {:induction false} NetOne(c: char)
    ensures Net([c]) == Weight(c)
  {
    assert [c][..0] == [];
  }

  // ------------------------------------------------------------ rightmost operator

  /** A character of `chars` at `q`, not the first, with the parentheses to its right even. */
  predicate TopAt(s: string, chars: string, q: int) {
    && 0 < q < |s|
    && s[q] in chars
    && Net(s[q + 1..]) == 0
  }

  /** strrpset: the rightmost such position, or -1. */
  method Strrpset(s: string, chars: string) returns (q: int)
    requires '(' !in chars && ')' !in chars
    ensures q == -1 || TopAt(s, chars, q)
    ensures forall k :: q < k < |s| ==> !TopAt(s, chars, k)
  {
    var n := 0;
    var p := |s| - 1;
    assert s[p + 1..] == [];
    while p > 0
      invariant -1 <= p < |s|
      invariant n == Net(s[p + 1..])
      invariant forall k :: p < k < |s| ==> !TopAt(s, chars, k)
    {
      NetStep(s, p);
      if s[p] == '(' {
        n := n + 1;
      } else if s[p] == ')' {
        n := n - 1;
      } else if s[p] in chars && n == 0 {
        return p;
      }
      p := p - 1;
    }
    return -1;
  }

  lemma {:induction false} NetStep(s: string, p: nat)
    requires p < |s|
    ensures Net(s[p..]) == Weight(s[p]) + Net(s[p + 1..])
  {
    assert s[p..] == [s[p]] + s[p + 1..];
    NetAppend([s[p]], s[p + 1..]);
    NetOne(s[p]);
  }

  /** The rightmost operator, as a function. */
  function Rightmost(s: string, chars: string): (q: int)
    ensures q == -1 || TopAt(s, chars, q)
    ensures forall k :: q < k < |s| ==> !TopAt(s, chars, k)
  {
    RightmostBelow(s, chars, |s|)
  }

  function RightmostBelow(s: string, chars: string, hi: nat): (q: int)
    requires hi <= |s|
    ensures -1 <= q < hi && (q == -1 || TopAt(s, chars, q))
    ensures forall k :: q < k < hi ==> !TopAt(s, chars, k)
  {
    if hi == 0 then -1
    else if TopAt(s, chars, hi - 1) then hi - 1
    else RightmostBelow(s, chars, hi - 1)
  }

  lemma {:induction false} RightmostIs(s: string, chars: string, q: int)
    requires q == -1 || TopAt(s, chars, q)
    requires forall k :: q < k < |s| ==> !TopAt(s, chars, k)
    ensures Rightmost(s, chars) == q
  {
  }

  // ------------------------------------------------------------ balancing parenthesis

  /** The parenthesis that opens the string closes at `k`: the depth is even after `k` and was
      not at any closing parenthesis before. */
  predicate ClosesAt(s: string, k: int) {
    && 0 <= k < |s|
    && s[k] == ')' && Net(s[..k + 1]) == 0
    && forall j :: 0 <= j < k && s[j] == ')' ==> Net(s[..j + 1]) != 0
  }

  const OPENING := "({[<"
  const CLOSING := ")}]>"

  /** How many more `b` than `e` there are in `s`. */
  function Depth(s: string, b: char, e: char): int {
    if s == [] then 0
    else
      var c := s[|s| - 1];
      Depth(s[..|s| - 1], b, e) + if c == b then 1 else if c == e then -1 else 0
  }

  /** As many `e` as `b` end at the `e` at `k`, for the first time. */
  predicate BalancesAt(s: string, b: char, e: char, k: int) {
    && 0 <= k < |s|
    && s[k] == e && Depth(s[..k + 1], b, e) == 0
    && forall j :: 0 <= j < k && s[j] == e ==> Depth(s[..j + 1], b, e) != 0
  }

  /** The bracket `b` opens, if it is one: its index. */
  function Bracket(b: char): (i: nat)
    ensures i <= 4 && (i < 4 ==> OPENING[i] == b) && (i == 4 ==> b !in OPENING)
  {
    if b == '(' then 0 else if b == '{' then 1 else if b == '[' then 2 else if b == '<' then 3 else 4
  }

  /** strbalp: where the bracket that opens the string is balanced, or -1 if it is not, or if the
      string opens with none. */
  method Strbalp(s: string) returns (k: int)
    ensures k != -1 ==> s != [] && s[0] in OPENING && BalancesAt(s, s[0], CLOSING[Bracket(s[0])], k)
    ensures k == -1 && s != [] && s[0] in OPENING ==>
      forall j :: 0 <= j < |s| ==> !BalancesAt(s, s[0], CLOSING[Bracket(s[0])], j)
  {
    if s == [] {
      return -1;
    }
    var b, i := s[0], 0;
    while i < |OPENING|
      invariant 0 <= i <= |OPENING| && forall j :: 0 <= j < i ==> OPENING[j] != b
    {
      if OPENING[i] == b {
        break;
      }
      i := i + 1;
    }
    if i == |OPENING| {
      return -1;
    }
    k := Balance(s, b, CLOSING[i]);
  }

  /** The second loop of strbalp. */
  method Balance(s: string, b: char, e: char) returns (k: int)
    requires b != e
    ensures k == -1 || BalancesAt(s, b, e, k)
    ensures k == -1 ==> forall j :: 0 <= j < |s| ==> !BalancesAt(s, b, e, j)
  {
    var n := 0;
    var p := 0;
    assert s[..0] == [];
    while p < |s|
      invariant 0 <= p <= |s|
      invariant n == Depth(s[..p], b, e)
      invariant forall j :: 0 <= j < p && s[j] == e ==> Depth(s[..j + 1], b, e) != 0
    {
      assert s[..p + 1][..p] == s[..p];
      if s[p] == b {
        n := n + 1;
      } else if s[p] == e {
        n := n - 1;
        if n == 0 {
          return p;
        }
      }
      p := p + 1;
    }
    return -1;
  }

  lemma {:induction false} DepthIsNet(s: string)
    ensures Depth(s, '(', ')') == Net(s)
  {
    if s != [] {
      DepthIsNet(s[..|s| - 1]);
    }
  }

  lemma {:induction false} BalancesIsCloses(s: string, k: int)
    ensures BalancesAt(s, '(', ')', k) <==> ClosesAt(s, k)
  {
    forall n | 0 <= n <= |s|
      ensures Depth(s[..n], '(', ')') == Net(s[..n])
    {
      DepthIsNet(s[..n]);
    }
  }

  // ------------------------------------------------------------ well-nested text

  /** No closing parenthesis is unmatched, and none is missing. */
  ghost predicate Nested(s: string) {
    && Net(s) == 0
    && forall i :: 0 <= i <= |s| ==> Net(s[i..]) <= 0
  }

  lemma {:induction false} NestedPrefix(s: string, i: nat)
    requires Nested(s) && i <= |s|
    ensures Net(s[..i]) >= 0 && Net(s[..i]) == -Net(s[i..])
  {
    assert s == s[..i] + s[i..];
    NetAppend(s[..i], s[i..]);
  }

  lemma {:induction false} NestedAppend(a: string, b: string)
    requires Nested(a) && Nested(b)
    ensures Nested(a + b)
  {
    NetAppend(a, b);
    forall i | 0 <= i <= |a + b|
      ensures Net((a + b)[i..]) <= 0
    {
      if i <= |a| {
        assert (a + b)[i..] == a[i..] + b;
        NetAppend(a[i..], b);
      } else {
        assert (a + b)[i..] == b[i - |a|..];
      }
    }
  }

  lemma {:induction false} NestedWrap(s: string)
    requires Nested(s)
    ensures Nested("(" + s + ")")
  {
    var open, shut := ['('], [')'];
    var t := open + s + shut;
    NetOne('(');
    NetOne(')');
    NetAppend(open + s, shut);
    NetAppend(open, s);
    forall i | 0 <= i <= |t|
      ensures Net(t[i..]) <= 0
    {
      WrapTail(s, open, shut, i);
    }
  }

  lemma {:induction false} WrapTail(s: string, open: string, shut: string, i: nat)
    requires Nested(s) && |open| == 1 && |shut| == 1 && Net(shut) == -1 && Net(open + s + shut) == 0
    requires i <= |s| + 2
    ensures Net((open + s + shut)[i..]) <= 0
  {
    var t := open + s + shut;
    if i == 0 {
      assert t[i..] == t;
    } else if i < |t| {
      assert t[i..] == s[i - 1..] + shut;
      NetAppend(s[i - 1..], shut);
    } else {
      assert t[i..] == [];
    }
  }

  lemma {:induction false} PlainIsNested(s: string)
    requires forall i :: 0 <= i < |s| ==> s[i] != '(' && s[i] != ')'
    ensures Nested(s)
  {
    forall i | 0 <= i <= |s|
      ensures Net(s[i..]) == 0
    {
      PlainNet(s[i..]);
    }
    assert s[0..] == s;
  }

  lemma {:induction false} PlainNet(s: string)
    requires forall i :: 0 <= i < |s| ==> s[i] != '(' && s[i] != ')'
    ensures Net(s) == 0
  {
    if s != [] {
      PlainNet(s[..|s| - 1]);
    }
  }

  /** Around well-nested text, the outer parentheses close each other. */
  lemma {:induction false} WrapCloses(s: string)
    requires Nested(s)
    ensures ClosesAt("(" + s + ")", |s| + 1)
  {
    var t := "(" + s + ")";
    NestedWrap(s);
    assert t[..|s| + 2] == t;
    forall j | 0 <= j < |s| + 1 && t[j] == ')'
      ensures Net(t[..j + 1]) != 0
    {
      assert t[..j + 1] == "(" + s[..j];
      NetAppend("(", s[..j]);
      NetOne('(');
      NestedPrefix(s, j);
    }
  }

  /** Text that opens with a parenthesis and is well-nested before its end closes it there. */
  lemma {:induction false} ClosesEarly(a: string, b: string, k: int)
    requires a != [] && a[0] == '(' && Nested(a) && ClosesAt(a + b, k)
    ensures k < |a|
  {
    LastCloses(a);
    var j :| 0 <= j < |a| && a[j] == ')' && Net(a[..j + 1]) == 0;
    assert (a + b)[..j + 1] == a[..j + 1] && (a + b)[j] == a[j];
  }

  lemma {:induction false} LastCloses(a: string)
    requires a != [] && a[0] == '(' && Nested(a)
    ensures exists j :: 0 <= j < |a| && a[j] == ')' && Net(a[..j + 1]) == 0
  {
    var j := |a| - 1;
    assert a[..0] == [] && a[..|a|] == a;
    NetOne('(');
    assert a[..1] == [a[0]];
    while Net(a[..j]) == 0
      invariant 0 < j < |a| && Net(a[..j + 1]) == 0
      decreases j
    {
      if j == 1 {
        assert false;
      }
      j := j - 1;
    }
    NestedPrefix(a, j);
    assert a[..j + 1][..j] == a[..j];
  }
}
