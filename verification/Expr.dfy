/** The address expression evaluator of the command line (pmon/commands.c, get_rsa_reg). */
module Expr {
  import opened Parens
  import opened Numbers

  datatype InBase = Auto | Eight | Ten | Sixteen | BadBase
  datatype InAlpha = Hex | Symbol | BadAlpha

  /** What the evaluator looks up: the word size, two settings, registers, symbols and memory; and
      what the variables for its results hold before anything is stored in them. These are told
      apart by the way down to them: 'l' and 'r' for the sides of an operator, '^' for an address. */
  datatype Env = Env(word: nat, inbase: InBase, inalpha: InAlpha,
                     reg: string -> Option<int>, sym: string -> Option<int>, load: int -> int,
                     unset: string -> int)

  /** As the evaluator sees it one call further down. */
  function Down(env: Env, way: char): Env {
    Env(env.word, env.inbase, env.inalpha, env.reg, env.sym, env.load, (path: string) => env.unset([way] + path))
  }

  // ------------------------------------------------------------ the evaluator

  /** The string is one parenthesised expression. */
  predicate Enclosed(s: string) {
    |s| >= 2 && s[0] == '(' && ClosesAt(s, |s| - 1)
  }

  function Strip(s: string): (t: string)
    ensures |t| <= |s| && !Enclosed(t)
  {
    if Enclosed(s) then Strip(s[1..|s| - 1]) else s
  }

  /** The loop that drops enclosing parentheses. */
  method StripParens(s: string) returns (t: string)
    ensures t == Strip(s)
  {
    t := s;
    while true
      invariant Strip(t) == Strip(s)
      decreases |t|
    {
      if t == [] || t[0] != '(' {
        break;
      }
      var k := Strbalp(t);
      assert OPENING[0] == '(' && CLOSING[Bracket('(')] == ')';
      BalancesIsCloses(t, k);
      BalancesIsCloses(t, |t| - 1);
      if k != |t| - 1 {
        if k != -1 && ClosesAt(t, |t| - 1) {
          ClosesOnce(t, k, |t| - 1);
        }
        break;
      }
      t := t[1..|t| - 1];
    }
  }

  lemma {:induction false} ClosesOnce(s: string, j: int, k: int)
    requires ClosesAt(s, j) && ClosesAt(s, k)
    ensures j == k
  {
  }

  function Apply(op: char, v1: int, v2: int, word: nat): (r: Option<int>)
    requires word > 0 && 0 <= v1 < word && 0 <= v2 < word
    ensures r.Some? ==> 0 <= r.value < word
  {
    if op == '+' then Some((v1 + v2) % word)
    else if op == '-' then Some((v1 - v2) % word)
    else if op == '*' then Some((v1 * v2) % word)
    else if v2 == 0 then None
    else DivBound(v1, v2); Some(v1 / v2)
  }

  lemma {:induction false} MulGrows(b: int, q: int)
    requires b >= 1 && q >= 0
    ensures b * q >= q
  {
    assert b * q == (b - 1) * q + q;
  }

  lemma {:induction false} DivBound(a: int, b: int)
    requires 0 <= a && b > 0
    ensures 0 <= a / b <= a
  {
    if a / b >= 0 {
      MulGrows(b, a / b);
    }
  }

  function Word(v: Option<int>, word: nat): (r: Option<int>)
    requires word > 0
    ensures r.Some? ==> 0 <= r.value < word
  {
    match v
    case Some(x) => Some(x % word)
    case None => None
  }

  function Number(env: Env, s: string): Option<int>
    requires env.word > 0
  {
    if env.inbase.BadBase? then None
    else
      var base := match env.inbase case Auto => 0 case Eight => 8 case Ten => 10 case _ => 16;
      var v := Atob(s, base, env.word);
      if v.Some? then v else Atob(s, 0, env.word)
  }

  /** A name that starts with a letter that is also a hexadecimal digit. When symbols come
      first and there is one, nothing is stored for a result; and when there is none, the number
      is read but the zero left by the failed symbol lookup is what is stored. */
  function HexOrSymbol(env: Env, s: string): Option<int>
    requires env.word > 0
  {
    match env.inalpha
    case Hex =>
      var v := Atob(s, 16, env.word);
      if v.Some? then v else env.sym(s)
    case Symbol =>
      if env.sym(s).Some? then Some(env.unset("")) else if Atob(s, 16, env.word).Some? then Some(0) else None
    case BadAlpha => None
  }

  function Eval(env: Env, text: string): (r: Option<int>)
    requires env.word > 0
    ensures r.Some? ==> 0 <= r.value < env.word
    decreases |text|
  {
    var s := Strip(text);
    var q := Rightmost(s, "+-");
    if q > 0 then EvalAt(env, s, q)
    else
      var q2 := Rightmost(s, "*/");
      if q2 > 0 then EvalAt(env, s, q2)
      else if s != [] && s[0] == '^' then
        match Eval(Down(env, '^'), s[1..])
        case Some(v) => Some(env.load(v) % env.word)
        case None => None
      else Word(Leaf(env, s), env.word)
  }

  /** Both sides of the operator at `q`, the left one first. */
  function EvalAt(env: Env, s: string, q: nat): (r: Option<int>)
    requires env.word > 0 && q < |s|
    ensures r.Some? ==> 0 <= r.value < env.word
    decreases |s|, 0
  {
    match Eval(Down(env, 'l'), s[..q])
    case None => None
    case Some(v1) =>
      match Eval(Down(env, 'r'), s[q + 1..])
      case None => None
      case Some(v2) => Apply(s[q], v1, v2, env.word)
  }

  function Leaf(env: Env, s: string): Option<int>
    requires env.word > 0
  {
    if s != [] && s[0] == '@' then env.reg(s[1..])
    else if s == "." then env.reg("epc")
    else if s != [] && s[0] == '&' then env.sym(s[1..])
    else if s != [] && '0' <= s[0] <= '9' then Number(env, s)
    else if s != [] && Digit(s[0]) >= 0 then HexOrSymbol(env, s)
    else env.sym(s)
  }

  /** Where the evaluator splits its text, or -1. */
  function Operator(s: string): (q: int)
    ensures -1 <= q < |s| && q != 0
  {
    var q := Rightmost(s, "+-");
    if q > 0 then q else Rightmost(s, "*/")
  }

  method FindOperator(s: string) returns (q: int)
    ensures q == Operator(s)
  {
    q := Strrpset(s, "+-");
    RightmostIs(s, "+-", q);
    if q == -1 {
      q := Strrpset(s, "*/");
      RightmostIs(s, "*/", q);
    }
  }

  /** The evaluator's three cases. */
  lemma {:induction false} EvalCases(env: Env, text: string)
    requires env.word > 0
    ensures var s := Strip(text); var q := Operator(s);
      Eval(env, text)
      == if q != -1 then EvalAt(env, s, q)
         else if s != [] && s[0] == '^' then Loaded(env, Eval(Down(env, '^'), s[1..]))
         else Word(Leaf(env, s), env.word)
  {
  }

  function Loaded(env: Env, at: Option<int>): Option<int>
    requires env.word > 0
  {
    match at
    case Some(v) => Some(env.load(v) % env.word)
    case None => None
  }

  /** get_rsa_reg with its scans. */
  method GetRsaReg(env: Env, text: string) returns (r: Option<int>)
    requires env.word > 0
    ensures r == Eval(env, text)
    decreases |text|
  {
    var s := StripParens(text);
    var q := FindOperator(s);
    EvalCases(env, text);
    if q != -1 {
      var r1 := GetRsaReg(Down(env, 'l'), s[..q]);
      if r1.None? {
        return None;
      }
      var r2 := GetRsaReg(Down(env, 'r'), s[q + 1..]);
      if r2.None? {
        return None;
      }
      return Apply(s[q], r1.value, r2.value, env.word);
    }
    if s != [] && s[0] == '^' {
      var at := GetRsaReg(Down(env, '^'), s[1..]);
      return Loaded(env, at);
    }
    return Word(Leaf(env, s), env.word);
  }

  // ------------------------------------------------------------ expression trees

  /** An expression with its parentheses; a literal is 0x and any hexadecimal digits. */
  datatype Tree = Lit(digits: string) | Paren(inner: Tree) | Bin(op: char, left: Tree, right: Tree)

  predicate IsOp(c: char) {
    c == '+' || c == '-' || c == '*' || c == '/'
  }

  function Prec(op: char): int {
    if op == '+' || op == '-' then 1 else 2
  }

  function Level(t: Tree): int {
    if t.Bin? then Prec(t.op) else 3
  }

  /** The tree is what its text groups as: operators associate to the left, * and / bind tighter. */
  predicate Grouped(t: Tree) {
    match t
    case Lit(ds) => AllDigits(ds, 16)
    case Paren(u) => Grouped(u)
    case Bin(op, l, r) => IsOp(op) && Grouped(l) && Grouped(r) && Level(l) >= Prec(op) && Level(r) > Prec(op)
  }

  function Text(t: Tree): (s: string)
    ensures s != []
  {
    match t
    case Lit(ds) => "0x" + ds
    case Paren(u) => "(" + Text(u) + ")"
    case Bin(op, l, r) => Text(l) + [op] + Text(r)
  }

  /** The value modulo the word; none if something is divided by zero. */
  function Value(t: Tree, word: nat): (r: Option<int>)
    requires word > 0 && Grouped(t)
    ensures r.Some? ==> 0 <= r.value < word
  {
    match t
    case Lit(ds) => Some(Numeral(ds, 16) % word)
    case Paren(u) => Value(u, word)
    case Bin(op, l, r) =>
      match (Value(l, word), Value(r, word))
      case (Some(v1), Some(v2)) => Apply(op, v1, v2, word)
      case _ => None
  }

  // ------------------------------------------------------------ the text of a tree

  lemma {:induction false} TextIsNested(t: Tree)
    requires Grouped(t)
    ensures Nested(Text(t))
  {
    match t
    case Lit(ds) => LitIsPlain(ds);
    case Paren(u) =>
      TextIsNested(u);
      NestedWrap(Text(u));
    case Bin(op, l, r) =>
      TextIsNested(l);
      TextIsNested(r);
      PlainIsNested([op]);
      NestedAppend(Text(l), [op]);
      NestedAppend(Text(l) + [op], Text(r));
  }

  lemma {:induction false} LitIsPlain(ds: string)
    requires AllDigits(ds, 16)
    ensures Nested("0x" + ds)
    ensures forall i :: 0 <= i < |ds| + 2 ==> !IsOp(("0x" + ds)[i])
  {
    var s := "0x" + ds;
    forall i | 0 <= i < |s|
      ensures s[i] != '(' && s[i] != ')' && !IsOp(s[i])
    {
      if i >= 2 {
        assert s[i] == ds[i - 2];
      }
    }
    PlainIsNested(s);
  }

  /** No operator of `chars` stands outside parentheses anywhere in `s`, the first place included. */
  ghost predicate Clear(s: string, chars: string) {
    forall q :: 0 <= q < |s| && s[q] in chars ==> Net(s[q + 1..]) != 0
  }

  lemma {:induction false} ClearAppend(a: string, b: string, chars: string)
    requires Nested(b) && Clear(a, chars) && Clear(b, chars)
    ensures Clear(a + b, chars)
  {
    forall q | 0 <= q < |a + b| && (a + b)[q] in chars
      ensures Net((a + b)[q + 1..]) != 0
    {
      if q < |a| {
        assert (a + b)[q + 1..] == a[q + 1..] + b;
        NetAppend(a[q + 1..], b);
      } else {
        assert (a + b)[q + 1..] == b[q - |a| + 1..];
      }
    }
  }

  lemma {:induction false} ClearWrap(s: string, chars: string)
    requires Nested(s) && '(' !in chars && ')' !in chars
    ensures Clear("(" + s + ")", chars)
  {
    var t := "(" + s + ")";
    forall q | 0 <= q < |t| && t[q] in chars
      ensures Net(t[q + 1..]) != 0
    {
      assert 0 < q < |t| - 1;
      assert t[q + 1..] == s[q..] + ")";
      NetAppend(s[q..], ")");
      NetOne(')');
    }
  }

  lemma {:induction false} ClearOne(c: char, chars: string)
    requires c !in chars
    ensures Clear([c], chars)
  {
  }

  lemma {:induction false} NoSum(t: Tree)
    requires Grouped(t) && Level(t) >= 2
    ensures Clear(Text(t), "+-")
  {
    match t
    case Lit(ds) => LitIsPlain(ds);
    case Paren(u) =>
      TextIsNested(u);
      ClearWrap(Text(u), "+-");
    case Bin(op, l, r) =>
      NoSum(l);
      NoSum(r);
      TextIsNested(r);
      PlainIsNested([op]);
      ClearOne(op, "+-");
      ClearAppend(Text(l), [op], "+-");
      ClearAppend(Text(l) + [op], Text(r), "+-");
  }

  lemma {:induction false} NoProduct(t: Tree)
    requires Grouped(t) && Level(t) == 3
    ensures Clear(Text(t), "*/")
  {
    match t
    case Lit(ds) => LitIsPlain(ds);
    case Paren(u) =>
      TextIsNested(u);
      ClearWrap(Text(u), "*/");
  }

  function OpsLike(op: char): string {
    if op == '+' || op == '-' then "+-" else "*/"
  }

  /** The operator of a tree is the rightmost of its precedence outside parentheses. */
  lemma {:induction false} OpIsRightmost(op: char, l: Tree, r: Tree)
    requires Grouped(Bin(op, l, r))
    ensures Rightmost(Text(Bin(op, l, r)), OpsLike(op)) == |Text(l)|
  {
    var s, q, chars := Text(Bin(op, l, r)), |Text(l)|, OpsLike(op);
    TextIsNested(r);
    assert s[q] == op && s[q + 1..] == Text(r);
    if Prec(op) == 1 {
      NoSum(r);
    } else {
      NoProduct(r);
    }
    forall k | q < k < |s|
      ensures !TopAt(s, chars, k)
    {
      assert s[k] == Text(r)[k - q - 1] && s[k + 1..] == Text(r)[k - q..];
    }
    RightmostIs(s, chars, q);
  }

  lemma {:induction false} ClearHasNone(s: string, chars: string)
    requires Clear(s, chars)
    ensures Rightmost(s, chars) == -1
  {
    forall k | -1 < k < |s|
      ensures !TopAt(s, chars, k)
    {
    }
    RightmostIs(s, chars, -1);
  }

  /** A compound text is not taken for a parenthesised one. */
  lemma {:induction false} CompoundIsNotEnclosed(op: char, l: Tree, r: Tree)
    requires Grouped(Bin(op, l, r))
    ensures Strip(Text(Bin(op, l, r))) == Text(Bin(op, l, r))
  {
    var s := Text(Bin(op, l, r));
    assert s == Text(l) + ([op] + Text(r));
    if Enclosed(s) {
      TextIsNested(l);
      assert s[0] == Text(l)[0];
      ClosesEarly(Text(l), [op] + Text(r), |s| - 1);
    }
  }

  // ------------------------------------------------------------ the evaluator is right

  lemma {:induction false} EvalStripped(env: Env, a: string, b: string)
    requires env.word > 0 && Strip(a) == Strip(b)
    ensures Eval(env, a) == Eval(env, b)
  {
  }

  lemma {:induction false} EvalParen(env: Env, u: Tree)
    requires env.word > 0 && Grouped(u)
    ensures Eval(env, Text(Paren(u))) == Eval(env, Text(u))
  {
    var s := Text(Paren(u));
    TextIsNested(u);
    WrapCloses(Text(u));
    assert Enclosed(s) && s[1..|s| - 1] == Text(u);
    EvalStripped(env, s, Text(u));
  }

  lemma {:induction false} EvalNumber(env: Env, s: string)
    requires env.word > 0 && s != [] && '0' <= s[0] <= '9' && Clear(s, "+-") && Clear(s, "*/")
    ensures Eval(env, s) == Word(Number(env, s), env.word)
  {
    ClearHasNone(s, "+-");
    ClearHasNone(s, "*/");
    assert Leaf(env, s) == Number(env, s);
  }

  lemma {:induction false} NumberLit(env: Env, ds: string)
    requires env.word > 0 && AllDigits(ds, 16) && !env.inbase.BadBase?
    ensures Number(env, "0x" + ds) == Some(Numeral(ds, 16) % env.word)
  {
    var base := match env.inbase case Auto => 0 case Eight => 8 case Ten => 10 case _ => 16;
    HexLiteral(ds, base, env.word);
  }

  lemma {:induction false} EvalLit(env: Env, ds: string)
    requires env.word > 0 && AllDigits(ds, 16) && !env.inbase.BadBase?
    ensures Eval(env, "0x" + ds) == Some(Numeral(ds, 16) % env.word)
  {
    LitIsPlain(ds);
    EvalNumber(env, "0x" + ds);
    NumberLit(env, ds);
    Small(Numeral(ds, 16), env.word);
  }

  lemma {:induction false} EvalBin(env: Env, op: char, l: Tree, r: Tree)
    requires env.word > 0 && Grouped(Bin(op, l, r))
    ensures Eval(env, Text(Bin(op, l, r))) == EvalAt(env, Text(Bin(op, l, r)), |Text(l)|)
  {
    CompoundIsNotEnclosed(op, l, r);
    OpIsRightmost(op, l, r);
    if Prec(op) == 2 {
      NoSum(Bin(op, l, r));
      ClearHasNone(Text(Bin(op, l, r)), "+-");
    }
  }

  /** For every expression, however parenthesised, and every base setting: the evaluator returns
      its value modulo the word, and fails exactly when the value is undefined. */
  lemma {:induction false} EvalIsValue(env: Env, t: Tree)
    requires env.word > 0 && Grouped(t) && !env.inbase.BadBase?
    ensures Eval(env, Text(t)) == Value(t, env.word)
    decreases t
  {
    match t
    case Lit(ds) => EvalLit(env, ds);
    case Paren(u) =>
      EvalIsValue(env, u);
      EvalParen(env, u);
    case Bin(op, l, r) =>
      EvalIsValue(Down(env, 'l'), l);
      EvalIsValue(Down(env, 'r'), r);
      EvalBin(env, op, l, r);
      var s, q := Text(t), |Text(l)|;
      assert s[..q] == Text(l) && s[q] == op && s[q + 1..] == Text(r);
  }

  // ------------------------------------------------------------ minimal parentheses

  /** Bare trees, without parentheses. */
  datatype Bare = Num(digits: string) | Op(op: char, left: Bare, right: Bare)

  predicate Legal(b: Bare) {
    match b
    case Num(ds) => AllDigits(ds, 16)
    case Op(op, l, r) => IsOp(op) && Legal(l) && Legal(r)
  }

  function Meaning(b: Bare, word: nat): (r: Option<int>)
    requires word > 0 && Legal(b)
    ensures r.Some? ==> 0 <= r.value < word
  {
    match b
    case Num(ds) => Some(Numeral(ds, 16) % word)
    case Op(op, l, r) =>
      match (Meaning(l, word), Meaning(r, word))
      case (Some(v1), Some(v2)) => Apply(op, v1, v2, word)
      case _ => None
  }

  /** Something is divided by an expression that comes to zero. */
  predicate DividesByZero(b: Bare, word: nat)
    requires word > 0 && Legal(b)
  {
    match b
    case Num(_) => false
    case Op(op, l, r) =>
      || DividesByZero(l, word) || DividesByZero(r, word)
      || (op == '/' && Meaning(r, word) == Some(0))
  }

  function Wrap(t: Tree, wrap: bool): Tree {
    if wrap then Paren(t) else t
  }

  /** Parentheses only where precedence and left association would group differently. */
  function Parenthesise(b: Bare): Tree {
    match b
    case Num(ds) => Lit(ds)
    case Op(op, l, r) =>
      var lt, rt := Parenthesise(l), Parenthesise(r);
      Bin(op, Wrap(lt, Level(lt) < Prec(op)), Wrap(rt, Level(rt) <= Prec(op)))
  }

  lemma {:induction false} ParenthesisedIsGrouped(b: Bare, word: nat)
    requires Legal(b) && word > 0
    ensures Grouped(Parenthesise(b)) && Value(Parenthesise(b), word) == Meaning(b, word)
  {
    match b
    case Num(_) =>
    case Op(op, l, r) =>
      ParenthesisedIsGrouped(l, word);
      ParenthesisedIsGrouped(r, word);
  }

  lemma {:induction false} UndefinedIffDividesByZero(b: Bare, word: nat)
    requires Legal(b) && word > 0
    ensures Meaning(b, word) == None <==> DividesByZero(b, word)
  {
    match b
    case Num(_) =>
    case Op(op, l, r) =>
      UndefinedIffDividesByZero(l, word);
      UndefinedIffDividesByZero(r, word);
  }

  /** Printing a tree with the fewest parentheses and evaluating the text gives the tree's value,
      or fails exactly when some divisor comes to zero. */
  lemma {:induction false} EvaluatorIsRight(env: Env, b: Bare)
    requires env.word > 0 && Legal(b) && !env.inbase.BadBase?
    ensures Eval(env, Text(Parenthesise(b))) == Meaning(b, env.word)
    ensures Eval(env, Text(Parenthesise(b))) == None <==> DividesByZero(b, env.word)
  {
    ParenthesisedIsGrouped(b, env.word);
    EvalIsValue(env, Parenthesise(b));
    UndefinedIffDividesByZero(b, env.word);
  }

  // ------------------------------------------------------------ numbers that start with a letter

  /** A name without operators that starts with a letter that is also a hexadecimal digit. */
  ghost predicate LetterName(s: string) {
    s != [] && Digit(s[0]) >= 0 && !('0' <= s[0] <= '9') && Clear(s, "+-") && Clear(s, "*/")
  }

  lemma {:induction false} EvalHexOrSymbol(env: Env, s: string)
    requires env.word > 0 && LetterName(s)
    ensures Eval(env, s) == Word(HexOrSymbol(env, s), env.word)
  {
    ClearHasNone(s, "+-");
    ClearHasNone(s, "*/");
  }

  lemma {:induction false} LettersAreName(s: string, word: nat)
    requires word > 0 && AllDigits(s, 16) && s != [] && !('0' <= s[0] <= '9')
    ensures LetterName(s) && Atob(s, 16, word) == Some(Numeral(s, 16) % word)
  {
    forall i | 0 <= i < |s|
      ensures s[i] != '(' && s[i] != ')' && !IsOp(s[i]) && s[i] != '.'
    {
      assert Digit(s[i]) >= 0;
    }
    assert Digit(s[0]) >= 0;
    assert !HexPrefix(s);
  }

  /** The name of a symbol that starts with such a letter. When `inalpha` is hex it evaluates to the
      symbol's value, unless it is a number. When `inalpha` is symbol it evaluates to whatever the
      variable for the result held, so to the symbol's value exactly if it held that already. */
  lemma {:induction false} LetterSymbols(env: Env, s: string, v: int)
    requires env.word > 0 && LetterName(s) && env.sym(s) == Some(v)
    ensures env.inalpha.Hex? && Atob(s, 16, env.word).None? ==> Eval(env, s) == Some(v % env.word)
    ensures env.inalpha.Symbol? ==> Eval(env, s) == Some(env.unset("") % env.word)
    ensures env.inalpha.Symbol? ==>
      (Eval(env, s) == Some(v % env.word) <==> env.unset("") % env.word == v % env.word)
  {
    EvalHexOrSymbol(env, s);
  }

  /** A hexadecimal number that starts with a letter evaluates to the number when `inalpha` is
      hex. When `inalpha` is symbol, it does so exactly if it is zero and no symbol has that name, or
      if one has and the number is what the variable for the result held. */
  lemma {:induction false} LetterNumbers(env: Env, s: string)
    requires env.word > 0 && AllDigits(s, 16) && s != [] && !('0' <= s[0] <= '9')
    ensures env.inalpha.Hex? ==> Eval(env, s) == Some(Numeral(s, 16) % env.word)
    ensures env.inalpha.Symbol? && env.sym(s).None? ==>
      (Eval(env, s) == Some(Numeral(s, 16) % env.word) <==> Numeral(s, 16) % env.word == 0)
    ensures env.inalpha.Symbol? && env.sym(s).Some? ==>
      (Eval(env, s) == Some(Numeral(s, 16) % env.word) <==> Numeral(s, 16) % env.word == env.unset("") % env.word)
  {
    LettersAreName(s, env.word);
    EvalHexOrSymbol(env, s);
    Small(Numeral(s, 16), env.word);
    Small(0, env.word);
  }

  lemma {:induction false} Small(n: int, word: nat)
    requires word > 0
    ensures n % word % word == n % word && 0 % word == 0
  {
    RemainderIs(n % word, 0, n % word, word);
    RemainderIs(0, 0, 0, word);
  }

  lemma {:induction false} NumeralA0()
    ensures AllDigits("a0", 16) && Numeral("a0", 16) == 160
  {
    assert "a0"[..1] == "a" && "a"[..0] == "";
  }

  /** For one: `a0` is not 160 but zero when symbols come first and none is called a0. */
  lemma {:induction false} LetterNumberLost(env: Env, s: string)
    requires s == "a0" && env.word > 160 && env.inalpha.Symbol? && env.sym(s).None?
    ensures AllDigits(s, 16) && Eval(env, s) != Some(Numeral(s, 16) % env.word)
  {
    NumeralA0();
    RemainderIs(160, 0, 160, env.word);
    LetterNumbers(env, s);
  }

  /** For one: a symbol `a0` of value 160 evaluates to zero when symbols come first and the variable
      for the result held zero. */
  lemma {:induction false} LetterSymbolLost(env: Env, s: string)
    requires s == "a0" && env.word > 160 && env.inalpha.Symbol? && env.sym(s) == Some(160) && env.unset("") == 0
    ensures Eval(env, s) == Some(0)
  {
    NumeralA0();
    LettersAreName(s, env.word);
    LetterSymbols(env, s, 160);
    Small(0, env.word);
  }
}
