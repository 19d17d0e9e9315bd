/** The symbol table (pmon/sym.c): hash chains linked through the symbols, and sorted lists of
    all symbols, by name and by value, made when they are wanted.

    A symbol's address is its place in the store; the link of a symbol always leads to an older
    one. A name is the string of its character codes. */
module Symbols {
  import opened Pointers

  const NHASH := 127
  const NULL := -1

  type Name = seq<int>

  datatype Sym = Sym(name: Name, value: int, next: int)

  // ------------------------------------------------------------ hashing

  /** The word a character code is widened to. */
  function Widened(c: int): bv32 {
    (c % 0x1_0000_0000) as bv32
  }

  function HashStep(h: bv32, c: int): bv32 {
    var g := (h << 4) + Widened(c);
    if g > 0x0fff_ffff then (g ^ ((g >> 24) & 0xf0)) & 0x0fff_ffff else g
  }

  function Strhash(s: Name): (h: bv32)
    ensures h <= 0x0fff_ffff
  {
    if s == [] then 0 else HashStep(Strhash(s[..|s| - 1]), s[|s| - 1])
  }

  /** The hash loop; the hash has 28 bits. */
  method HashName(s: Name) returns (h: bv32)
    ensures h == Strhash(s) && h <= 0x0fff_ffff
  {
    h := 0;
    var i := 0;
    while i < |s|
      invariant 0 <= i <= |s| && h == Strhash(s[..i])
    {
      assert s[..i + 1][..i] == s[..i];
      h := HashStep(h, s[i]);
      i := i + 1;
    }
    assert s[..i] == s;
  }

  function Bucket(s: Name): (b: int)
    ensures 0 <= b < NHASH
  {
    Strhash(s) as int % NHASH
  }

  // ------------------------------------------------------------ chains

  predicate Linked(store: seq<Sym>) {
    forall p :: 0 <= p < |store| ==> NULL <= store[p].next < p
  }

  predicate Points(store: seq<Sym>, p: int) {
    NULL <= p < |store|
  }

  /** The symbols on the chain that starts at `p`. */
  function Chain(store: seq<Sym>, p: int): (c: seq<int>)
    requires Linked(store) && Points(store, p)
    decreases p
  {
    if p < 0 then [] else [p] + Chain(store, store[p].next)
  }

  predicate Heads(store: seq<Sym>, heads: seq<int>) {
    |heads| == NHASH && forall b :: 0 <= b < NHASH ==> Points(store, heads[b])
  }

  /** The symbols of the first `n` buckets, bucket by bucket. */
  function Gathered(store: seq<Sym>, heads: seq<int>, n: nat): seq<int>
    requires Linked(store) && Heads(store, heads) && n <= |heads|
  {
    if n == 0 then [] else Gathered(store, heads, n - 1) + Chain(store, heads[n - 1])
  }

  /** How often `x` is in the list. */
  function Count(s: seq<int>, x: int): (n: int)
    ensures n >= 0
  {
    if s == [] then 0 else Count(s[..|s| - 1], x) + if s[|s| - 1] == x then 1 else 0
  }

  lemma {:induction false} CountAppend(a: seq<int>, b: seq<int>, x: int)
    ensures Count(a + b, x) == Count(a, x) + Count(b, x)
    decreases |b|
  {
    if b == [] {
      assert a + b == a;
    } else {
      assert (a + b)[..|a + b| - 1] == a + b[..|b| - 1];
      CountAppend(a, b[..|b| - 1], x);
    }
  }

  lemma {:induction false} CountOne(y: int, x: int)
    ensures Count([y], x) == if x == y then 1 else 0
  {
    assert [y][..0] == [];
  }

  lemma {:induction false} CountIsMultiplicity(s: seq<int>, x: int)
    ensures Count(s, x) == multiset(s)[x]
  {
    if s != [] {
      CountIsMultiplicity(s[..|s| - 1], x);
      assert s == s[..|s| - 1] + [s[|s| - 1]];
    }
  }

  /** The list holds the places below `n`, each once, and nothing else. */
  ghost predicate EachOnce(list: seq<int>, n: int) {
    forall p :: Count(list, p) == if 0 <= p < n then 1 else 0
  }

  lemma {:induction false} EachOnceRearranged(s: seq<int>, t: seq<int>, n: int)
    requires EachOnce(s, n) && multiset(t) == multiset(s)
    ensures EachOnce(t, n)
  {
    forall p
      ensures Count(t, p) == if 0 <= p < n then 1 else 0
    {
      CountIsMultiplicity(s, p);
      CountIsMultiplicity(t, p);
    }
  }

  /** Where an element of a list is. */
  lemma {:induction false} Place(s: seq<int>, x: int) returns (k: int)
    requires Count(s, x) > 0
    ensures 0 <= k < |s| && s[k] == x
  {
    k := |s| - 1;
    if s[k] != x {
      k := Place(s[..k], x);
    }
  }

  lemma {:induction false} CountAt(s: seq<int>, k: int)
    requires 0 <= k < |s|
    ensures Count(s, s[k]) > 0
  {
    if k < |s| - 1 {
      CountAt(s[..|s| - 1], k);
    }
  }

  /** The places below `n`. */
  function Ids(n: nat): seq<int> {
    if n == 0 then [] else Ids(n - 1) + [n - 1]
  }

  lemma {:induction false} IdsCount(n: nat, p: int)
    ensures |Ids(n)| == n && Count(Ids(n), p) == if 0 <= p < n then 1 else 0
  {
    if n > 0 {
      IdsCount(n - 1, p);
      CountAppend(Ids(n - 1), [n - 1], p);
      CountOne(n - 1, p);
    }
  }

  lemma {:induction false} EachOnceLength(list: seq<int>, n: nat)
    requires EachOnce(list, n)
    ensures |list| == n
  {
    forall p: int
      ensures multiset(list)[p] == multiset(Ids(n))[p]
    {
      CountIsMultiplicity(list, p);
      CountIsMultiplicity(Ids(n), p);
      IdsCount(n, p);
    }
    IdsCount(n, 0);
    assert multiset(list) == multiset(Ids(n));
    assert |list| == |multiset(list)|;
  }

  /** A chain does not depend on values or on younger symbols. */
  lemma {:induction false} ChainSame(store: seq<Sym>, store': seq<Sym>, p: int)
    requires Linked(store) && Linked(store') && Points(store, p) && |store| <= |store'|
    requires forall q :: 0 <= q < |store| ==> store'[q].next == store[q].next
    ensures Chain(store', p) == Chain(store, p)
    decreases p
  {
    if p >= 0 {
      ChainSame(store, store', store[p].next);
    }
  }

  lemma {:induction false} GatheredSame(store: seq<Sym>, store': seq<Sym>, heads: seq<int>, n: nat)
    requires Linked(store) && Linked(store') && Heads(store, heads) && Heads(store', heads) && n <= |heads|
    requires |store| <= |store'| && forall q :: 0 <= q < |store| ==> store'[q].next == store[q].next
    ensures Gathered(store', heads, n) == Gathered(store, heads, n)
  {
    if n > 0 {
      GatheredSame(store, store', heads, n - 1);
      ChainSame(store, store', heads[n - 1]);
    }
  }

  /** A new symbol goes to the head of its bucket's chain; the other chains stay. */
  lemma {:induction false} ChainMore(store: seq<Sym>, heads: seq<int>, b: int, sym: Sym, i: int)
    requires Linked(store) && Heads(store, heads) && 0 <= b < NHASH && sym.next == heads[b] && 0 <= i < NHASH
    ensures var store', heads' := store + [sym], heads[b := |store|];
      && Linked(store') && Heads(store', heads')
      && Chain(store', heads'[i]) == (if i == b then [|store|] else []) + Chain(store, heads[i])
  {
    var store' := store + [sym];
    ChainSame(store, store', heads[i]);
  }

  lemma {:induction false} CountMore(g: seq<int>, g': seq<int>, c: seq<int>, d: seq<int>, x: int)
    ensures Count(g' + (d + c), x) == Count(g + c, x) + Count(d, x) + Count(g', x) - Count(g, x)
  {
    CountAppend(g', d + c, x);
    CountAppend(d, c, x);
    CountAppend(g, c, x);
  }

  /** Putting a new symbol at the head of a bucket adds it and nothing else. */
  lemma {:induction false} GatheredMore(store: seq<Sym>, heads: seq<int>, b: int, sym: Sym, n: nat, x: int)
    requires Linked(store) && Heads(store, heads) && 0 <= b < NHASH && sym.next == heads[b] && n <= |heads|
    ensures var store', heads' := store + [sym], heads[b := |store|];
      && Linked(store') && Heads(store', heads')
      && Count(Gathered(store', heads', n), x)
         == Count(Gathered(store, heads, n), x) + if b < n && x == |store| then 1 else 0
  {
    ChainMore(store, heads, b, sym, 0);
    if n > 0 {
      var store', heads' := store + [sym], heads[b := |store|];
      ChainMore(store, heads, b, sym, n - 1);
      GatheredMore(store, heads, b, sym, n - 1, x);
      CountMore(Gathered(store, heads, n - 1), Gathered(store', heads', n - 1),
                Chain(store, heads[n - 1]), if n - 1 == b then [|store|] else [], x);
      CountOne(|store|, x);
    }
  }

  /** A gathered symbol is on the chain of some bucket. */
  lemma {:induction false} GatheredFrom(store: seq<Sym>, heads: seq<int>, n: nat, p: int) returns (b: int, k: int)
    requires Linked(store) && Heads(store, heads) && n <= |heads|
    requires Count(Gathered(store, heads, n), p) > 0
    ensures 0 <= b < n && 0 <= k < |Chain(store, heads[b])| && Chain(store, heads[b])[k] == p
  {
    CountAppend(Gathered(store, heads, n - 1), Chain(store, heads[n - 1]), p);
    if Count(Chain(store, heads[n - 1]), p) > 0 {
      b := n - 1;
      k := Place(Chain(store, heads[b]), p);
    } else {
      b, k := GatheredFrom(store, heads, n - 1, p);
    }
  }

  // ------------------------------------------------------------ orders

  function ValueAt(store: seq<Sym>, p: int): int {
    if 0 <= p < |store| then store[p].value else 0
  }

  function NameAt(store: seq<Sym>, p: int): Name {
    if 0 <= p < |store| then store[p].name else []
  }

  /** valcmp. */
  function ByValue(store: seq<Sym>): PtrOrder {
    (p: int, q: int) =>
      if ValueAt(store, p) < ValueAt(store, q) then -1
      else if ValueAt(store, p) > ValueAt(store, q) then 1 else 0
  }

  /** strcmp: byte by byte, a shorter string before its extensions. */
  function Strcmp(s: Name, t: Name): int {
    if s == [] then (if t == [] then 0 else -1)
    else if t == [] then 1
    else if s[0] < t[0] then -1
    else if s[0] > t[0] then 1
    else Strcmp(s[1..], t[1..])
  }

  function ByName(store: seq<Sym>): PtrOrder {
    (p: int, q: int) => Strcmp(NameAt(store, p), NameAt(store, q))
  }

  lemma {:induction false} StrcmpFlips(s: Name, t: Name)
    ensures Strcmp(s, t) < 0 <==> Strcmp(t, s) > 0
    ensures Strcmp(s, t) == 0 <==> s == t
  {
    if s != [] && t != [] {
      StrcmpFlips(s[1..], t[1..]);
      assert s == [s[0]] + s[1..] && t == [t[0]] + t[1..];
    }
  }

  lemma {:induction false} StrcmpChains(s: Name, t: Name, u: Name)
    requires Strcmp(s, t) <= 0 && Strcmp(t, u) <= 0
    ensures Strcmp(s, u) <= 0
  {
    if s != [] && t != [] && u != [] && s[0] == t[0] == u[0] {
      StrcmpChains(s[1..], t[1..], u[1..]);
    }
  }

  lemma {:induction false} ByNameIsTotal(store: seq<Sym>)
    ensures TotalOrder(ByName(store))
  {
    var cmp := ByName(store);
    forall p: int, q: int
      ensures Flips(cmp, p, q)
    {
      StrcmpFlips(NameAt(store, p), NameAt(store, q));
    }
    forall p: int, q: int, r: int
      ensures Links(cmp, p, q, r)
    {
      if Before(cmp, p, q) && Before(cmp, q, r) {
        StrcmpChains(NameAt(store, p), NameAt(store, q), NameAt(store, r));
      }
    }
  }

  lemma {:induction false} ByValueIsTotal(store: seq<Sym>)
    ensures TotalOrder(ByValue(store))
  {
  }

  // ------------------------------------------------------------ what the tables stand for

  /** The symbols as a simple table: `name` has the value `v`. */
  predicate Binds(store: seq<Sym>, name: Name, v: int) {
    exists p :: 0 <= p < |store| && store[p].name == name && store[p].value == v
  }

  /** No two symbols have the same name, but for the empty one. */
  predicate NamesDiffer(store: seq<Sym>) {
    forall p, q :: 0 <= p < q < |store| ==> store[p].name != store[q].name || store[p].name == []
  }

  /** Only one symbol has the name, if any. */
  predicate Once(store: seq<Sym>, name: Name) {
    forall p, q :: 0 <= p < q < |store| ==> store[p].name != name || store[q].name != name
  }

  /** The program takes the symbol at `p` for one of this name. Names are compared from their second
      character on once the first ones agree, which of two empty names is past their ends: `behind`
      says whether what lies there agrees. */
  predicate Matches(store: seq<Sym>, name: Name, behind: int -> bool, p: int)
    requires 0 <= p < |store|
  {
    store[p].name == name && (name == [] ==> behind(p))
  }

  /** The chains together hold every symbol once. */
  ghost predicate Complete(store: seq<Sym>, heads: seq<int>) {
    && Linked(store) && Heads(store, heads)
    && EachOnce(Gathered(store, heads, |heads|), |store|)
  }

  /** The list holds symbols whose names hash to `b` only. */
  ghost predicate AllOf(store: seq<Sym>, list: seq<int>, hash: Name -> int, b: int) {
    forall i :: 0 <= i < |list| ==> 0 <= list[i] < |store| && hash(store[list[i]].name) == b
  }

  /** Every symbol is on the chain of its name's bucket, once, and on no other. */
  ghost predicate Hashed(store: seq<Sym>, heads: seq<int>, hash: Name -> int) {
    && Complete(store, heads)
    && forall b :: 0 <= b < NHASH ==> AllOf(store, Chain(store, heads[b]), hash, b)
  }

  /** `list` is all symbols, each once, in order. */
  ghost predicate SortedAll(store: seq<Sym>, cmp: PtrOrder, list: seq<int>) {
    EachOnce(list, |store|) && InOrder(cmp, list)
  }

  lemma {:induction false} ListIsStore(store: seq<Sym>, list: seq<int>)
    requires EachOnce(list, |store|)
    ensures |list| == |store|
    ensures forall i :: 0 <= i < |list| ==> 0 <= list[i] < |store|
  {
    EachOnceLength(list, |store|);
    forall i | 0 <= i < |list|
      ensures 0 <= list[i] < |store|
    {
      CountAt(list, i);
    }
  }

  /** `r` is a symbol of greatest value not above `addr`, or null if there is none. */
  predicate Closest(store: seq<Sym>, addr: int, r: int) {
    if r == NULL then forall p :: 0 <= p < |store| ==> store[p].value > addr
    else
      && 0 <= r < |store| && store[r].value <= addr
      && forall p :: 0 <= p < |store| && store[p].value <= addr ==> store[p].value <= store[r].value
  }

  /** Any two closest symbols have the same value. */
  lemma {:induction false} ClosestAgree(store: seq<Sym>, addr: int, r: int, q: int)
    requires Closest(store, addr, r) && Closest(store, addr, q)
    ensures (r == NULL <==> q == NULL)
    ensures r != NULL ==> store[r].value == store[q].value
  {
  }

  // ------------------------------------------------------------ walking the chains

  lemma {:induction false} OnItsChain(store: seq<Sym>, heads: seq<int>, hash: Name -> int, p: int) returns (k: int)
    requires Hashed(store, heads, hash) && 0 <= p < |store|
    ensures var b := hash(store[p].name);
      0 <= b < NHASH && 0 <= k < |Chain(store, heads[b])| && Chain(store, heads[b])[k] == p
  {
    var b;
    b, k := GatheredFrom(store, heads, |heads|, p);
    assert AllOf(store, Chain(store, heads[b]), hash, b);
  }

  lemma {:induction false} AllOfMore(store: seq<Sym>, c: seq<int>, hash: Name -> int, sym: Sym, b: int)
    requires AllOf(store, c, hash, b)
    ensures AllOf(store + [sym], c, hash, b)
    ensures hash(sym.name) == b ==> AllOf(store + [sym], [|store|] + c, hash, b)
  {
  }

  lemma {:induction false} CompleteMore(store: seq<Sym>, heads: seq<int>, b: int, sym: Sym)
    requires Complete(store, heads) && 0 <= b < NHASH && sym.next == heads[b]
    ensures Complete(store + [sym], heads[b := |store|])
  {
    var store', heads' := store + [sym], heads[b := |store|];
    ChainMore(store, heads, b, sym, 0);
    forall p
      ensures Count(Gathered(store', heads', |heads'|), p) == if 0 <= p < |store'| then 1 else 0
    {
      GatheredMore(store, heads, b, sym, |heads|, p);
    }
  }

  lemma {:induction false} HashedMore(store: seq<Sym>, heads: seq<int>, hash: Name -> int, b: int, sym: Sym)
    requires Hashed(store, heads, hash) && 0 <= b < NHASH && hash(sym.name) == b && sym.next == heads[b]
    ensures Hashed(store + [sym], heads[b := |store|], hash)
  {
    var store', heads' := store + [sym], heads[b := |store|];
    CompleteMore(store, heads, b, sym);
    forall i | 0 <= i < NHASH
      ensures AllOf(store', Chain(store', heads'[i]), hash, i)
    {
      ChainMore(store, heads, b, sym, i);
      AllOfMore(store, Chain(store, heads[i]), hash, sym, i);
      assert [] + Chain(store, heads[i]) == Chain(store, heads[i]);
    }
  }

  lemma {:induction false} HashedUpdated(store: seq<Sym>, heads: seq<int>, hash: Name -> int, p: int, v: int)
    requires Hashed(store, heads, hash) && 0 <= p < |store|
    ensures Hashed(store[p := store[p].(value := v)], heads, hash)
  {
    var store' := store[p := store[p].(value := v)];
    GatheredSame(store, store', heads, |heads|);
    forall b | 0 <= b < NHASH
      ensures AllOf(store', Chain(store', heads[b]), hash, b)
    {
      ChainSame(store, store', heads[b]);
      assert AllOf(store, Chain(store, heads[b]), hash, b);
    }
  }

  /** The walk down the chain of a name's bucket finds a symbol of that name if there is one. */
  method FindName(store: seq<Sym>, heads: seq<int>, ghost hash: Name -> int, b: int, name: Name, behind: int -> bool)
      returns (r: int)
    requires Hashed(store, heads, hash) && 0 <= b < NHASH && hash(name) == b
    ensures r == NULL ==> forall p :: 0 <= p < |store| ==> !Matches(store, name, behind, p)
    ensures r != NULL ==> 0 <= r < |store| && Matches(store, name, behind, r)
  {
    r := WalkChain(store, heads[b], name, behind);
    if r == NULL {
      forall p | 0 <= p < |store|
        ensures !Matches(store, name, behind, p)
      {
        if store[p].name == name {
          var k := OnItsChain(store, heads, hash, p);
        }
      }
    }
  }

  method WalkChain(store: seq<Sym>, head: int, name: Name, behind: int -> bool) returns (r: int)
    requires Linked(store) && Points(store, head)
    ensures Points(store, r) && (r != NULL ==> Matches(store, name, behind, r))
    ensures r == NULL ==> forall k :: 0 <= k < |Chain(store, head)| ==>
      0 <= Chain(store, head)[k] < |store| && !Matches(store, name, behind, Chain(store, head)[k])
  {
    ghost var c := Chain(store, head);
    ghost var done := 0;
    r := head;
    while r != NULL
      invariant Points(store, r) && 0 <= done <= |c| && Chain(store, r) == c[done..]
      invariant forall k :: 0 <= k < done ==> 0 <= c[k] < |store| && !Matches(store, name, behind, c[k])
      decreases r
    {
      var sym := store[r];
      assert c[done..][0] == r && c[done..][1..] == c[done + 1..];
      if name == [] && sym.name == [] {
        if behind(r) {
          return;
        }
      } else if name != [] && sym.name != [] && name[0] == sym.name[0] && name[1..] == sym.name[1..] {
        assert name == [name[0]] + name[1..] && sym.name == [sym.name[0]] + sym.name[1..];
        return;
      }
      done := done + 1;
      r := sym.next;
    }
  }

  /** The pointers of all chains, bucket by bucket. */
  method Gather(store: seq<Sym>, heads: seq<int>) returns (list: seq<int>)
    requires Linked(store) && Heads(store, heads)
    ensures list == Gathered(store, heads, |heads|)
  {
    list := [];
    var i := 0;
    while i < NHASH
      invariant 0 <= i <= NHASH && list == Gathered(store, heads, i)
    {
      var p := heads[i];
      while p != NULL
        invariant Points(store, p)
        invariant list + Chain(store, p) == Gathered(store, heads, i + 1)
        decreases p
      {
        list := list + [p];
        p := store[p].next;
      }
      i := i + 1;
    }
  }

  // ------------------------------------------------------------ the closest symbol

  /** `best` is the closest of the symbols in `seen` that are below `addr`; none of them is at it. */
  predicate BestOf(store: seq<Sym>, seen: seq<int>, addr: int, best: int) {
    && (forall i :: 0 <= i < |seen| ==> 0 <= seen[i] < |store| && store[seen[i]].value != addr)
    && (best == NULL || (0 <= best < |store| && store[best].value < addr))
    && (forall i :: 0 <= i < |seen| && store[seen[i]].value < addr ==>
          best != NULL && store[seen[i]].value <= store[best].value)
  }

  lemma {:induction false} BestOfAll(store: seq<Sym>, heads: seq<int>, addr: int, best: int)
    requires Complete(store, heads) && BestOf(store, Gathered(store, heads, |heads|), addr, best)
    ensures Closest(store, addr, best)
  {
    var all := Gathered(store, heads, |heads|);
    ListIsStore(store, all);
    forall p | 0 <= p < |store|
      ensures store[p].value != addr
      ensures store[p].value < addr ==> best != NULL && store[p].value <= store[best].value
    {
      var k := Place(all, p);
      assert store[all[k]].value != addr;
    }
  }

  /** One chain: an exact match, or the best so far. */
  method SearchChain(store: seq<Sym>, head: int, addr: int, best0: int, ghost seen0: seq<int>)
    returns (hit: int, best: int)
    requires Linked(store) && Points(store, head) && BestOf(store, seen0, addr, best0)
    ensures hit != NULL ==> 0 <= hit < |store| && store[hit].value == addr
    ensures hit == NULL ==> BestOf(store, seen0 + Chain(store, head), addr, best)
  {
    best := best0;
    ghost var seen := seen0;
    var p := head;
    assert seen0 + Chain(store, p) == seen0 + Chain(store, head);
    while p != NULL
      invariant Points(store, p)
      invariant seen + Chain(store, p) == seen0 + Chain(store, head)
      invariant BestOf(store, seen, addr, best)
      decreases p
    {
      if store[p].value == addr {
        return p, best;
      }
      if store[p].value < addr && (best == NULL || store[p].value > store[best].value) {
        best := p;
      }
      assert seen + [p] + Chain(store, store[p].next) == seen + Chain(store, p);
      seen := seen + [p];
      p := store[p].next;
    }
    assert seen == seen0 + Chain(store, head);
    return NULL, best;
  }

  /** The long way: every chain, stopping early at an exact match. */
  method SearchChains(store: seq<Sym>, heads: seq<int>, addr: int) returns (best: int)
    requires Complete(store, heads)
    ensures Closest(store, addr, best)
  {
    best := NULL;
    var hi := 0;
    while hi < NHASH
      invariant 0 <= hi <= NHASH && BestOf(store, Gathered(store, heads, hi), addr, best)
    {
      var hit;
      hit, best := SearchChain(store, heads[hi], addr, best, Gathered(store, heads, hi));
      if hit != NULL {
        return hit;
      }
      hi := hi + 1;
    }
    BestOfAll(store, heads, addr, best);
  }

  lemma {:induction false} SortedValues(store: seq<Sym>, list: seq<int>, i: int, j: int)
    requires SortedAll(store, ByValue(store), list) && 0 <= i <= j < |list|
    ensures 0 <= list[i] < |store| && 0 <= list[j] < |store|
    ensures store[list[i]].value <= store[list[j]].value
  {
    ListIsStore(store, list);
    if i < j {
      assert Before(ByValue(store), list[i], list[j]);
    }
  }

  /** Nothing after place `hi` of the list is at or below `addr`, or the symbol there is not
      below it. */
  ghost predicate Narrowed(store: seq<Sym>, list: seq<int>, addr: int, hi: int) {
    && 0 <= hi < |list|
    && (forall i :: 0 <= i < |list| ==> 0 <= list[i] < |store|)
    && (store[list[hi]].value >= addr || forall k :: hi < k < |list| ==> store[list[k]].value > addr)
  }

  lemma {:induction false} NarrowedIsClosest(store: seq<Sym>, list: seq<int>, addr: int, hi: int)
    requires SortedAll(store, ByValue(store), list) && Narrowed(store, list, addr, hi)
    requires store[list[hi]].value <= addr
    ensures Closest(store, addr, list[hi])
  {
    ListIsStore(store, list);
    forall p | 0 <= p < |store| && store[p].value <= addr
      ensures store[p].value <= store[list[hi]].value
    {
      var k := Place(list, p);
      if k <= hi {
        SortedValues(store, list, k, hi);
      }
    }
  }

  /** The binary search of the sorted list. */
  method SearchList(store: seq<Sym>, list: seq<int>, addr: int) returns (r: int)
    requires SortedAll(store, ByValue(store), list) && |store| > 0
    ensures Closest(store, addr, r)
  {
    ListIsStore(store, list);
    if addr < store[list[0]].value {
      forall p | 0 <= p < |store|
        ensures store[p].value > addr
      {
        var k := Place(list, p);
        SortedValues(store, list, 0, k);
      }
      return NULL;
    }
    var lo, hi := 0, |list| - 1;
    while store[list[hi]].value > addr
      invariant 0 <= lo <= hi < |list| && store[list[lo]].value <= addr
      invariant Narrowed(store, list, addr, hi)
      decreases hi - lo
    {
      var mid := (lo + hi) / 2;
      if lo == mid || store[list[mid]].value >= addr {
        if lo == mid {
          forall k | mid < k < |list|
            ensures store[list[k]].value > addr
          {
            SortedValues(store, list, hi, k);
          }
        }
        hi := mid;
      } else {
        lo := mid;
      }
    }
    NarrowedIsClosest(store, list, addr, hi);
    return list[hi];
  }

  // ------------------------------------------------------------ the table

  datatype List = NoList | List(syms: seq<int>)

  datatype Key = ALPHA | NUMERIC

  function Other(key: Key): Key {
    if key.ALPHA? then NUMERIC else ALPHA
  }

  const BUCKET_OF: Name -> int := (s: Name) => Bucket(s)

  /** A list that is kept is a sorted permutation of the symbols. */
  ghost predicate Kept(store: seq<Sym>, key: Key, list: List) {
    list.List? ==> SortedAll(store, Order(store, key), list.syms)
  }

  function Order(store: seq<Sym>, key: Key): PtrOrder {
    if key.ALPHA? then ByName(store) else ByValue(store)
  }

  lemma {:induction false} OrderIsTotal(store: seq<Sym>, key: Key)
    ensures TotalOrder(Order(store, key))
  {
    if key.ALPHA? {
      ByNameIsTotal(store);
    } else {
      ByValueIsTotal(store);
    }
  }

  /** A change of value leaves the list by name as it was. */
  lemma {:induction false} NamesKept(store: seq<Sym>, p: int, v: int, list: List)
    requires 0 <= p < |store| && Kept(store, ALPHA, list)
    ensures Kept(store[p := store[p].(value := v)], ALPHA, list)
  {
    var store' := store[p := store[p].(value := v)];
    if list.List? {
      forall i, j | 0 <= i < j < |list.syms|
        ensures Before(ByName(store'), list.syms[i], list.syms[j])
      {
        assert Before(ByName(store), list.syms[i], list.syms[j]);
        assert NameAt(store', list.syms[i]) == NameAt(store, list.syms[i]);
        assert NameAt(store', list.syms[j]) == NameAt(store, list.syms[j]);
      }
    }
  }

  /** The table binds `name` to `value` and everything else as before. */
  ghost predicate Bound(store: seq<Sym>, store': seq<Sym>, name: Name, value: int) {
    forall n, v :: Binds(store', n, v) <==> if n == name then v == value else Binds(store, n, v)
  }

  /** The table binds `name` to `value`, among others perhaps, and other names as before. */
  ghost predicate Rebound(store: seq<Sym>, store': seq<Sym>, name: Name, value: int) {
    && Binds(store', name, value)
    && forall n, v :: n != name ==> (Binds(store', n, v) <==> Binds(store, n, v))
  }

  lemma {:induction false} ReboundOnce(store: seq<Sym>, store': seq<Sym>, name: Name, value: int)
    requires Rebound(store, store', name, value) && Once(store', name)
    ensures Bound(store, store', name, value)
  {
    var p :| 0 <= p < |store'| && store'[p].name == name && store'[p].value == value;
    forall v | Binds(store', name, v)
      ensures v == value
    {
      var q :| 0 <= q < |store'| && store'[q].name == name && store'[q].value == v;
    }
  }

  /** No symbol matches: none has the name, unless it is empty. */
  lemma {:induction false} Unmatched(store: seq<Sym>, name: Name, behind: int -> bool)
    requires name != [] && forall p :: 0 <= p < |store| ==> !Matches(store, name, behind, p)
    ensures forall p :: 0 <= p < |store| ==> store[p].name != name
  {
    forall p | 0 <= p < |store|
      ensures store[p].name != name
    {
      assert !Matches(store, name, behind, p);
    }
  }

  lemma {:induction false} DifferMore(store: seq<Sym>, sym: Sym, behind: int -> bool)
    requires NamesDiffer(store) && forall p :: 0 <= p < |store| ==> !Matches(store, sym.name, behind, p)
    ensures NamesDiffer(store + [sym])
  {
    if sym.name != [] {
      Unmatched(store, sym.name, behind);
    }
  }

  lemma {:induction false} NamedOnce(store: seq<Sym>, name: Name)
    requires NamesDiffer(store) && name != []
    ensures Once(store, name)
  {
  }

  /** What is stated of a table in which a name has been bound. */
  ghost predicate Entered(store: seq<Sym>, store': seq<Sym>, name: Name, value: int) {
    && Rebound(store, store', name, value)
    && (name != [] || Once(store', name) ==> Bound(store, store', name, value))
  }

  lemma {:induction false} ReboundIsEntered(store: seq<Sym>, store': seq<Sym>, name: Name, value: int)
    requires Rebound(store, store', name, value) && NamesDiffer(store')
    ensures Entered(store, store', name, value)
  {
    if name != [] {
      NamedOnce(store', name);
    }
    if Once(store', name) {
      ReboundOnce(store, store', name, value);
    }
  }

  lemma {:induction false} ReboundByAdding(store: seq<Sym>, sym: Sym)
    ensures Rebound(store, store + [sym], sym.name, sym.value)
  {
    var store' := store + [sym];
    assert store'[|store|] == sym;
    forall n, v | n != sym.name
      ensures Binds(store', n, v) <==> Binds(store, n, v)
    {
      if Binds(store, n, v) {
        var p :| 0 <= p < |store| && store[p].name == n && store[p].value == v;
        assert store'[p] == store[p];
      }
    }
  }

  lemma {:induction false} ReboundByUpdating(store: seq<Sym>, p: int, value: int)
    requires 0 <= p < |store|
    ensures Rebound(store, store[p := store[p].(value := value)], store[p].name, value)
  {
    var name, store' := store[p].name, store[p := store[p].(value := value)];
    assert store'[p].name == name && store'[p].value == value;
    forall n, v | n != name
      ensures Binds(store', n, v) <==> Binds(store, n, v)
    {
      if Binds(store, n, v) {
        var q :| 0 <= q < |store| && store[q].name == n && store[q].value == v;
        assert store'[q] == store[q];
      }
    }
  }

  class SymTab {
    var store: seq<Sym>
    var symhash: seq<int>
    var alpha: List
    var numeric: List
    var nsyms: int

    /** The chains hold every symbol once, in its name's bucket; names differ; and each list that
        is kept is a sorted permutation of the symbols. */
    ghost predicate Valid()
      reads this
    {
      && Hashed(store, symhash, BUCKET_OF)
      && NamesDiffer(store)
      && nsyms == |store|
      && Kept(store, ALPHA, alpha)
      && Kept(store, NUMERIC, numeric)
    }

    constructor ()
      ensures Valid() && store == []
    {
      store := [];
      symhash := seq(NHASH, _ => NULL);
      alpha, numeric := NoList, NoList;
      nsyms := 0;
      new;
      EmptyIsHashed(symhash, BUCKET_OF);
    }

    /** newsym: whatever happens, the table stays valid; if it succeeds the name is bound to the
        value, and if there is no memory for a new name nothing is bound or unbound. An empty name
        that is not recognised may be bound to other values besides. */
    method NewSym(name: Name, value: int, memory: bool, behind: int -> bool) returns (ok: bool)
      requires Valid()
      modifies this
      ensures Valid()
      ensures ok ==> Entered(old(store), store, name, value)
      ensures !ok ==> store == old(store) && !memory
      ensures memory ==> ok
    {
      var h := HashName(name);
      var b := h as int % NHASH;
      var p := FindName(store, symhash, BUCKET_OF, b, name, behind);
      if p != NULL {
        ReboundByUpdating(store, p, value);
        ReboundIsEntered(store, store[p := store[p].(value := value)], name, value);
        HashedUpdated(store, symhash, BUCKET_OF, p, value);
        NamesKept(store, p, value, alpha);
        if store[p].value != value {
          store := store[p := store[p].(value := value)];
          numeric := NoList;
        } else {
          assert store[p := store[p].(value := value)] == store;
        }
        return true;
      }
      alpha, numeric := NoList, NoList;
      if !memory {
        return false;
      }
      var sym := Sym(name, value, symhash[b]);
      HashedMore(store, symhash, BUCKET_OF, b, sym);
      ReboundByAdding(store, sym);
      DifferMore(store, sym, behind);
      ReboundIsEntered(store, store + [sym], name, value);
      symhash := symhash[b := |store|];
      store := store + [sym];
      nsyms := nsyms + 1;
      return true;
    }

    /** clrsyms. */
    method ClrSyms()
      requires Valid()
      modifies this
      ensures Valid() && store == []
    {
      store := [];
      symhash := seq(NHASH, _ => NULL);
      alpha, numeric := NoList, NoList;
      nsyms := 0;
      EmptyIsHashed(symhash, BUCKET_OF);
    }

    function ListOf(key: Key): List
      reads this
    {
      if key.ALPHA? then alpha else numeric
    }

    method SetList(key: Key, list: List)
      modifies `alpha, `numeric
      ensures ListOf(key) == list && ListOf(Other(key)) == old(ListOf(Other(key)))
    {
      if key.ALPHA? {
        alpha := list;
      } else {
        numeric := list;
      }
    }

    /** getsort: the list asked for. One kept from before is given as it is; else one is made
        from the chains; without memory for that, the other list is taken over, if there is one.
        It is a sorted permutation of the symbols. */
    method GetSort(key: Key, memory: bool) returns (list: List)
      requires Valid()
      modifies `alpha, `numeric
      ensures Valid() && Kept(store, key, list)
      ensures store == [] ==> list == NoList && ListOf(key) == old(ListOf(key))
      ensures store != [] ==> list == ListOf(key)
      ensures store != [] && old(ListOf(key)).List? ==> list == old(ListOf(key))
      ensures store != [] && old(ListOf(key)).NoList? ==> (list.List? <==> memory || old(ListOf(Other(key))).List?)
      ensures ListOf(Other(key)) == if store != [] && old(ListOf(key)).NoList? && !memory then NoList
                                    else old(ListOf(Other(key)))
    {
      if nsyms == 0 {
        return NoList;
      }
      list := ListOf(key);
      if list.List? {
        return;
      }
      var syms, found := Unsorted(key, memory);
      if !found {
        return;
      }
      list := SortList(key, syms);
      SetList(key, list);
    }

    /** The symbols to sort: from the chains, or the other list if there is no memory. */
    method Unsorted(key: Key, memory: bool) returns (syms: seq<int>, found: bool)
      requires Valid()
      modifies `alpha, `numeric
      ensures Valid() && (found ==> EachOnce(syms, |store|))
      ensures found <==> memory || old(ListOf(Other(key))).List?
      ensures ListOf(key) == old(ListOf(key))
      ensures ListOf(Other(key)) == if memory then old(ListOf(Other(key))) else NoList
    {
      if memory {
        syms := Gather(store, symhash);
        return syms, true;
      }
      var taken := ListOf(Other(key));
      if taken.NoList? {
        return [], false;
      }
      SetList(Other(key), NoList);
      return taken.syms, true;
    }

    method SortList(key: Key, syms: seq<int>) returns (list: List)
      requires EachOnce(syms, |store|)
      ensures list.List? && Kept(store, key, list)
    {
      OrderIsTotal(store, key);
      var sorted := SortPointers(syms, Order(store, key));
      EachOnceRearranged(syms, sorted, |store|);
      list := List(sorted);
    }

    /** getsymbyname: lookup refines the simple table, for every name but an empty one that is not
        recognised. */
    method GetSymByName(name: Name, behind: int -> bool) returns (r: int)
      requires Valid()
      ensures r == NULL ==> forall p :: 0 <= p < |store| ==> !Matches(store, name, behind, p)
      ensures r == NULL && name != [] ==> forall v :: !Binds(store, name, v)
      ensures r != NULL ==> 0 <= r < |store| && store[r].name == name
      ensures r != NULL && name != [] ==> Once(store, name)
      ensures r != NULL && Once(store, name) ==> forall v :: Binds(store, name, v) <==> v == store[r].value
    {
      if nsyms == 0 {
        return NULL;
      }
      var h := HashName(name);
      var b := h as int % NHASH;
      r := FindName(store, symhash, BUCKET_OF, b, name, behind);
      if name != [] {
        NamedOnce(store, name);
        if r == NULL {
          Unmatched(store, name, behind);
        }
      }
    }

    /** getsymbyvalue: with or without memory for the list, a symbol of greatest value not above
        the address. */
    method GetSymByValue(addr: int, memory: bool) returns (r: int)
      requires Valid()
      modifies `alpha, `numeric
      ensures Valid() && Closest(store, addr, r)
    {
      if nsyms == 0 {
        return NULL;
      }
      var list := GetSort(NUMERIC, memory);
      if list.NoList? {
        r := SearchChains(store, symhash, addr);
      } else {
        r := SearchList(store, list.syms, addr);
      }
    }
  }

  lemma {:induction false} NothingGathered(heads: seq<int>, n: nat)
    requires Heads([], heads) && n <= |heads|
    ensures Gathered([], heads, n) == []
  {
    if n > 0 {
      NothingGathered(heads, n - 1);
    }
  }

  lemma {:induction false} EmptyIsHashed(heads: seq<int>, hash: Name -> int)
    requires Heads([], heads)
    ensures Hashed([], heads, hash)
  {
    var store: seq<Sym> := [];
    NothingGathered(heads, |heads|);
    assert Complete(store, heads);
    forall b | 0 <= b < NHASH
      ensures AllOf(store, Chain(store, heads[b]), hash, b)
    {
      assert Points(store, heads[b]);
    }
  }
}
