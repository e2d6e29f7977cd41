/**
 * Canonicalisation of formulas: And/Or chains are flattened, their
 * canonicalised operands sorted by key and rebuilt left-associatively;
 * the two sides of Iff are ordered by key; Not and Imp keep their order.
 * Spec functions come first, then the methods that run `engine.ts`'s
 * accumulator, fold loop and in-place sort against them.
 */
module Canonical {
  import opened Wrappers
  import opened Text
  import opened Ast

  /** The two kinds `flatten` and `buildLeftAssoc` accept: "and" | "or". */
  datatype Chain = AndChain | OrChain

  predicate IsChain(a: Ast, k: Chain) {
    match k
    case AndChain => a.And?
    case OrChain => a.Or?
  }

  /** `makeAnd` or `makeOr`. */
  function Join(k: Chain, l: Ast, r: Ast): (j: Ast)
    ensures IsChain(j, k) && j.left == l && j.right == r
  {
    match k
    case AndChain => And(l, r)
    case OrChain => Or(l, r)
  }

  /**
   * The operands of the maximal `k`-chain at the root, left to right: every
   * one of a different kind, and at least two when the root is a `k` node.
   */
  function Flatten(a: Ast, k: Chain): (ps: seq<Ast>)
    ensures |ps| >= 1
    ensures IsChain(a, k) ==> |ps| >= 2
    ensures !IsChain(a, k) ==> ps == [a]
    ensures forall i :: 0 <= i < |ps| ==> !IsChain(ps[i], k)
  {
    if IsChain(a, k) then Flatten(a.left, k) + Flatten(a.right, k) else [a]
  }

  /** Operands of a chain are proper subformulas, so smaller. */
  lemma {:induction false} FlattenSmaller(a: Ast, k: Chain)
    ensures forall i :: 0 <= i < |Flatten(a, k)| ==> Size(Flatten(a, k)[i]) <= Size(a)
    ensures IsChain(a, k) ==> forall i :: 0 <= i < |Flatten(a, k)| ==> Size(Flatten(a, k)[i]) < Size(a)
  {
    if IsChain(a, k) {
      FlattenSmaller(a.left, k);
      FlattenSmaller(a.right, k);
      var pl, pr := Flatten(a.left, k), Flatten(a.right, k);
      forall i | 0 <= i < |pl + pr| ensures Size((pl + pr)[i]) < Size(a) {
        if i >= |pl| { assert (pl + pr)[i] == pr[i - |pl|]; }
      }
    }
  }

  /** The left fold `buildLeftAssoc` computes on a non-empty list. */
  function LeftFold(k: Chain, nodes: seq<Ast>): (r: Ast)
    requires |nodes| > 0
    ensures |nodes| >= 2 ==> IsChain(r, k)
  {
    if |nodes| == 1 then nodes[0]
    else Join(k, LeftFold(k, nodes[..|nodes| - 1]), nodes[|nodes| - 1])
  }

  // Stable insertion sort by key: the element order `canon.sort` produces.

  /** The order `canon.sort`'s comparator puts operands in: by key, as JavaScript compares strings. */
  predicate KeyLe(y: Ast, x: Ast) {
    LexLe(KeyOf(y), KeyOf(x))
  }

  /**
   * Inserts `x` after every trailing element that `le` does not put before
   * it, scanning from the right as the in-place sort does; elements `le`
   * puts before `x` keep their place.
   */
  function InsertBy(le: (Ast, Ast) -> bool, s: seq<Ast>, x: Ast): (r: seq<Ast>)
    ensures |r| == |s| + 1
  {
    if |s| == 0 || le(s[|s| - 1], x) then s + [x]
    else
      assert s == s[..|s| - 1] + [s[|s| - 1]];
      InsertBy(le, s[..|s| - 1], x) + [s[|s| - 1]]
  }

  /** Insertion by key: equal keys keep their order. */
  function InsertByKey(s: seq<Ast>, x: Ast): (r: seq<Ast>)
    ensures |r| == |s| + 1
  {
    InsertBy(KeyLe, s, x)
  }

  /** The result of stably sorting `s` by `keyOf`. */
  function SortByKey(s: seq<Ast>): (r: seq<Ast>)
    ensures |r| == |s|
  {
    if |s| == 0 then []
    else
      assert s == s[..|s| - 1] + [s[|s| - 1]];
      InsertByKey(SortByKey(s[..|s| - 1]), s[|s| - 1])
  }

  /** Keys are non-decreasing along `s`. */
  predicate SortedByKey(s: seq<Ast>) {
    forall i, j :: 0 <= i < j < |s| ==> LexLe(KeyOf(s[i]), KeyOf(s[j]))
  }

  /**
   * `canonicalizeAst`: children first; chains flattened, sorted and rebuilt;
   * Iff ordered by `keyOf(l) <= keyOf(r)`. The kind of the root never changes.
   */
  function Canonicalize(a: Ast): (c: Ast)
    ensures c.Var? == a.Var? && c.Not? == a.Not? && c.And? == a.And?
    ensures c.Or? == a.Or? && c.Imp? == a.Imp? && c.Iff? == a.Iff?
    decreases Size(a), 2
  {
    match a
    case Var(_) => a
    case Not(x) => Not(Canonicalize(x))
    case Imp(l, r) => Imp(Canonicalize(l), Canonicalize(r))
    case Iff(l, r) =>
      var cl, cr := Canonicalize(l), Canonicalize(r);
      if LexLe(KeyOf(cl), KeyOf(cr)) then Iff(cl, cr) else Iff(cr, cl)
    case And(_, _) => CanonicalChain(a, AndChain)
    case Or(_, _) => CanonicalChain(a, OrChain)
  }

  /** The And/Or case of Canonicalize. */
  function CanonicalChain(a: Ast, k: Chain): (c: Ast)
    requires IsChain(a, k)
    ensures IsChain(c, k)
    decreases Size(a), 1
  {
    var parts := Flatten(a, k);
    FlattenSmaller(a, k);
    LeftFold(k, SortByKey(CanonAll(parts, Size(a))))
  }

  /** `parts.map(canonicalizeAst)`; `bound` only serves termination. */
  function CanonAll(parts: seq<Ast>, ghost bound: nat): (cs: seq<Ast>)
    requires forall i :: 0 <= i < |parts| ==> Size(parts[i]) < bound
    ensures |cs| == |parts|
    ensures forall i :: 0 <= i < |parts| ==> cs[i] == Canonicalize(parts[i])
    decreases bound, 0
  {
    seq(|parts|, i requires 0 <= i < |parts| => Canonicalize(parts[i]))
  }

  /**
   * `equalsCanonical`: false when either formula is missing, otherwise
   * structural equality of the two canonical forms.
   */
  function EqualsCanonical(a: Option<Ast>, b: Option<Ast>): (r: bool)
    ensures r <==> a.Some? && b.Some? && Canonicalize(a.value) == Canonicalize(b.value)
  {
    a.Some? && b.Some? && EqualsAst(Canonicalize(a.value), Canonicalize(b.value))
  }

  // The imperative steps of `engine.ts`.

  /** `flatten(ast, kind, acc)`: pushes the chain's operands onto the accumulator. */
  method FlattenInto(a: Ast, k: Chain, acc: seq<Ast>) returns (out: seq<Ast>)
    ensures out == acc + Flatten(a, k)
  {
    if IsChain(a, k) {
      out := FlattenInto(a.left, k, acc);
      out := FlattenInto(a.right, k, out);
    } else {
      out := acc + [a];
    }
  }

  /** `buildLeftAssoc`: throws on an empty list, otherwise folds left with `cur`. */
  method BuildLeftAssoc(k: Chain, nodes: seq<Ast>) returns (r: Result<Ast>)
    ensures r.Err? <==> |nodes| == 0
    ensures r.Ok? ==> r.value == LeftFold(k, nodes)
  {
    if |nodes| == 0 {
      return Err("empty nodes to build");
    }
    if |nodes| == 1 {
      return Ok(nodes[0]);
    }
    var cur := nodes[0];
    for i := 1 to |nodes|
      invariant cur == LeftFold(k, nodes[..i])
    {
      assert nodes[..i + 1][..i] == nodes[..i];
      cur := Join(k, cur, nodes[i]);
    }
    assert nodes[..|nodes|] == nodes;
    return Ok(cur);
  }

  /** `canon.sort(...)` with the key comparator, as a stable in-place insertion sort. */
  method SortInPlace(a: array<Ast>)
    modifies a
    ensures a[..] == SortByKey(old(a[..]))
  {
    ghost var input := a[..];
    var i := 0;
    while i < a.Length
      invariant 0 <= i <= a.Length
      invariant a[..i] == SortByKey(input[..i])
      invariant a[i..] == input[i..]
    {
      InsertLast(a, i, KeyLe);
      assert input[..i + 1][..i] == input[..i];
      i := i + 1;
    }
    assert input[..a.Length] == input;
  }

  /** One insertion step: `a[i]` moves left past every element of the sorted prefix `a[..i]` that `le` does not put before it. */
  method InsertLast(a: array<Ast>, i: nat, le: (Ast, Ast) -> bool)
    requires i < a.Length
    modifies a
    ensures a[..i + 1] == InsertBy(le, old(a[..i]), old(a[i]))
    ensures a[i + 1..] == old(a[i + 1..])
  {
    var x := a[i];
    ghost var sorted := a[..i];
    var j := i;
    while j > 0 && !le(a[j - 1], x)
      invariant 0 <= j <= i
      invariant a[..j] == sorted[..j]
      invariant a[j + 1..i + 1] == sorted[j..i]
      invariant a[i + 1..] == old(a[i + 1..])
      invariant InsertBy(le, sorted, x) == InsertBy(le, sorted[..j], x) + sorted[j..i]
    {
      assert a[j - 1] == sorted[..j][j - 1];
      InsertStep(le, sorted, j, i, x);
      a[j] := a[j - 1];
      j := j - 1;
    }
    if j > 0 {
      assert a[j - 1] == sorted[..j][j - 1];
    }
    InsertHere(le, sorted[..j], x);
    a[j] := x;
    assert a[..i + 1] == sorted[..j] + [x] + sorted[j..i];
  }

  /** The insertion point is reached once `le` puts the element to the left first. */
  lemma InsertHere(le: (Ast, Ast) -> bool, s: seq<Ast>, x: Ast)
    requires |s| == 0 || le(s[|s| - 1], x)
    ensures InsertBy(le, s, x) == s + [x]
  {
  }

  /** Moving the insertion point one place left, past an element `le` does not put first. */
  lemma InsertStep(le: (Ast, Ast) -> bool, sorted: seq<Ast>, j: nat, i: nat, x: Ast)
    requires 0 < j <= i == |sorted|
    requires !le(sorted[j - 1], x)
    ensures InsertBy(le, sorted[..j], x) + sorted[j..i] == InsertBy(le, sorted[..j - 1], x) + sorted[j - 1..i]
  {
    assert sorted[..j][..j - 1] == sorted[..j - 1];
    assert sorted[j - 1..i] == [sorted[j - 1]] + sorted[j..i];
  }

  /** `canonicalizeAst` as `engine.ts` runs it: accumulator, mapped array, in-place sort, fold. */
  method CanonicalizeAst(a: Ast) returns (c: Ast)
    ensures c == Canonicalize(a)
    decreases Size(a), 2
  {
    match a
    case Var(_) =>
      c := a;
    case Not(x) =>
      var cx := CanonicalizeAst(x);
      c := Not(cx);
    case Imp(l, r) =>
      var cl := CanonicalizeAst(l);
      var cr := CanonicalizeAst(r);
      c := Imp(cl, cr);
    case Iff(l, r) =>
      var cl := CanonicalizeAst(l);
      var cr := CanonicalizeAst(r);
      c := if LexLe(KeyOf(cl), KeyOf(cr)) then Iff(cl, cr) else Iff(cr, cl);
    case And(_, _) =>
      c := CanonicalizeChain(a, AndChain);
    case Or(_, _) =>
      c := CanonicalizeChain(a, OrChain);
  }

  /** The And/Or case of `canonicalizeAst`. */
  method CanonicalizeChain(a: Ast, k: Chain) returns (c: Ast)
    requires IsChain(a, k)
    ensures c == CanonicalChain(a, k)
    decreases Size(a), 1
  {
    var parts := FlattenInto(a, k, []);
    assert parts == Flatten(a, k);
    FlattenSmaller(a, k);
    var canon := CanonicalizeParts(parts, Size(a));
    SortInPlace(canon);
    var built := BuildLeftAssoc(k, canon[..]);
    c := built.value;
  }

  /** `parts.map(canonicalizeAst)` into a fresh array. */
  method CanonicalizeParts(parts: seq<Ast>, ghost bound: nat) returns (canon: array<Ast>)
    requires forall i :: 0 <= i < |parts| ==> Size(parts[i]) < bound
    ensures fresh(canon)
    ensures canon[..] == CanonAll(parts, bound)
    decreases bound, 0
  {
    canon := new Ast[|parts|];
    for i := 0 to |parts|
      invariant forall j :: 0 <= j < i ==> canon[j] == Canonicalize(parts[j])
    {
      canon[i] := CanonicalizeAst(parts[i]);
    }
  }
}
