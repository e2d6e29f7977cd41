/**
 * The formula syntax tree of the proof checker: six constructors, structural
 * equality, and the string key that canonicalisation sorts by. The `make*`
 * helpers of `ast.ts` are the datatype's constructors.
 */
module Ast {
  import opened Text

  datatype Ast =
    | Var(name: string)
    | Not(arg: Ast)
    | And(left: Ast, right: Ast)
    | Or(left: Ast, right: Ast)
    | Imp(left: Ast, right: Ast)
    | Iff(left: Ast, right: Ast)

  /** Number of nodes; the measure canonicalisation recurses on. */
  function Size(a: Ast): (n: nat)
    ensures n >= 1
  {
    match a
    case Var(_) => 1
    case Not(x) => 1 + Size(x)
    case And(l, r) => 1 + Size(l) + Size(r)
    case Or(l, r) => 1 + Size(l) + Size(r)
    case Imp(l, r) => 1 + Size(l) + Size(r)
    case Iff(l, r) => 1 + Size(l) + Size(r)
  }

  /**
   * Structural equality: same kind and pairwise equal fields. It coincides
   * with equality of the datatype values.
   */
  function EqualsAst(a: Ast, b: Ast): (r: bool)
    ensures r <==> a == b
  {
    match a
    case Var(n) => b.Var? && b.name == n
    case Not(x) => b.Not? && EqualsAst(x, b.arg)
    case And(l, r) => b.And? && EqualsAst(l, b.left) && EqualsAst(r, b.right)
    case Or(l, r) => b.Or? && EqualsAst(l, b.left) && EqualsAst(r, b.right)
    case Imp(l, r) => b.Imp? && EqualsAst(l, b.left) && EqualsAst(r, b.right)
    case Iff(l, r) => b.Iff? && EqualsAst(l, b.left) && EqualsAst(r, b.right)
  }

  /** The serialisation canonicalisation orders operands by. */
  function KeyOf(a: Ast): string {
    match a
    case Var(n) => "v:" + n
    case Not(x) => "n:(" + KeyOf(x) + ")"
    case And(l, r) => "a:(" + KeyOf(l) + "),(" + KeyOf(r) + ")"
    case Or(l, r) => "o:(" + KeyOf(l) + "),(" + KeyOf(r) + ")"
    case Imp(l, r) => "i:(" + KeyOf(l) + ")->(" + KeyOf(r) + ")"
    case Iff(l, r) => "b:(" + KeyOf(l) + ")<->(" + KeyOf(r) + ")"
  }

  /** No variable name contains `)`. Identifiers and `?`, all the parser produces, qualify. */
  predicate WellNamed(a: Ast) {
    match a
    case Var(n) => ')' !in n
    case Not(x) => WellNamed(x)
    case And(l, r) => WellNamed(l) && WellNamed(r)
    case Or(l, r) => WellNamed(l) && WellNamed(r)
    case Imp(l, r) => WellNamed(l) && WellNamed(r)
    case Iff(l, r) => WellNamed(l) && WellNamed(r)
  }

  /** Two names free of `)` followed by `)` can be told apart at the first `)`. */
  lemma NamesBeforeClose(n1: string, n2: string, s: string, t: string)
    requires ')' !in n1 && ')' !in n2
    requires n1 + ")" + s == n2 + ")" + t
    ensures n1 == n2 && s == t
  {
    var u := n1 + ")" + s;
    assert u[|n1|] == ')';
    assert (n2 + ")" + t)[|n2|] == ')';
    assert |n1| == |n2|;
    assert n1 == u[..|n1|] == n2;
    assert s == u[|n1| + 1..] == t;
  }

  /** Cancels a common prefix `p`. */
  lemma CancelPrefix(p: string, x: string, y: string)
    requires p + x == p + y
    ensures x == y
  {
    assert x == (p + x)[|p|..];
    assert y == (p + y)[|p|..];
  }

  /**
   * A key followed by `)` determines the tree and what follows: the key
   * of a composite node is its tag, then the operands' keys each closed
   * by `)`, so the keys of well-named trees form a prefix code.
   */
  lemma {:induction false} KeyPrefixCode(a: Ast, b: Ast, s: string, t: string)
    requires WellNamed(a) && WellNamed(b)
    requires KeyOf(a) + ")" + s == KeyOf(b) + ")" + t
    ensures a == b && s == t
    decreases Size(a), 2
  {
    TagsAgree(a, b, s, t);
    match a
    case Var(_) => VarPrefixCode(a, b, s, t);
    case Not(_) => NotPrefixCode(a, b, s, t);
    case And(_, _) => BinaryNodePrefixCode(a, b, s, t);
    case Or(_, _) => BinaryNodePrefixCode(a, b, s, t);
    case Imp(_, _) => BinaryNodePrefixCode(a, b, s, t);
    case Iff(_, _) => BinaryNodePrefixCode(a, b, s, t);
  }

  /** The first character of a key, which tells the node's kind. */
  function Tag(a: Ast): char {
    match a
    case Var(_) => 'v'
    case Not(_) => 'n'
    case And(_, _) => 'a'
    case Or(_, _) => 'o'
    case Imp(_, _) => 'i'
    case Iff(_, _) => 'b'
  }

  lemma KeyStartsWithTag(a: Ast)
    ensures |KeyOf(a)| > 0 && KeyOf(a)[0] == Tag(a)
  {
  }

  /** Equal keys, each followed by `)` and more, start with the same tag. */
  lemma TagsAgree(a: Ast, b: Ast, s: string, t: string)
    requires KeyOf(a) + ")" + s == KeyOf(b) + ")" + t
    ensures Tag(a) == Tag(b)
  {
    KeyStartsWithTag(a);
    KeyStartsWithTag(b);
    assert (KeyOf(a) + ")" + s)[0] == KeyOf(a)[0];
    assert (KeyOf(b) + ")" + t)[0] == KeyOf(b)[0];
  }

  /** The text around the operand keys of a binary node: `open`, then `)` + `rest` between them. */
  function BinaryTags(a: Ast): (string, string)
    requires a.And? || a.Or? || a.Imp? || a.Iff?
  {
    match a
    case And(_, _) => ("a:(", ",(")
    case Or(_, _) => ("o:(", ",(")
    case Imp(_, _) => ("i:(", "->(")
    case Iff(_, _) => ("b:(", "<->(")
  }

  lemma KeyOfBinary(a: Ast)
    requires a.And? || a.Or? || a.Imp? || a.Iff?
    ensures KeyOf(a) == BinaryTags(a).0 + KeyOf(a.left) + (")" + BinaryTags(a).1) + KeyOf(a.right) + ")"
  {
    match a
    case And(_, _) => assert "),(" == ")" + ",(";
    case Or(_, _) => assert "),(" == ")" + ",(";
    case Imp(_, _) => assert ")->(" == ")" + "->(";
    case Iff(_, _) => assert ")<->(" == ")" + "<->(";
  }

  lemma VarPrefixCode(a: Ast, b: Ast, s: string, t: string)
    requires a.Var? && Tag(a) == Tag(b) && WellNamed(a) && WellNamed(b)
    requires KeyOf(a) + ")" + s == KeyOf(b) + ")" + t
    ensures a == b && s == t
  {
    var n1, n2 := a.name, b.name;
    assert KeyOf(a) + ")" + s == "v:" + (n1 + ")" + s);
    assert KeyOf(b) + ")" + t == "v:" + (n2 + ")" + t);
    CancelPrefix("v:", n1 + ")" + s, n2 + ")" + t);
    NamesBeforeClose(n1, n2, s, t);
  }

  lemma {:induction false} NotPrefixCode(a: Ast, b: Ast, s: string, t: string)
    requires a.Not? && Tag(a) == Tag(b) && WellNamed(a) && WellNamed(b)
    requires KeyOf(a) + ")" + s == KeyOf(b) + ")" + t
    ensures a == b && s == t
    decreases Size(a), 1
  {
    var x, y := a.arg, b.arg;
    assert KeyOf(a) + ")" + s == "n:(" + (KeyOf(x) + ")" + (")" + s));
    assert KeyOf(b) + ")" + t == "n:(" + (KeyOf(y) + ")" + (")" + t));
    CancelPrefix("n:(", KeyOf(x) + ")" + (")" + s), KeyOf(y) + ")" + (")" + t));
    KeyPrefixCode(x, y, ")" + s, ")" + t);
    CancelPrefix(")", s, t);
  }

  /** The binary cases of KeyPrefixCode, for two nodes of the same kind keyed by `open` and `rest`. */
  lemma {:induction false} BinaryNodePrefixCode(a: Ast, b: Ast, s: string, t: string)
    requires (a.And? || a.Or? || a.Imp? || a.Iff?) && Tag(a) == Tag(b)
    requires WellNamed(a) && WellNamed(b)
    requires KeyOf(a) + ")" + s == KeyOf(b) + ")" + t
    ensures a == b && s == t
    decreases Size(a), 1
  {
    var (open, rest) := BinaryTags(a);
    assert BinaryTags(b) == (open, rest);
    KeyOfBinary(a);
    KeyOfBinary(b);
    BinaryKeyShape(open, rest, KeyOf(a.left), KeyOf(a.right), s);
    BinaryKeyShape(open, rest, KeyOf(b.left), KeyOf(b.right), t);
    BinaryPrefixCode(a.left, a.right, b.left, b.right, open, rest, s, t);
  }

  /**
   * The two operands of BinaryNodePrefixCode: a node keyed
   * `open + key(l) + ")" + rest + key(r) + ")"`, followed by `)` and more.
   */
  lemma {:induction false} BinaryPrefixCode(l1: Ast, r1: Ast, l2: Ast, r2: Ast, open: string, rest: string, s: string, t: string)
    requires WellNamed(l1) && WellNamed(r1) && WellNamed(l2) && WellNamed(r2)
    requires open + (KeyOf(l1) + ")" + (rest + (KeyOf(r1) + ")" + (")" + s))))
          == open + (KeyOf(l2) + ")" + (rest + (KeyOf(r2) + ")" + (")" + t))))
    ensures l1 == l2 && r1 == r2 && s == t
    decreases Size(l1) + Size(r1) + 1, 0
  {
    var s' := rest + (KeyOf(r1) + ")" + (")" + s));
    var t' := rest + (KeyOf(r2) + ")" + (")" + t));
    CancelPrefix(open, KeyOf(l1) + ")" + s', KeyOf(l2) + ")" + t');
    KeyPrefixCode(l1, l2, s', t');
    CancelPrefix(rest, KeyOf(r1) + ")" + (")" + s), KeyOf(r2) + ")" + (")" + t));
    KeyPrefixCode(r1, r2, ")" + s, ")" + t);
    CancelPrefix(")", s, t);
  }

  /** How a binary node's key followed by `)` splits into the pieces BinaryPrefixCode cancels. */
  lemma BinaryKeyShape(open: string, rest: string, kl: string, kr: string, s: string)
    ensures open + kl + (")" + rest) + kr + ")" + ")" + s == open + (kl + ")" + (rest + (kr + ")" + (")" + s))))
  {
  }

  /** `keyOf` is injective on well-named trees, so sorting never conflates distinct subformulas. */
  lemma KeyInjective(a: Ast, b: Ast)
    requires WellNamed(a) && WellNamed(b)
    requires KeyOf(a) == KeyOf(b)
    ensures a == b
  {
    KeyPrefixCode(a, b, "", "");
  }

  /** Without the well-named condition two different trees can share a key. */
  lemma KeyCollision()
    ensures KeyOf(And(Var("x),(v:y"), Var("z"))) == KeyOf(And(Var("x"), Var("y),(v:z")))
    ensures And(Var("x),(v:y"), Var("z")) != And(Var("x"), Var("y),(v:z"))
  {
  }
}
