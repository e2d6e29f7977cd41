/**
 * What canonicalisation guarantees: the stable key sort is a sorted
 * permutation, `buildLeftAssoc` inverts `flatten`, canonical forms are
 * fixpoints (so canonicalisation is idempotent), and two formulas that
 * differ only by commuting or regrouping And/Or operands, or by swapping
 * the sides of Iff, have the same canonical form.
 */
module CanonicalProps {
  import opened Wrappers
  import opened Text
  import opened Ast
  import opened Canonical

  // The stable key sort.

  lemma {:induction false} InsertByKeyPermutes(s: seq<Ast>, x: Ast)
    ensures multiset(InsertByKey(s, x)) == multiset(s) + multiset{x}
  {
    if |s| > 0 && !LexLe(KeyOf(s[|s| - 1]), KeyOf(x)) {
      InsertByKeyPermutes(s[..|s| - 1], x);
      SnocMultiset(s);
    }
  }

  /** `canon.sort` only reorders: the result is a permutation of its input. */
  lemma {:induction false} SortByKeyPermutes(s: seq<Ast>)
    ensures multiset(SortByKey(s)) == multiset(s)
  {
    if |s| > 0 {
      var p, last := s[..|s| - 1], s[|s| - 1];
      SortByKeyPermutes(p);
      InsertByKeyPermutes(SortByKey(p), last);
      SnocMultiset(s);
    }
  }

  /** The multiset of a non-empty list: its prefix's plus its last element. */
  lemma SnocMultiset(s: seq<Ast>)
    requires |s| > 0
    ensures multiset(s) == multiset(s[..|s| - 1]) + multiset{s[|s| - 1]}
  {
    assert s == s[..|s| - 1] + [s[|s| - 1]];
  }

  lemma {:induction false} InsertByKeySorted(s: seq<Ast>, x: Ast)
    requires SortedByKey(s)
    ensures SortedByKey(InsertByKey(s, x))
  {
    if |s| == 0 || LexLe(KeyOf(s[|s| - 1]), KeyOf(x)) {
      forall y | y in s ensures LexLe(KeyOf(y), KeyOf(x)) {
        var k :| 0 <= k < |s| && s[k] == y;
        if k < |s| - 1 {
          LexLeTransitive(KeyOf(y), KeyOf(s[|s| - 1]), KeyOf(x));
        }
      }
      AppendMax(s, x);
    } else {
      var p, last := s[..|s| - 1], s[|s| - 1];
      DropLast(s);
      InsertByKeySorted(p, x);
      InsertByKeyPermutes(p, x);
      var q := InsertByKey(p, x);
      LexLeTotal(KeyOf(last), KeyOf(x));
      forall y | y in q ensures LexLe(KeyOf(y), KeyOf(last)) {
        assert y in multiset(q);
        if y != x {
          assert y in multiset(p);
          var k :| 0 <= k < |p| && p[k] == y;
          assert s[k] == y;
        }
      }
      AppendMax(q, last);
    }
  }

  /** Appending an element whose key bounds every key keeps a list sorted. */
  lemma AppendMax(s: seq<Ast>, x: Ast)
    requires SortedByKey(s)
    requires forall y :: y in s ==> LexLe(KeyOf(y), KeyOf(x))
    ensures SortedByKey(s + [x])
  {
    var r := s + [x];
    forall i, j | 0 <= i < j < |r| ensures LexLe(KeyOf(r[i]), KeyOf(r[j])) {
      if j == |s| {
        assert r[i] in s;
      } else {
        assert r[i] == s[i] && r[j] == s[j];
      }
    }
  }

  /** Dropping the last element keeps a list sorted. */
  lemma DropLast(s: seq<Ast>)
    requires |s| > 0 && SortedByKey(s)
    ensures SortedByKey(s[..|s| - 1])
  {
    var p := s[..|s| - 1];
    forall i, j | 0 <= i < j < |p| ensures LexLe(KeyOf(p[i]), KeyOf(p[j])) {
      assert p[i] == s[i] && p[j] == s[j];
    }
  }

  /** The sort's output is ordered by key. */
  lemma {:induction false} SortByKeySorted(s: seq<Ast>)
    ensures SortedByKey(SortByKey(s))
  {
    if |s| > 0 {
      SortByKeySorted(s[..|s| - 1]);
      InsertByKeySorted(SortByKey(s[..|s| - 1]), s[|s| - 1]);
    }
  }

  /** Sorting an already sorted list changes nothing (the sort is stable). */
  lemma {:induction false} SortByKeyOfSorted(s: seq<Ast>)
    requires SortedByKey(s)
    ensures SortByKey(s) == s
  {
    if |s| > 0 {
      var p := s[..|s| - 1];
      DropLast(s);
      SortByKeyOfSorted(p);
      if |p| > 0 {
        assert LexLe(KeyOf(s[|s| - 2]), KeyOf(s[|s| - 1]));
      }
      assert s == p + [s[|s| - 1]];
    }
  }

  /**
   * Two key-sorted lists with the same elements are equal when the keys
   * tell the elements apart, which they do on well-named formulas.
   */
  lemma {:induction false} SortedUnique(a: seq<Ast>, b: seq<Ast>)
    requires SortedByKey(a) && SortedByKey(b)
    requires multiset(a) == multiset(b)
    requires forall e :: e in a ==> WellNamed(e)
    ensures a == b
  {
    if |a| > 0 {
      SortedHeads(a, b);
      DropHead(a);
      DropHead(b);
      SortedUnique(a[1..], b[1..]);
      assert a == [a[0]] + a[1..];
      assert b == [b[0]] + b[1..];
    } else {
      assert |b| == |multiset(b)| == 0;
    }
  }

  /** The smallest key comes first in both, and keys tell elements apart. */
  lemma SortedHeads(a: seq<Ast>, b: seq<Ast>)
    requires |a| > 0 && SortedByKey(a) && SortedByKey(b)
    requires multiset(a) == multiset(b)
    requires forall e :: e in a ==> WellNamed(e)
    ensures |b| > 0 && a[0] == b[0]
  {
    assert a[0] in multiset(b);
    var j :| 0 <= j < |b| && b[j] == a[0];
    assert b[0] in multiset(a);
    var i :| 0 <= i < |a| && a[i] == b[0];
    LexLeReflexive(KeyOf(a[0]));
    assert LexLe(KeyOf(b[0]), KeyOf(b[j]));
    assert LexLe(KeyOf(a[0]), KeyOf(a[i]));
    LexLeAntisymmetric(KeyOf(a[0]), KeyOf(b[0]));
    KeyInjective(a[0], b[0]);
  }

  /** Removing the first element keeps a list sorted and takes it out of the multiset. */
  lemma DropHead(a: seq<Ast>)
    requires |a| > 0
    ensures multiset(a[1..]) == multiset(a) - multiset{a[0]}
    ensures SortedByKey(a) ==> SortedByKey(a[1..])
  {
    assert a == [a[0]] + a[1..];
    if SortedByKey(a) {
      forall i, j | 0 <= i < j < |a[1..]| ensures LexLe(KeyOf(a[1..][i]), KeyOf(a[1..][j])) {
        assert a[1..][i] == a[i + 1] && a[1..][j] == a[j + 1];
      }
    }
  }

  // Flatten and the left fold.

  /**
   * `buildLeftAssoc` inverts `flatten`: folding operands that are not
   * themselves `k` nodes and flattening again gives back the same list.
   */
  lemma {:induction false} FlattenLeftFold(k: Chain, ns: seq<Ast>)
    requires |ns| > 0
    requires forall i :: 0 <= i < |ns| ==> !IsChain(ns[i], k)
    ensures Flatten(LeftFold(k, ns), k) == ns
  {
    if |ns| > 1 {
      FlattenLeftFold(k, ns[..|ns| - 1]);
      assert ns == ns[..|ns| - 1] + [ns[|ns| - 1]];
    }
  }

  lemma {:induction false} FlattenWellNamed(a: Ast, k: Chain)
    requires WellNamed(a)
    ensures forall i :: 0 <= i < |Flatten(a, k)| ==> WellNamed(Flatten(a, k)[i])
  {
    if IsChain(a, k) {
      FlattenWellNamed(a.left, k);
      FlattenWellNamed(a.right, k);
      var pl, pr := Flatten(a.left, k), Flatten(a.right, k);
      forall i | 0 <= i < |pl + pr| ensures WellNamed((pl + pr)[i]) {
        if i >= |pl| { assert (pl + pr)[i] == pr[i - |pl|]; }
      }
    }
  }

  lemma {:induction false} LeftFoldWellNamed(k: Chain, ns: seq<Ast>)
    requires |ns| > 0
    requires forall e :: e in ns ==> WellNamed(e)
    ensures WellNamed(LeftFold(k, ns))
  {
    if |ns| > 1 {
      LeftFoldWellNamed(k, ns[..|ns| - 1]);
      assert ns[|ns| - 1] in ns;
    }
  }

  /** Every formula in the sorted canonical operand list is the canonical form of one operand. */
  lemma SortedCanonSource(parts: seq<Ast>, bound: nat, e: Ast) returns (j: nat)
    requires forall i :: 0 <= i < |parts| ==> Size(parts[i]) < bound
    requires e in SortByKey(CanonAll(parts, bound))
    ensures j < |parts| && e == Canonicalize(parts[j])
  {
    SortByKeyPermutes(CanonAll(parts, bound));
    assert e in multiset(CanonAll(parts, bound));
    var i :| 0 <= i < |parts| && CanonAll(parts, bound)[i] == e;
    j := i;
  }

  /** Canonicalising keeps variable names, so it keeps formulas well named. */
  lemma {:induction false} CanonicalizeWellNamed(a: Ast)
    requires WellNamed(a)
    ensures WellNamed(Canonicalize(a))
    decreases Size(a)
  {
    match a
    case Var(_) =>
    case Not(x) => CanonicalizeWellNamed(x);
    case Imp(l, r) => CanonicalizeWellNamed(l); CanonicalizeWellNamed(r);
    case Iff(l, r) => CanonicalizeWellNamed(l); CanonicalizeWellNamed(r);
    case And(_, _) => ChainWellNamed(a, AndChain);
    case Or(_, _) => ChainWellNamed(a, OrChain);
  }

  lemma {:induction false} ChainWellNamed(a: Ast, k: Chain)
    requires IsChain(a, k) && WellNamed(a)
    ensures WellNamed(CanonicalChain(a, k))
    decreases Size(a), 0
  {
    var parts := Flatten(a, k);
    FlattenSmaller(a, k);
    FlattenWellNamed(a, k);
    var sorted := SortByKey(CanonAll(parts, Size(a)));
    forall e | e in sorted ensures WellNamed(e) {
      var j := SortedCanonSource(parts, Size(a), e);
      CanonicalizeWellNamed(parts[j]);
    }
    LeftFoldWellNamed(k, sorted);
  }

  // Canonical form.

  /**
   * What `engine.ts` builds: every And/Or chain is a left fold of its
   * key-sorted canonical operands, every Iff has its smaller key on the left.
   */
  predicate IsCanonical(a: Ast)
    decreases Size(a), 1
  {
    match a
    case Var(_) => true
    case Not(x) => IsCanonical(x)
    case Imp(l, r) => IsCanonical(l) && IsCanonical(r)
    case Iff(l, r) => IsCanonical(l) && IsCanonical(r) && LexLe(KeyOf(l), KeyOf(r))
    case And(_, _) => IsCanonicalChain(a, AndChain)
    case Or(_, _) => IsCanonicalChain(a, OrChain)
  }

  predicate IsCanonicalChain(a: Ast, k: Chain)
    requires IsChain(a, k)
    decreases Size(a), 0
  {
    var ps := Flatten(a, k);
    FlattenSmaller(a, k);
    && a == LeftFold(k, ps)
    && SortedByKey(ps)
    && forall i :: 0 <= i < |ps| ==> IsCanonical(ps[i])
  }

  /** `canonicalizeAst` produces a canonical form. */
  lemma {:induction false} CanonicalizeIsCanonical(a: Ast)
    ensures IsCanonical(Canonicalize(a))
    decreases Size(a), 1
  {
    match a
    case Var(_) =>
    case Not(x) => CanonicalizeIsCanonical(x);
    case Imp(l, r) => CanonicalizeIsCanonical(l); CanonicalizeIsCanonical(r);
    case Iff(l, r) =>
      CanonicalizeIsCanonical(l);
      CanonicalizeIsCanonical(r);
      LexLeTotal(KeyOf(Canonicalize(l)), KeyOf(Canonicalize(r)));
    case And(_, _) => ChainIsCanonical(a, AndChain);
    case Or(_, _) => ChainIsCanonical(a, OrChain);
  }

  lemma {:induction false} ChainIsCanonical(a: Ast, k: Chain)
    requires IsChain(a, k)
    ensures IsCanonicalChain(CanonicalChain(a, k), k)
    decreases Size(a), 0
  {
    var parts := Flatten(a, k);
    FlattenSmaller(a, k);
    var sorted := SortByKey(CanonAll(parts, Size(a)));
    var c := LeftFold(k, sorted);
    assert c == CanonicalChain(a, k);
    forall i | 0 <= i < |sorted| ensures !IsChain(sorted[i], k) && IsCanonical(sorted[i]) {
      var j := SortedCanonSource(parts, Size(a), sorted[i]);
      CanonicalizeIsCanonical(parts[j]);
    }
    FlattenLeftFold(k, sorted);
    SortByKeySorted(CanonAll(parts, Size(a)));
  }

  /** A canonical formula is its own canonical form. */
  lemma {:induction false} CanonicalFixpoint(a: Ast)
    requires IsCanonical(a)
    ensures Canonicalize(a) == a
    decreases Size(a), 1
  {
    match a
    case Var(_) =>
    case Not(x) => CanonicalFixpoint(x);
    case Imp(l, r) => CanonicalFixpoint(l); CanonicalFixpoint(r);
    case Iff(l, r) => CanonicalFixpoint(l); CanonicalFixpoint(r);
    case And(_, _) => ChainFixpoint(a, AndChain);
    case Or(_, _) => ChainFixpoint(a, OrChain);
  }

  lemma {:induction false} ChainFixpoint(a: Ast, k: Chain)
    requires IsChain(a, k) && IsCanonicalChain(a, k)
    ensures CanonicalChain(a, k) == a
    decreases Size(a), 0
  {
    var ps := Flatten(a, k);
    FlattenSmaller(a, k);
    forall i | 0 <= i < |ps| ensures Canonicalize(ps[i]) == ps[i] {
      CanonicalFixpoint(ps[i]);
    }
    assert CanonAll(ps, Size(a)) == ps;
    SortByKeyOfSorted(ps);
  }

  /** Canonicalising twice is the same as canonicalising once. */
  lemma CanonicalizeIdempotent(a: Ast)
    ensures Canonicalize(Canonicalize(a)) == Canonicalize(a)
  {
    CanonicalizeIsCanonical(a);
    CanonicalFixpoint(Canonicalize(a));
  }

  // Equivalences `equalsCanonical` recognises.

  lemma {:induction false} CanonAllPermutes(p: seq<Ast>, bp: nat, q: seq<Ast>, bq: nat)
    requires forall i :: 0 <= i < |p| ==> Size(p[i]) < bp
    requires forall i :: 0 <= i < |q| ==> Size(q[i]) < bq
    requires multiset(p) == multiset(q)
    ensures multiset(CanonAll(p, bp)) == multiset(CanonAll(q, bq))
  {
    if |p| == 0 {
      assert |q| == |multiset(q)| == 0;
    } else {
      var n := |p| - 1;
      var x := p[n];
      SnocMultiset(p);
      assert x in multiset(q);
      var j :| 0 <= j < |q| && q[j] == x;
      var q' := q[..j] + q[j + 1..];
      RemoveAt(q, j);
      MultisetCancel(multiset(p[..n]), multiset(q'), x);
      CanonAllPermutes(p[..n], bp, q', bq);
      CanonAllRemoveAt(q, j, bq);
      CanonAllSnoc(p, bp);
    }
  }

  lemma CanonAllSnoc(p: seq<Ast>, bound: nat)
    requires |p| > 0
    requires forall i :: 0 <= i < |p| ==> Size(p[i]) < bound
    ensures multiset(CanonAll(p, bound)) == multiset(CanonAll(p[..|p| - 1], bound)) + multiset{Canonicalize(p[|p| - 1])}
  {
    var c := CanonAll(p, bound);
    assert CanonAll(p[..|p| - 1], bound) == c[..|c| - 1];
    SnocMultiset(c);
  }

  lemma MultisetCancel(a: multiset<Ast>, b: multiset<Ast>, x: Ast)
    requires a + multiset{x} == b + multiset{x}
    ensures a == b
  {
    assert a == (a + multiset{x}) - multiset{x};
    assert b == (b + multiset{x}) - multiset{x};
  }

  lemma RemoveAt(q: seq<Ast>, j: nat)
    requires j < |q|
    ensures multiset(q) == multiset(q[..j] + q[j + 1..]) + multiset{q[j]}
  {
    assert q == q[..j] + [q[j]] + q[j + 1..];
  }

  lemma CanonAllRemoveAt(q: seq<Ast>, j: nat, bound: nat)
    requires j < |q|
    requires forall i :: 0 <= i < |q| ==> Size(q[i]) < bound
    ensures multiset(CanonAll(q, bound)) == multiset(CanonAll(q[..j] + q[j + 1..], bound)) + multiset{Canonicalize(q[j])}
  {
    var c := CanonAll(q, bound);
    var q' := q[..j] + q[j + 1..];
    var c' := CanonAll(q', bound);
    assert |c'| == |c[..j] + c[j + 1..]|;
    forall i | 0 <= i < |c'| ensures c'[i] == (c[..j] + c[j + 1..])[i] {
      if i < j {
        assert q'[i] == q[i];
      } else {
        assert q'[i] == q[i + 1];
      }
    }
    assert c' == c[..j] + c[j + 1..];
    RemoveAt(c, j);
  }

  /**
   * Two chains of the same kind whose operands are the same multiset of
   * well-named formulas, in whatever order and grouping, canonicalise alike.
   */
  lemma ChainPermutation(x: Ast, y: Ast, k: Chain)
    requires IsChain(x, k) && IsChain(y, k) && WellNamed(x) && WellNamed(y)
    requires multiset(Flatten(x, k)) == multiset(Flatten(y, k))
    ensures Canonicalize(x) == Canonicalize(y)
  {
    var px, py := Flatten(x, k), Flatten(y, k);
    FlattenSmaller(x, k);
    FlattenSmaller(y, k);
    FlattenWellNamed(x, k);
    var cx, cy := CanonAll(px, Size(x)), CanonAll(py, Size(y));
    CanonAllPermutes(px, Size(x), py, Size(y));
    SortByKeyPermutes(cx);
    SortByKeyPermutes(cy);
    SortByKeySorted(cx);
    SortByKeySorted(cy);
    forall e | e in SortByKey(cx) ensures WellNamed(e) {
      var j := SortedCanonSource(px, Size(x), e);
      CanonicalizeWellNamed(px[j]);
    }
    SortedUnique(SortByKey(cx), SortByKey(cy));
    assert CanonicalChain(x, k) == CanonicalChain(y, k);
  }

  /** And and Or are commutative under `equalsCanonical`. */
  lemma AndCommutes(a: Ast, b: Ast)
    requires WellNamed(a) && WellNamed(b)
    ensures EqualsCanonical(Some(And(a, b)), Some(And(b, a)))
  {
    var k := AndChain;
    assert multiset(Flatten(And(a, b), k)) == multiset(Flatten(And(b, a), k)) by {
      assert Flatten(And(a, b), k) == Flatten(a, k) + Flatten(b, k);
      assert Flatten(And(b, a), k) == Flatten(b, k) + Flatten(a, k);
    }
    ChainPermutation(And(a, b), And(b, a), k);
  }

  lemma OrCommutes(a: Ast, b: Ast)
    requires WellNamed(a) && WellNamed(b)
    ensures EqualsCanonical(Some(Or(a, b)), Some(Or(b, a)))
  {
    var k := OrChain;
    assert multiset(Flatten(Or(a, b), k)) == multiset(Flatten(Or(b, a), k)) by {
      assert Flatten(Or(a, b), k) == Flatten(a, k) + Flatten(b, k);
      assert Flatten(Or(b, a), k) == Flatten(b, k) + Flatten(a, k);
    }
    ChainPermutation(Or(a, b), Or(b, a), k);
  }

  /** The sides of Iff commute under `equalsCanonical`. */
  lemma IffCommutes(a: Ast, b: Ast)
    requires WellNamed(a) && WellNamed(b)
    ensures EqualsCanonical(Some(Iff(a, b)), Some(Iff(b, a)))
  {
    var ca, cb := Canonicalize(a), Canonicalize(b);
    LexLeTotal(KeyOf(ca), KeyOf(cb));
    if LexLe(KeyOf(ca), KeyOf(cb)) && LexLe(KeyOf(cb), KeyOf(ca)) {
      LexLeAntisymmetric(KeyOf(ca), KeyOf(cb));
      CanonicalizeWellNamed(a);
      CanonicalizeWellNamed(b);
      KeyInjective(ca, cb);
    }
  }

  /** Regrouping a chain does not change its canonical form; names do not matter here. */
  lemma AndRegroups(a: Ast, b: Ast, c: Ast)
    ensures EqualsCanonical(Some(And(And(a, b), c)), Some(And(a, And(b, c))))
  {
    var k := AndChain;
    var x, y := And(And(a, b), c), And(a, And(b, c));
    assert Flatten(x, k) == Flatten(a, k) + Flatten(b, k) + Flatten(c, k) == Flatten(y, k);
    assert Size(x) == Size(y);
    assert Canonicalize(x) == CanonicalChain(x, k) == CanonicalChain(y, k) == Canonicalize(y);
  }

  lemma OrRegroups(a: Ast, b: Ast, c: Ast)
    ensures EqualsCanonical(Some(Or(Or(a, b), c)), Some(Or(a, Or(b, c))))
  {
    var k := OrChain;
    var x, y := Or(Or(a, b), c), Or(a, Or(b, c));
    assert Flatten(x, k) == Flatten(a, k) + Flatten(b, k) + Flatten(c, k) == Flatten(y, k);
    assert Size(x) == Size(y);
    assert Canonicalize(x) == CanonicalChain(x, k) == CanonicalChain(y, k) == Canonicalize(y);
  }

  /**
   * Not and Imp keep their shape: only the children are canonicalised, so
   * `a->b` and `b->a` are equal exactly when `a` and `b` are.
   */
  lemma NotImpKeepOrder(a: Ast, b: Ast)
    ensures Canonicalize(Not(a)) == Not(Canonicalize(a))
    ensures Canonicalize(Imp(a, b)) == Imp(Canonicalize(a), Canonicalize(b))
    ensures EqualsCanonical(Some(Imp(a, b)), Some(Imp(b, a))) <==> Canonicalize(a) == Canonicalize(b)
  {
  }

  /** `equalsCanonical` is false on a missing side, reflexive and symmetric otherwise. */
  lemma EqualsCanonicalLaws(a: Option<Ast>, b: Option<Ast>)
    ensures a.None? || b.None? ==> !EqualsCanonical(a, b)
    ensures a.Some? ==> EqualsCanonical(a, a)
    ensures EqualsCanonical(a, b) == EqualsCanonical(b, a)
  {
  }

  /** Two formulas and their canonical forms compare alike. */
  lemma EqualsCanonicalOfCanonical(a: Ast, b: Ast)
    ensures EqualsCanonical(Some(Canonicalize(a)), Some(b)) == EqualsCanonical(Some(a), Some(b))
  {
    CanonicalizeIdempotent(a);
  }
}
