/**
 * What the per-rule checks accept. For each propositional rule: once the
 * conclusion and the references parse, the line is accepted exactly when
 * the rule's pattern holds up to canonical equivalence; the textbook
 * instances of the rule are accepted, in either order of the references
 * where `engine.ts` tries both; and a conclusion that does not parse is
 * not held against the line. For the subproof rules: a line is accepted
 * exactly when the first frame with the right assumption, or starting at
 * the right line, holds a contradiction, or the derived line, among the
 * references inside it, and the textbook instances are accepted. And the
 * contradiction search finds exactly the clashing conjunctions and pairs
 * among the referenced lines, by the one-way test of `engine.ts`.
 */
module ChecksProps {
  import opened Wrappers
  import opened Ast
  import opened Canonical
  import opened CanonicalProps
  import opened Formulas
  import opened FormulasProps
  import opened Proofs
  import opened Frames
  import opened Checks

  /** Equal formulas are equivalent. */
  lemma EquivReflexive(a: Ast)
    ensures Equiv(a, a)
  {
    EqualsCanonicalLaws(Some(a), Some(a));
  }

  /** Both messages of a two-part verdict are absent exactly when neither test fires. */
  lemma WhenBoth(c1: bool, m1: Message, c2: bool, m2: Message)
    ensures When(c1, m1) + When(c2, m2) == [] <==> !c1 && !c2
  {
  }

  // ---------------------------------------------------------------------
  // The contradiction test
  // ---------------------------------------------------------------------

  /** The corrected test does not depend on the order of the two formulas. */
  lemma ClashSymmetric(x: Option<Ast>, y: Option<Ast>)
    ensures Clash(x, y) == Clash(y, x)
  {
  }

  /** Whatever the test as written finds is a clash. */
  lemma ClashAsWrittenSound(x: Option<Ast>, y: Option<Ast>)
    ensures ClashAsWritten(x, y) ==> Clash(x, y)
  {
  }

  /**
   * The test as written misses exactly the clashes where the first formula
   * is itself a negation and the second is the negation of the first.
   */
  lemma ClashAsWrittenMisses(x: Option<Ast>, y: Option<Ast>)
    ensures (Clash(x, y) && !ClashAsWritten(x, y)) <==>
      (x.Some? && y.Some? && x.value.Not? && y.value.Not? && Equiv(y.value.arg, x.value) && !Equiv(x.value.arg, y.value))
  {
  }

  /** `!P` and `!!P` clash, and the test as written does not see it. */
  lemma ClashAsWrittenCounterexample()
    ensures Clash(Some(Not(Var("P"))), Some(Not(Not(Var("P")))))
    ensures !ClashAsWritten(Some(Not(Var("P"))), Some(Not(Not(Var("P")))))
  {
    var p := Var("P");
    EquivReflexive(Not(p));
    NotImpKeepOrder(p, p);
    NotImpKeepOrder(Not(p), p);
    assert Canonicalize(p) == p;
    assert Canonicalize(Not(Not(p))) == Not(Not(p));
  }

  // ---------------------------------------------------------------------
  // Reiteration
  // ---------------------------------------------------------------------

  /** Reiteration accepts exactly one reference to a found line whose normalized formula is the conclusion's. */
  lemma ReiterationAccepts(c: Claim, byNo: map<string, Entry>)
    ensures var f := RefFormula(byNo, Nth(c.refs, 0));
            ReiterationCheck(c, byNo).messages == [] <==>
              |c.refs| == 1 && c.refs[0] in byNo && Truthy(f) && NormalizeFormula(f) == c.formula
  {
  }

  // ---------------------------------------------------------------------
  // Conjunction
  // ---------------------------------------------------------------------

  /** With every formula parsed, conjunction introduction accepts `A^B` from `A` and `B`, in that order. */
  lemma ConjIntroAccepts(c: Claim, byNo: map<string, Entry>)
    requires c.ast.Some? && RefAst(byNo, c.refs, 0).Some? && RefAst(byNo, c.refs, 1).Some?
    ensures ConjIntroCheck(c, byNo).messages == [] <==>
      |c.refs| == 2 && c.ast.value.And?
      && Equiv(c.ast.value.left, RefAst(byNo, c.refs, 0).value)
      && Equiv(c.ast.value.right, RefAst(byNo, c.refs, 1).value)
  {
  }

  /** Conjunction introduction accepts `A^B` from lines holding `A` and `B`. */
  lemma ConjIntroComplete(c: Claim, byNo: map<string, Entry>, p: string, q: string, a: Ast, b: Ast)
    requires c.refs == [p, q] && p in byNo && q in byNo
    requires byNo[p].ast == Some(a) && byNo[q].ast == Some(b) && c.ast == Some(And(a, b))
    ensures ConjIntroCheck(c, byNo).messages == []
  {
    EquivReflexive(a);
    EquivReflexive(b);
  }

  /**
   * When a formula does not parse, conjunction introduction compares
   * texts: the conclusion is written `(L^R)` with parenthesis-free parts,
   * and the two referenced lines read `L` and `R`.
   */
  lemma ConjIntroByText(c: Claim, byNo: map<string, Entry>)
    requires c.ast.None? || RefAst(byNo, c.refs, 0).None? || RefAst(byNo, c.refs, 1).None?
    ensures var r1, r2 := RefText(byNo, c.refs, 0), RefText(byNo, c.refs, 1);
            ConjIntroCheck(c, byNo).messages == [] <==>
              |c.refs| == 2 && IsConjunction(c.formula) && r1 != "" && r2 != ""
              && SplitConjunction(c.formula) == Some((r1, r2))
  {
    ConjIntroTextual(c, byNo);
    if IsConjunction(c.formula) {
      NormalizedDotChars(Some(c.formula));
      ConjunctionSplits(NormalizeFormula(Some(c.formula)));
      ConjunctTextsMeans(c, byNo);
    }
  }

  /** Without all three parses, conjunction introduction tests the texts. */
  lemma ConjIntroTextual(c: Claim, byNo: map<string, Entry>)
    requires c.ast.None? || RefAst(byNo, c.refs, 0).None? || RefAst(byNo, c.refs, 1).None?
    ensures ConjIntroCheck(c, byNo).messages ==
      When(|c.refs| != 2, ConjIntroRefCount) + (When(!IsConjunction(c.formula), NotConjunctionText) + ConjunctTexts(c, byNo))
  {
  }

  /** Once the conclusion splits, the text comparison passes exactly when the referenced lines read its two parts. */
  lemma ConjunctTextsMeans(c: Claim, byNo: map<string, Entry>)
    requires SplitConjunction(c.formula).Some?
    ensures var r1, r2 := RefText(byNo, c.refs, 0), RefText(byNo, c.refs, 1);
            ConjunctTexts(c, byNo) == [] <==> r1 != "" && r2 != "" && SplitConjunction(c.formula) == Some((r1, r2))
  {
  }

  /** With every formula parsed, conjunction elimination accepts either conjunct of the referenced conjunction. */
  lemma ConjElimAccepts(c: Claim, byNo: map<string, Entry>)
    requires c.ast.Some? && RefAst(byNo, c.refs, 0).Some?
    ensures var r := RefAst(byNo, c.refs, 0).value;
            ConjElimCheck(c, byNo).messages == [] <==>
              |c.refs| == 1 && r.And? && (Equiv(c.ast.value, r.left) || Equiv(c.ast.value, r.right))
  {
  }

  /** Conjunction elimination accepts `A`, and `B`, from a line holding `A^B`. */
  lemma ConjElimComplete(c: Claim, byNo: map<string, Entry>, p: string, a: Ast, b: Ast)
    requires c.refs == [p] && p in byNo && byNo[p].ast == Some(And(a, b))
    requires c.ast == Some(a) || c.ast == Some(b)
    ensures ConjElimCheck(c, byNo).messages == []
  {
    EquivReflexive(a);
    EquivReflexive(b);
  }

  // ---------------------------------------------------------------------
  // Conditional elimination and modus tollens
  // ---------------------------------------------------------------------

  /** With every formula parsed, conditional elimination accepts exactly a detachment, in either order. */
  lemma CondElimAccepts(c: Claim, byNo: map<string, Entry>)
    requires c.ast.Some? && RefAst(byNo, c.refs, 0).Some? && RefAst(byNo, c.refs, 1).Some?
    ensures var a1, a2 := RefAst(byNo, c.refs, 0).value, RefAst(byNo, c.refs, 1).value;
            CondElimCheck(c, byNo).messages == [] <==>
              |c.refs| == 2 && (Detaches(a1, a2, c.ast.value) || Detaches(a2, a1, c.ast.value))
  {
  }

  /** Conditional elimination accepts `B` from `A` and `A->B`, whichever is cited first. */
  lemma CondElimComplete(c: Claim, byNo: map<string, Entry>, p: string, q: string, a: Ast, b: Ast)
    requires (c.refs == [p, q] || c.refs == [q, p]) && p in byNo && q in byNo
    requires byNo[p].ast == Some(a) && byNo[q].ast == Some(Imp(a, b)) && c.ast == Some(b)
    ensures CondElimCheck(c, byNo).messages == []
  {
    EquivReflexive(a);
    EquivReflexive(b);
  }

  /** A conclusion that does not parse passes conditional elimination whatever the references hold. */
  lemma CondElimUnparsed(c: Claim, byNo: map<string, Entry>)
    requires |c.refs| == 2 && c.ast.None?
    ensures CondElimCheck(c, byNo).messages == []
  {
  }

  /** With every formula parsed, modus tollens accepts exactly a contraposition, in either order. */
  lemma ModusTollensAccepts(c: Claim, byNo: map<string, Entry>)
    requires c.ast.Some? && RefAst(byNo, c.refs, 0).Some? && RefAst(byNo, c.refs, 1).Some?
    ensures var a1, a2 := RefAst(byNo, c.refs, 0).value, RefAst(byNo, c.refs, 1).value;
            ModusTollensCheck(c, byNo).messages == [] <==>
              |c.refs| == 2 && (Contraposes(a1, a2, c.ast.value) || Contraposes(a2, a1, c.ast.value))
  {
  }

  /** Modus tollens accepts `!A` from `A->B` and `!B`, whichever is cited first. */
  lemma ModusTollensComplete(c: Claim, byNo: map<string, Entry>, p: string, q: string, a: Ast, b: Ast)
    requires (c.refs == [p, q] || c.refs == [q, p]) && p in byNo && q in byNo
    requires byNo[p].ast == Some(Imp(a, b)) && byNo[q].ast == Some(Not(b)) && c.ast == Some(Not(a))
    ensures ModusTollensCheck(c, byNo).messages == []
  {
    EquivReflexive(a);
    EquivReflexive(b);
  }

  // ---------------------------------------------------------------------
  // Biconditional
  // ---------------------------------------------------------------------

  /** With every formula parsed, biconditional introduction accepts exactly two conditionals running both ways. */
  lemma BicondIntroAccepts(c: Claim, byNo: map<string, Entry>)
    requires c.ast.Some? && RefAst(byNo, c.refs, 0).Some? && RefAst(byNo, c.refs, 1).Some?
    ensures BicondIntroCheck(c, byNo).messages == [] <==>
      |c.refs| == 2 && BothDirections(RefAst(byNo, c.refs, 0).value, RefAst(byNo, c.refs, 1).value, c.ast.value)
  {
  }

  /** Biconditional introduction accepts `A<->B` from `A->B` and `B->A`, whichever is cited first. */
  lemma BicondIntroComplete(c: Claim, byNo: map<string, Entry>, p: string, q: string, a: Ast, b: Ast)
    requires (c.refs == [p, q] || c.refs == [q, p]) && p in byNo && q in byNo
    requires byNo[p].ast == Some(Imp(a, b)) && byNo[q].ast == Some(Imp(b, a)) && c.ast == Some(Iff(a, b))
    ensures BicondIntroCheck(c, byNo).messages == []
  {
    EquivReflexive(a);
    EquivReflexive(b);
  }

  /** With every formula parsed, biconditional elimination accepts exactly a release of one side, in either order. */
  lemma BicondElimAccepts(c: Claim, byNo: map<string, Entry>)
    requires c.ast.Some? && RefAst(byNo, c.refs, 0).Some? && RefAst(byNo, c.refs, 1).Some?
    ensures var a1, a2 := RefAst(byNo, c.refs, 0).value, RefAst(byNo, c.refs, 1).value;
            BicondElimCheck(c, byNo).messages == [] <==>
              |c.refs| == 2 && (Releases(a1, a2, c.ast.value) || Releases(a2, a1, c.ast.value))
  {
  }

  /** Biconditional elimination accepts either side of `A<->B` from the biconditional and the other side. */
  lemma BicondElimComplete(c: Claim, byNo: map<string, Entry>, p: string, q: string, a: Ast, b: Ast)
    requires (c.refs == [p, q] || c.refs == [q, p]) && p in byNo && q in byNo
    requires byNo[p].ast == Some(Iff(a, b))
    requires (byNo[q].ast == Some(a) && c.ast == Some(b)) || (byNo[q].ast == Some(b) && c.ast == Some(a))
    ensures BicondElimCheck(c, byNo).messages == []
  {
    EquivReflexive(a);
    EquivReflexive(b);
    EqualsCanonicalLaws(Some(a), Some(b));
  }

  // ---------------------------------------------------------------------
  // The frame search
  // ---------------------------------------------------------------------

  /** The frame found is the first that passes the test. */
  lemma {:induction false} FindFrameFromFirst(frames: seq<Frame>, t: FrameTest, i: nat)
    requires i <= |frames|
    ensures var r := FindFrameFrom(frames, t, i);
            r.Some? ==> exists k :: i <= k < |frames| && frames[k] == r.value
                                    && forall j :: i <= j < k ==> !Passes(t, frames[j])
    decreases |frames| - i
  {
    if i < |frames| && !Passes(t, frames[i]) {
      FindFrameFromFirst(frames, t, i + 1);
    }
  }

  /** `frames.find`: the frame found is the first that passes, and none passes when nothing is found. */
  lemma FindFrameFirst(frames: seq<Frame>, t: FrameTest)
    ensures var r := FindFrame(frames, t);
            (r.Some? ==> exists k :: 0 <= k < |frames| && frames[k] == r.value && Passes(t, frames[k])
                                     && forall j :: 0 <= j < k ==> !Passes(t, frames[j]))
            && (r.None? ==> forall k :: 0 <= k < |frames| ==> !Passes(t, frames[k]))
  {
    FindFrameFromFirst(frames, t, 0);
  }

  /** Frame `k` passes the test and no frame before it does. */
  predicate FirstPassing(frames: seq<Frame>, t: FrameTest, k: int) {
    0 <= k < |frames| && Passes(t, frames[k]) && forall j :: 0 <= j < k ==> !Passes(t, frames[j])
  }

  /** A frame is found exactly when some frame is the first to pass, and that frame is the one found. */
  lemma FindFrameIsFirst(frames: seq<Frame>, t: FrameTest)
    ensures FindFrame(frames, t).Some? <==> exists k :: FirstPassing(frames, t, k)
    ensures forall k :: FirstPassing(frames, t, k) ==> FindFrame(frames, t) == Some(frames[k])
  {
    FindFrameFirst(frames, t);
    var r := FindFrame(frames, t);
    if r.Some? {
      var k0 :| 0 <= k0 < |frames| && frames[k0] == r.value && Passes(t, frames[k0])
                && forall j :: 0 <= j < k0 ==> !Passes(t, frames[j]);
      assert FirstPassing(frames, t, k0);
      forall k | FirstPassing(frames, t, k)
        ensures r == Some(frames[k])
      {
      }
    }
  }

  // ---------------------------------------------------------------------
  // The contradiction search
  // ---------------------------------------------------------------------

  /** Some reference from the `k`-th on satisfies `p`. */
  predicate AnyFrom(p: int -> bool, ris: seq<nat>, k: nat)
    decreases |ris| - k
  {
    k < |ris| && (p(ris[k]) || AnyFrom(p, ris, k + 1))
  }

  lemma {:induction false} AnyFromMeans(p: int -> bool, ris: seq<nat>, k: nat)
    ensures AnyFrom(p, ris, k) <==> exists q :: k <= q < |ris| && p(ris[q])
    decreases |ris| - k
  {
    if k < |ris| {
      AnyFromMeans(p, ris, k + 1);
      if p(ris[k]) {
        assert k <= k < |ris|;
      } else if AnyFrom(p, ris, k + 1) {
        var q :| k + 1 <= q < |ris| && p(ris[q]);
      }
    }
  }

  /** The first loop's predicate is `AnyFrom` of the clashing-conjunction test. */
  lemma {:induction false} ConjunctionFromIsAny(lines: seq<ProofLineInput>, ris: seq<nat>, k: nat)
    ensures ConjunctionFrom(lines, ris, k) == AnyFrom(idx => ClashingConjunction(lines, idx), ris, k)
    decreases |ris| - k
  {
    if k < |ris| {
      ConjunctionFromIsAny(lines, ris, k + 1);
    }
  }

  /** The first loop, from `k` on, finds exactly the clashing conjunctions among the lines from `ris[k]` on. */
  lemma ConjunctionFromMeans(lines: seq<ProofLineInput>, ris: seq<nat>, k: nat)
    ensures ConjunctionFrom(lines, ris, k) <==> exists q :: k <= q < |ris| && ClashingConjunction(lines, ris[q])
  {
    ConjunctionFromIsAny(lines, ris, k);
    AnyFromMeans(idx => ClashingConjunction(lines, idx), ris, k);
  }

  /** The inner loop, from `j` on, finds exactly the later formulas that clash with formula `i`. */
  lemma {:induction false} PartnerFromMeans(asts: seq<Option<Ast>>, i: nat, j: nat)
    requires i < |asts|
    ensures PartnerFrom(asts, i, j) <==> exists q :: j <= q < |asts| && ClashAsWritten(asts[i], asts[q])
    decreases |asts| - j
  {
    if j < |asts| {
      PartnerFromMeans(asts, i, j + 1);
      if PartnerFrom(asts, i, j + 1) {
        var q :| j + 1 <= q < |asts| && ClashAsWritten(asts[i], asts[q]);
      }
    }
  }

  /** The outer loop, over its first `i` rounds, finds exactly the clashing pairs whose first formula is before `i`. */
  lemma {:induction false} PairBelowMeans(asts: seq<Option<Ast>>, i: nat)
    requires i <= |asts|
    ensures PairBelow(asts, i) <==> exists p, q :: 0 <= p < i && p < q < |asts| && ClashAsWritten(asts[p], asts[q])
  {
    if i > 0 {
      PairBelowMeans(asts, i - 1);
      PartnerFromMeans(asts, i - 1, i);
      if PartnerFrom(asts, i - 1, i) {
        var q :| i <= q < |asts| && ClashAsWritten(asts[i - 1], asts[q]);
        assert 0 <= i - 1 < i && i - 1 < q < |asts| && ClashAsWritten(asts[i - 1], asts[q]);
      }
      if PairBelow(asts, i - 1) {
        var p, q :| 0 <= p < i - 1 && p < q < |asts| && ClashAsWritten(asts[p], asts[q]);
        assert 0 <= p < i && p < q < |asts|;
      }
    }
  }

  /**
   * The search finds a contradiction exactly when a referenced line is a
   * conjunction whose sides clash, or two referenced lines clash.
   */
  lemma ContradictionMeans(lines: seq<ProofLineInput>, ris: seq<nat>)
    ensures Contradiction(lines, ris) <==>
      (exists k :: 0 <= k < |ris| && ClashingConjunction(lines, ris[k]))
      || (exists p, q :: 0 <= p < q < |ris| && ClashAsWritten(AstAt(lines, ris[p]), AstAt(lines, ris[q])))
  {
    var asts := ParsedRefs(lines, ris);
    ConjunctionFromMeans(lines, ris, 0);
    PairBelowMeans(asts, |ris|);
    if exists p, q :: 0 <= p < q < |ris| && ClashAsWritten(asts[p], asts[q]) {
      var p, q :| 0 <= p < q < |ris| && ClashAsWritten(asts[p], asts[q]);
      ParsedRefsAt(lines, ris, p);
      ParsedRefsAt(lines, ris, q);
    }
    if exists p, q :: 0 <= p < q < |ris| && ClashAsWritten(AstAt(lines, ris[p]), AstAt(lines, ris[q])) {
      var p, q :| 0 <= p < q < |ris| && ClashAsWritten(AstAt(lines, ris[p]), AstAt(lines, ris[q]));
      ParsedRefsAt(lines, ris, p);
      ParsedRefsAt(lines, ris, q);
    }
  }

  /** A contradiction inside a frame is a clashing conjunction, or a clashing pair, among the references inside it. */
  lemma ContradictionInside(ctx: Context, fr: Frame, refs: seq<string>)
    requires ContradictionIn(ctx, fr, refs)
    ensures (exists r :: r in refs && Inside(ctx.indexOf, fr, r) && ClashingConjunction(ctx.lines, ctx.indexOf[r]))
            || (exists r1, r2 :: r1 in refs && r2 in refs && Inside(ctx.indexOf, fr, r1) && Inside(ctx.indexOf, fr, r2)
                                 && ClashAsWritten(AstAt(ctx.lines, ctx.indexOf[r1]), AstAt(ctx.lines, ctx.indexOf[r2])))
  {
    var ris := RefIndices(ctx.indexOf, fr, refs);
    ContradictionMeans(ctx.lines, ris);
    if exists k :: 0 <= k < |ris| && ClashingConjunction(ctx.lines, ris[k]) {
      var k :| 0 <= k < |ris| && ClashingConjunction(ctx.lines, ris[k]);
      assert ris[k] in ris;
      var r :| r in refs && Inside(ctx.indexOf, fr, r) && ctx.indexOf[r] == ris[k];
    } else {
      var p, q :| 0 <= p < q < |ris| && ClashAsWritten(AstAt(ctx.lines, ris[p]), AstAt(ctx.lines, ris[q]));
      assert ris[p] in ris && ris[q] in ris;
      var r1 :| r1 in refs && Inside(ctx.indexOf, fr, r1) && ctx.indexOf[r1] == ris[p];
      var r2 :| r2 in refs && Inside(ctx.indexOf, fr, r2) && ctx.indexOf[r2] == ris[q];
    }
  }

  /** Two references inside the frame are its reference indices, in order. */
  lemma RefIndicesOfPair(indexOf: map<string, nat>, fr: Frame, r1: string, r2: string)
    requires Inside(indexOf, fr, r1) && Inside(indexOf, fr, r2)
    ensures RefIndices(indexOf, fr, [r1, r2]) == [indexOf[r1], indexOf[r2]]
  {
    assert [r1, r2][..1] == [r1];
    assert [r1][..0] == [];
    assert RefIndices(indexOf, fr, [r1]) == [indexOf[r1]];
  }

  /**
   * Two references inside the frame, the first to a line `!B` and the
   * second to a line `B`, hold a contradiction; cited the other way round
   * they do only when `B` is not itself a negation.
   */
  lemma PairContradiction(ctx: Context, fr: Frame, p: string, q: string, b: Ast)
    requires Inside(ctx.indexOf, fr, p) && Inside(ctx.indexOf, fr, q)
    requires AstAt(ctx.lines, ctx.indexOf[p]) == Some(Not(b)) && AstAt(ctx.lines, ctx.indexOf[q]) == Some(b)
    ensures ContradictionIn(ctx, fr, [p, q])
    ensures !b.Not? ==> ContradictionIn(ctx, fr, [q, p])
  {
    EquivReflexive(b);
    RefIndicesOfPair(ctx.indexOf, fr, p, q);
    RefIndicesOfPair(ctx.indexOf, fr, q, p);
    var pq := [ctx.indexOf[p], ctx.indexOf[q]];
    var qp := [ctx.indexOf[q], ctx.indexOf[p]];
    ContradictionMeans(ctx.lines, pq);
    ContradictionMeans(ctx.lines, qp);
    assert ClashAsWritten(AstAt(ctx.lines, pq[0]), AstAt(ctx.lines, pq[1]));
    if !b.Not? {
      assert ClashAsWritten(AstAt(ctx.lines, qp[0]), AstAt(ctx.lines, qp[1]));
    }
  }

  // ---------------------------------------------------------------------
  // The subproof rules
  // ---------------------------------------------------------------------

  /**
   * Negation introduction accepts `!A` exactly when it cites a line, and
   * the first frame whose assumption is alpha-equal to `A` holds a
   * contradiction among the references inside it: a later frame that
   * assumes `A` is never tried.
   */
  lemma NegIntroAccepts(c: Claim, ctx: Context)
    ensures NegIntroCheck(c, ctx).messages == [] <==>
      |c.refs| >= 1 && NegatedText(c.formula).Some?
      && exists k :: FirstPassing(ctx.frames, AssumesText(NegatedText(c.formula)), k)
                     && ContradictionIn(ctx, ctx.frames[k], c.refs)
  {
    FindFrameIsFirst(ctx.frames, AssumesText(NegatedText(c.formula)));
  }

  /**
   * The textbook negation introduction is accepted: in the first frame
   * assuming `A`, a line `!B` and a line `B` are cited, negation first or,
   * when `B` is not itself a negation, in either order; `!A` follows.
   */
  lemma NegIntroComplete(c: Claim, ctx: Context, k: nat, p: string, q: string, b: Ast)
    requires NegatedText(c.formula).Some?
    requires FirstPassing(ctx.frames, AssumesText(NegatedText(c.formula)), k)
    requires Inside(ctx.indexOf, ctx.frames[k], p) && Inside(ctx.indexOf, ctx.frames[k], q)
    requires AstAt(ctx.lines, ctx.indexOf[p]) == Some(Not(b)) && AstAt(ctx.lines, ctx.indexOf[q]) == Some(b)
    requires c.refs == [p, q] || (c.refs == [q, p] && !b.Not?)
    ensures NegIntroCheck(c, ctx).messages == []
  {
    PairContradiction(ctx, ctx.frames[k], p, q, b);
    NegIntroAccepts(c, ctx);
  }

  /**
   * Indirect proof accepts `A` exactly when it parses, and the first frame
   * whose assumption is the negation of `A`, up to canonical equivalence,
   * holds a contradiction among the references inside it.
   */
  lemma IndirectProofAccepts(c: Claim, ctx: Context)
    ensures IndirectProofCheck(c, ctx).messages == [] <==>
      c.ast.Some?
      && exists k :: FirstPassing(ctx.frames, AssumesNegationOf(c.ast), k)
                     && ContradictionIn(ctx, ctx.frames[k], c.refs)
  {
    FindFrameIsFirst(ctx.frames, AssumesNegationOf(c.ast));
  }

  /**
   * The textbook indirect proof is accepted: in the first frame assuming
   * `!A`, a line `!B` and a line `B` are cited, negation first or, when
   * `B` is not itself a negation, in either order; `A` follows.
   */
  lemma IndirectProofComplete(c: Claim, ctx: Context, k: nat, p: string, q: string, b: Ast)
    requires c.ast.Some?
    requires FirstPassing(ctx.frames, AssumesNegationOf(c.ast), k)
    requires Inside(ctx.indexOf, ctx.frames[k], p) && Inside(ctx.indexOf, ctx.frames[k], q)
    requires AstAt(ctx.lines, ctx.indexOf[p]) == Some(Not(b)) && AstAt(ctx.lines, ctx.indexOf[q]) == Some(b)
    requires c.refs == [p, q] || (c.refs == [q, p] && !b.Not?)
    ensures IndirectProofCheck(c, ctx).messages == []
  {
    PairContradiction(ctx, ctx.frames[k], p, q, b);
    IndirectProofAccepts(c, ctx);
  }

  /**
   * An accepted negation introduction concludes `!A` from a frame that
   * assumes `A`, up to renaming of bound variables, and holds a
   * contradiction among the references inside it.
   */
  lemma NegIntroSound(c: Claim, ctx: Context)
    requires NegIntroCheck(c, ctx).messages == []
    ensures |c.refs| >= 1 && NegatedText(c.formula).Some?
    ensures exists fr :: fr in ctx.frames && AlphaEqual(fr.assumptionFormula, NegatedText(c.formula))
                         && ContradictionIn(ctx, fr, c.refs)
  {
    var fr := FindFrame(ctx.frames, AssumesText(NegatedText(c.formula)));
    assert fr.Some?;
    assert fr.value in ctx.frames && ContradictionIn(ctx, fr.value, c.refs);
  }

  /**
   * An accepted indirect proof concludes a formula `A` from a frame that
   * assumes `!A`, up to canonical equivalence, and holds a contradiction
   * among the references inside it.
   */
  lemma IndirectProofSound(c: Claim, ctx: Context)
    requires IndirectProofCheck(c, ctx).messages == []
    ensures c.ast.Some?
    ensures exists fr, m :: fr in ctx.frames && NegatedText(NormalizeFormula(fr.assumptionFormula)) == Some(m)
                            && EqualsCanonical(ParseAstSafe(Some(m)), c.ast) && ContradictionIn(ctx, fr, c.refs)
  {
    var fr := FindFrame(ctx.frames, AssumesNegationOf(c.ast));
    assert fr.Some?;
    var m := NegatedText(NormalizeFormula(fr.value.assumptionFormula)).value;
    assert fr.value in ctx.frames && ContradictionIn(ctx, fr.value, c.refs);
  }

  /**
   * An accepted conditional introduction concludes `(A->B)` from a frame
   * that starts at the first reference and assumes `A`, up to renaming of
   * bound variables, and whose second reference is a line inside the frame
   * whose formula is `B`, up to canonical equivalence.
   */
  lemma CondIntroSound(c: Claim, ctx: Context)
    requires CondIntroCheck(c, ctx).messages == []
    ensures |c.refs| == 2 && SplitOuter(c.formula, "->").Some?
    ensures var (ante, cons) := SplitOuter(c.formula, "->").value;
            var d := c.refs[1];
            d in ctx.indexOf
            && exists fr :: fr in ctx.frames && SameNumber(Some(fr.startLineNo), Some(c.refs[0]))
                            && fr.startIdx <= ctx.indexOf[d] && (fr.endIdx.Some? ==> ctx.indexOf[d] <= fr.endIdx.value)
                            && AlphaEqual(fr.assumptionFormula, Some(ante))
                            && EqualsCanonical(AstAt(ctx.lines, ctx.indexOf[d]), ParseAstSafe(Some(cons)))
  {
    var fr := FindFrame(ctx.frames, StartsAt(Nth(c.refs, 0)));
    assert fr.Some?;
    assert fr.value in ctx.frames;
  }

  /**
   * Conditional introduction accepts `(A->B)` exactly when it cites two
   * lines, the first frame starting at the first has its assumption
   * alpha-equal to `A`, and the second is a line inside that frame whose
   * formula is `B` up to canonical equivalence.
   */
  lemma CondIntroAccepts(c: Claim, ctx: Context)
    ensures CondIntroCheck(c, ctx).messages == [] <==>
      SplitOuter(c.formula, "->").Some? && |c.refs| == 2
      && exists k :: FirstPassing(ctx.frames, StartsAt(Some(c.refs[0])), k)
                     && Inside(ctx.indexOf, ctx.frames[k], c.refs[1])
                     && AlphaEqual(ctx.frames[k].assumptionFormula, Some(SplitOuter(c.formula, "->").value.0))
                     && EqualsCanonical(AstAt(ctx.lines, ctx.indexOf[c.refs[1]]),
                                        ParseAstSafe(Some(SplitOuter(c.formula, "->").value.1)))
  {
    FindFrameIsFirst(ctx.frames, StartsAt(Nth(c.refs, 0)));
  }

  /**
   * The textbook conditional introduction is accepted: the first frame
   * starting at the first cited line assumes `A` as written, and the
   * second cited line, inside it, parses to the same formula as `B`.
   */
  lemma CondIntroComplete(c: Claim, ctx: Context, k: nat, s: string, d: string, ante: string, cons: string)
    requires SplitOuter(c.formula, "->") == Some((ante, cons)) && c.refs == [s, d]
    requires FirstPassing(ctx.frames, StartsAt(Some(s)), k) && Inside(ctx.indexOf, ctx.frames[k], d)
    requires NormalizeFormula(ctx.frames[k].assumptionFormula) == NormalizeFormula(Some(ante))
    requires ParseAstSafe(Some(cons)).Some? && AstAt(ctx.lines, ctx.indexOf[d]) == ParseAstSafe(Some(cons))
    ensures CondIntroCheck(c, ctx).messages == []
  {
    EqualsCanonicalLaws(ParseAstSafe(Some(cons)), ParseAstSafe(Some(cons)));
    CondIntroAccepts(c, ctx);
  }

  // ---------------------------------------------------------------------
  // The quantifier rules
  // ---------------------------------------------------------------------

  /** Universal introduction accepts `forallx(P)` from one reference that is an instance of `P`. */
  lemma UnivIntroAccepts(c: Claim, byNo: map<string, Entry>)
    ensures UnivIntroCheck(c, byNo).messages == [] <==>
      |c.refs| == 1
      && exists x :: MatchQuantifier(c.formula, Forall, true) == Some(x) && InstanceOf(x.body, x.v, FirstRefText(c, byNo))
  {
    var m := MatchQuantifier(c.formula, Forall, true);
    if m.Some? {
      assert MatchQuantifier(c.formula, Forall, true) == Some(m.value);
    }
  }

  /** Universal elimination accepts an instance of `P` from one reference that is `forallx(P)`. */
  lemma UnivElimAccepts(c: Claim, byNo: map<string, Entry>)
    ensures UnivElimCheck(c, byNo).messages == [] <==>
      |c.refs| == 1
      && exists x :: ParseQuantified(Some(FirstRefText(c, byNo))) == Some(x) && x.kind == Forall
                     && InstanceOf(x.body, x.v, c.formula)
  {
    var m := ParseQuantified(Some(FirstRefText(c, byNo)));
    if m.Some? {
      assert ParseQuantified(Some(FirstRefText(c, byNo))) == Some(m.value);
    }
  }

  /** Existential introduction accepts `existsx(P)` from one reference that is an instance of `P`. */
  lemma ExistIntroAccepts(c: Claim, byNo: map<string, Entry>)
    ensures ExistIntroCheck(c, byNo).messages == [] <==>
      |c.refs| == 1
      && exists x :: ParseQuantified(Some(c.formula)) == Some(x) && x.kind == Exists
                     && InstanceOf(x.body, x.v, FirstRefText(c, byNo))
  {
    var m := ParseQuantified(Some(c.formula));
    if m.Some? {
      assert ParseQuantified(Some(c.formula)) == Some(m.value);
    }
  }

  /** Existential elimination checks only its references: the conclusion can be anything. */
  lemma ExistElimIgnoresConclusion(c: Claim, byNo: map<string, Entry>, formula: string, ast: Option<Ast>)
    ensures ExistElimCheck(c.(formula := formula, ast := ast), byNo) == ExistElimCheck(c, byNo)
    ensures ExistElimCheck(c, byNo).messages == [] <==>
      |c.refs| >= 2 && exists x :: ParseQuantified(Some(FirstRefText(c, byNo))) == Some(x) && x.kind == Exists
  {
    var m := ParseQuantified(Some(FirstRefText(c, byNo)));
    if m.Some? {
      assert ParseQuantified(Some(FirstRefText(c, byNo))) == Some(m.value);
    }
  }
}
