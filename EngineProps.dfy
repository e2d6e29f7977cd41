/**
 * What `validateProof` promises about a whole proof: one verdict per line,
 * in order; a line is accepted exactly when it has a number, a formula and
 * its rule's check records nothing; the rules that read `lineByNo` see only
 * the lines checked before, while the subproof rules see the whole proof;
 * and the proof is accepted exactly when every line is and a conclusion is
 * given, whatever that conclusion says.
 */
module EngineProps {
  import opened Wrappers
  import opened Text
  import opened Formulas
  import opened Proofs
  import opened Frames
  import opened Rules
  import opened Checks
  import opened ChecksProps
  import opened Engine

  // ---------------------------------------------------------------------
  // lineIndexByNo and lineByNo
  // ---------------------------------------------------------------------

  /**
   * After the first `k` lines, a line number is in `lineIndexByNo` exactly
   * when one of those lines has it, and it is mapped to the last of them.
   */
  lemma {:induction false} IndexUpToMeans(lines: seq<ProofLineInput>, k: nat, key: string)
    requires k <= |lines|
    ensures key in IndexUpTo(lines, k) <==> exists j :: 0 <= j < k && lines[j].lineNo == key
    ensures key in IndexUpTo(lines, k) ==>
      var j := IndexUpTo(lines, k)[key];
      lines[j].lineNo == key && forall i :: j < i < k ==> lines[i].lineNo != key
    decreases k
  {
    if k > 0 {
      IndexUpToMeans(lines, k - 1, key);
      if lines[k - 1].lineNo == key {
        assert IndexUpTo(lines, k)[key] == k - 1;
      } else if exists j :: 0 <= j < k && lines[j].lineNo == key {
        var j :| 0 <= j < k && lines[j].lineNo == key;
        assert j < k - 1;
      }
    }
  }

  /**
   * The lines a reference can resolve to are the lines checked before:
   * `lineByNo` holds a number exactly when an earlier line has it, and
   * holds the last such line.
   */
  lemma ByNoUpToMeans(lines: seq<ProofLineInput>, k: nat, key: string)
    requires k <= |lines|
    ensures key in ByNoUpTo(lines, k) <==> exists j :: 0 <= j < k && lines[j].lineNo == key
    ensures key in ByNoUpTo(lines, k) ==>
      exists j :: 0 <= j < k && lines[j].lineNo == key && ByNoUpTo(lines, k)[key] == Entered(lines[j])
                  && forall i :: j < i < k ==> lines[i].lineNo != key
  {
    IndexUpToMeans(lines, k, key);
    if key in IndexUpTo(lines, k) {
      var j := IndexUpTo(lines, k)[key];
      assert ByNoUpTo(lines, k)[key] == Entered(lines[j]);
    }
  }

  /** The whole proof's `lineIndexByNo` maps each number to the last line that has it. */
  lemma IndexOfMeans(lines: seq<ProofLineInput>, key: string)
    ensures key in IndexOf(lines) <==> exists j :: 0 <= j < |lines| && lines[j].lineNo == key
    ensures key in IndexOf(lines) ==>
      var j := IndexOf(lines)[key];
      j < |lines| && lines[j].lineNo == key && forall i :: j < i < |lines| ==> lines[i].lineNo != key
  {
    IndexUpToMeans(lines, |lines|, key);
  }

  // ---------------------------------------------------------------------
  // One line
  // ---------------------------------------------------------------------

  /**
   * A line keeps its number; it is accepted exactly when it has a number,
   * its normalized formula is not empty and its rule's check records no
   * message; the two missing-field messages come first.
   */
  lemma LineVerdictMeans(ctx: Context, byNo: map<string, Entry>, line: ProofLineInput)
    ensures var v := LineVerdict(ctx, byNo, line);
            var c := ClaimOf(line);
            v.lineNo == line.lineNo
            && (v.ok <==> v.messages == [])
            && (v.ok <==> line.lineNo != "" && c.formula != "" && RuleVerdict(RuleOf(line), c, ctx, byNo).messages == [])
            && (line.lineNo == "" ==> v.messages[0] == MessageText(LineNoRequired))
            && (line.lineNo != "" && c.formula == "" ==> v.messages[0] == MessageText(FormulaRequired))
            && (line.lineNo == "" && c.formula == "" ==> v.messages[1] == MessageText(FormulaRequired))
  {
    var c := ClaimOf(line);
    RequiredFirst(c, RuleVerdict(RuleOf(line), c, ctx, byNo).messages);
  }

  /** The missing-field messages come before the rule's, and there are none exactly when both fields are there. */
  lemma RequiredFirst(c: Claim, rest: seq<Message>)
    ensures var ms := Required(c) + rest;
            (ms == [] <==> c.raw.lineNo != "" && c.formula != "" && rest == [])
            && (c.raw.lineNo == "" ==> ms[0] == LineNoRequired)
            && (c.raw.lineNo != "" && c.formula == "" ==> ms[0] == FormulaRequired)
            && (c.raw.lineNo == "" && c.formula == "" ==> ms[1] == FormulaRequired)
  {
  }

  /** A premise, and a line citing a rule without a check, is accepted exactly when it has a number and a formula. */
  lemma UncheckedLineMeans(ctx: Context, byNo: map<string, Entry>, line: ProofLineInput)
    requires RuleOf(line) == Premise || RuleOf(line) == Unchecked
    ensures LineVerdict(ctx, byNo, line).ok <==> line.lineNo != "" && NormalizeFormula(line.formula) != ""
  {
  }

  /** No line is ever checked by the biconditional elimination rule, whatever rule text it gives. */
  lemma NoLineIsBicondElim(line: ProofLineInput)
    ensures RuleOf(line) != BicondElim
  {
    BicondElimUnreachable(Trim(line.rule.GetOr("")));
  }

  // ---------------------------------------------------------------------
  // The whole proof
  // ---------------------------------------------------------------------

  /**
   * One verdict per line, in the lines' order, each judged with `lineByNo`
   * holding exactly the lines before it and with the frames and line index
   * of the whole proof; the proof is accepted exactly
   * when every line is and the conclusion is not empty; one subproof is
   * reported per frame.
   */
  lemma ValidateMeans(conclusion: string, lines: seq<ProofLineInput>)
    ensures var r := Validate(conclusion, lines);
            |r.lines| == |lines|
            && (forall k :: 0 <= k < |lines| ==> r.lines[k].lineNo == lines[k].lineNo)
            && (forall k :: 0 <= k < |lines| ==> r.lines[k] == LineVerdict(ContextOf(lines), ByNoUpTo(lines, k), lines[k]))
            && (r.ok <==> conclusion != "" && forall k :: 0 <= k < |lines| ==> r.lines[k].ok)
            && |r.subproofs| == |FramesOf(lines)|
  {
    var r := Validate(conclusion, lines);
    forall k | 0 <= k < |lines| ensures r.lines[k].lineNo == lines[k].lineNo {
      LineVerdictMeans(ContextOf(lines), ByNoUpTo(lines, k), lines[k]);
    }
  }

  /**
   * Negation introduction, indirect proof and conditional introduction do
   * not read `lineByNo`: a line citing one of them is judged against the
   * frames and the line index of the whole proof, so it may cite lines
   * after it.
   */
  lemma SubproofRuleSeesWholeProof(conclusion: string, lines: seq<ProofLineInput>, k: nat)
    requires k < |lines|
    requires RuleOf(lines[k]) == NegIntro || RuleOf(lines[k]) == IndirectProof || RuleOf(lines[k]) == CondIntro
    ensures Validate(conclusion, lines).lines[k] == LineVerdict(ContextOf(lines), map[], lines[k])
  {
    ValidateMeans(conclusion, lines);
  }

  /** The conclusion is only tested for being there: any two non-empty conclusions get the same verdict. */
  lemma ConclusionNotCompared(c1: string, c2: string, lines: seq<ProofLineInput>)
    requires c1 != "" && c2 != ""
    ensures Validate(c1, lines) == Validate(c2, lines)
  {
  }

  /** A proof with an empty conclusion is never accepted, and one without lines is accepted with any other. */
  lemma EmptyCases(conclusion: string, lines: seq<ProofLineInput>)
    ensures !Validate("", lines).ok
    ensures Validate(conclusion, []).ok <==> conclusion != ""
  {
  }

  /**
   * An accepted reiteration cites one line, checked before it, whose
   * normalized formula is its own: a line cannot reiterate itself or a
   * line after it unless an earlier line has the same number.
   */
  lemma ReiterationCitesEarlierLine(conclusion: string, lines: seq<ProofLineInput>, k: nat)
    requires k < |lines| && RuleOf(lines[k]) == Reiteration
    requires Validate(conclusion, lines).lines[k].ok
    ensures var refs := lines[k].refs.GetOr([]);
            |refs| == 1
            && exists j :: 0 <= j < k && lines[j].lineNo == refs[0]
                           && NormalizeFormula(lines[j].formula) == NormalizeFormula(lines[k].formula)
  {
    var ctx := ContextOf(lines);
    var byNo := ByNoUpTo(lines, k);
    var c := ClaimOf(lines[k]);
    ValidateMeans(conclusion, lines);
    LineVerdictMeans(ctx, byNo, lines[k]);
    ReiterationAccepts(c, byNo);
    assert |c.refs| == 1 && c.refs[0] in byNo;
    ByNoUpToMeans(lines, k, c.refs[0]);
    var j :| 0 <= j < k && lines[j].lineNo == c.refs[0] && byNo[c.refs[0]] == Entered(lines[j]);
    assert RefFormula(byNo, Nth(c.refs, 0)) == lines[j].formula;
  }
}
