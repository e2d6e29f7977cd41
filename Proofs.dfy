/**
 * The records the proof checker reads and writes: an input proof line, the
 * verdict on one line, the evidence a rule leaves, a subproof frame and the
 * verdict on a whole proof. Optional fields are `Option`s; `undefined` is
 * `None`.
 */
module Proofs {
  import opened Wrappers
  import opened Text

  /** One line of a proof as the editor submits it. */
  datatype ProofLineInput = ProofLineInput(
    lineNo: string,
    formula: Option<string>,
    rule: Option<string>,
    refs: Option<seq<string>>,
    comment: Option<string>,
    depth: Option<int>)

  /** What a rule check records: the rule's name, the references and a note. */
  datatype LineEvidence = LineEvidence(rule: string, refs: seq<string>, info: Option<string>)

  /** The verdict on one line. */
  datatype LineValidation = LineValidation(
    lineNo: string,
    ok: bool,
    messages: seq<string>,
    evidence: Option<LineEvidence>)

  /** A subproof as reported: its depth, its first and last line numbers, its assumption. */
  datatype SubproofFrame = SubproofFrame(
    depth: int,
    startLineNo: string,
    endLineNo: string,
    assumptionFormula: Option<string>)

  /** The verdict on a whole proof. */
  datatype ProofValidationResult = ProofValidationResult(
    ok: bool,
    lines: seq<LineValidation>,
    subproofs: seq<SubproofFrame>)

  /** `line.depth ?? 0` */
  function DepthOf(line: ProofLineInput): int {
    line.depth.GetOr(0)
  }

  // ---------------------------------------------------------------------
  // Number(...) on line numbers
  // ---------------------------------------------------------------------

  /** The value of a digit character. */
  function DigitValue(c: char): nat
    requires IsDigit(c)
  {
    c as int - '0' as int
  }

  /** The digit character of a value below ten. */
  function DigitChar(d: nat): (c: char)
    requires d < 10
    ensures IsDigit(c) && DigitValue(c) == d
  {
    ('0' as int + d) as char
  }

  /** Every character is a decimal digit, and there is at least one. */
  predicate IsDigits(s: string) {
    |s| > 0 && forall k :: 0 <= k < |s| ==> IsDigit(s[k])
  }

  /** The value of a run of decimal digits, most significant first. */
  function DigitsValue(s: string): nat
    requires forall k :: 0 <= k < |s| ==> IsDigit(s[k])
    decreases |s|
  {
    if s == [] then 0 else DigitsValue(s[..|s| - 1]) * 10 + DigitValue(s[|s| - 1])
  }

  /**
   * `Number(s)` for the forms a line number takes: after trimming, the
   * empty string is 0 and an optionally signed run of decimal digits is
   * its value; anything else is `NaN`, here `None`. `Number(undefined)`
   * is `NaN` too.
   */
  function NumberOf(s: Option<string>): (n: Option<int>)
    ensures s.Some? && IsDigits(Trim(s.value)) ==> n == Some(DigitsValue(Trim(s.value)))
    ensures s.None? ==> n.None?
  {
    if s.None? then None
    else
      var t := Trim(s.value);
      if t == [] then Some(0)
      else if IsDigits(t) then Some(DigitsValue(t))
      else if |t| > 1 && (t[0] == '+' || t[0] == '-') && IsDigits(t[1..]) then
        (if t[0] == '+' then Some(DigitsValue(t[1..])) else Some(-(DigitsValue(t[1..]) as int)))
      else None
  }

  /** `Number(a) === Number(b)`: `NaN` equals nothing, itself included. */
  predicate SameNumber(a: Option<string>, b: Option<string>) {
    var x := NumberOf(a);
    var y := NumberOf(b);
    x.Some? && y.Some? && x.value == y.value
  }

  /** `String(n)` for a natural number: its decimal digits. */
  function NatText(n: nat): (s: string)
    ensures IsDigits(s)
  {
    if n < 10 then [DigitChar(n)] else NatText(n / 10) + [DigitChar(n % 10)]
  }

  /** Reading back the decimal digits of `n` gives `n`. */
  lemma {:induction false} NatTextValue(n: nat)
    ensures DigitsValue(NatText(n)) == n
  {
    var s := NatText(n);
    if n >= 10 {
      NatTextValue(n / 10);
      assert s[..|s| - 1] == NatText(n / 10);
    }
  }

  /** Text without white space at either end is its own trim. */
  lemma TrimUnspaced(s: string)
    requires s != [] && !IsSpace(s[0]) && !IsSpace(s[|s| - 1])
    ensures Trim(s) == s
  {
  }

  /** `Number(String(n)) === n`: line numbers that are plain numerals are read back as written. */
  lemma NumberOfNatText(n: nat)
    ensures NumberOf(Some(NatText(n))) == Some(n)
  {
    var s := NatText(n);
    TrimUnspaced(s);
    NatTextValue(n);
  }

  /** A leading zero does not change which number a line number names. */
  lemma LeadingZeroSameNumber(n: nat)
    ensures SameNumber(Some("0" + NatText(n)), Some(NatText(n)))
  {
    var s := NatText(n);
    var z := "0" + s;
    TrimUnspaced(s);
    TrimUnspaced(z);
    NatTextValue(n);
    assert IsDigits(z);
    ZeroPrefixValue(s);
  }

  /** A leading zero adds nothing to the value. */
  lemma {:induction false} ZeroPrefixValue(s: string)
    requires forall k :: 0 <= k < |s| ==> IsDigit(s[k])
    ensures DigitsValue("0" + s) == DigitsValue(s)
    decreases |s|
  {
    if s != [] {
      ZeroPrefixValue(s[..|s| - 1]);
      assert ("0" + s)[..|s|] == "0" + s[..|s| - 1];
    }
  }
}
