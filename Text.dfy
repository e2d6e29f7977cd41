/**
 * Character classes and string operations of JavaScript that the checker
 * relies on, written out character by character: the `\s` class, ASCII
 * letters and word characters, lexicographic string comparison, global
 * literal replacement, `trim`, and ASCII case-insensitive search.
 */
module Text {
  import opened Wrappers


  /** JavaScript's `\s`: the WhiteSpace and LineTerminator code points. */
  predicate IsSpace(c: char) {
    c == ' ' || c == '\t' || c == '\n' || c == '\r' || c == '\U{000B}' || c == '\U{000C}'
    || c == '\U{00A0}' || c == '\U{1680}' || ('\U{2000}' <= c <= '\U{200A}')
    || c == '\U{2028}' || c == '\U{2029}' || c == '\U{202F}' || c == '\U{205F}'
    || c == '\U{3000}' || c == '\U{FEFF}'
  }

  /** The characters a regular-expression `.` does not match. */
  predicate IsLineTerminator(c: char) {
    c == '\n' || c == '\r' || c == '\U{2028}' || c == '\U{2029}'
  }

  /** `[a-zA-Z]` */
  predicate IsAsciiLetter(c: char) {
    ('a' <= c <= 'z') || ('A' <= c <= 'Z')
  }

  /** `[0-9]` */
  predicate IsDigit(c: char) {
    '0' <= c <= '9'
  }

  /** `[a-zA-Z0-9_]`, the characters of an identifier and of `\w`. */
  predicate IsWordChar(c: char) {
    IsAsciiLetter(c) || IsDigit(c) || c == '_'
  }

  /** `[a-zA-Z][a-zA-Z0-9_]*` matched by the whole string. */
  predicate IsIdentifier(s: string) {
    |s| > 0 && IsAsciiLetter(s[0]) && forall k :: 1 <= k < |s| ==> IsWordChar(s[k])
  }

  /** Every character is matched by a regular-expression `.`. */
  predicate AllDotChars(s: string) {
    forall k :: 0 <= k < |s| ==> !IsLineTerminator(s[k])
  }

  /** `s.startsWith(p, i)` */
  predicate StartsWithAt(s: string, p: string, i: nat) {
    i + |p| <= |s| && forall k :: 0 <= k < |p| ==> s[i + k] == p[k]
  }

  /** `s.replace(/\s+/g, "")` */
  function StripSpaces(s: string): (r: string)
    ensures forall k :: 0 <= k < |r| ==> !IsSpace(r[k]) && r[k] in s
    ensures (forall k :: 0 <= k < |s| ==> !IsSpace(s[k])) ==> r == s
  {
    if s == [] then []
    else if IsSpace(s[0]) then StripSpaces(s[1..])
    else [s[0]] + StripSpaces(s[1..])
  }

  /** Index of the first pattern of `pats`, from the `j`-th on, that occurs in `s` at `i`; `|pats|` when none does. */
  function MatchAt(s: string, i: nat, pats: seq<string>, j: nat): (k: nat)
    requires j <= |pats|
    ensures j <= k <= |pats|
    ensures k < |pats| ==> StartsWithAt(s, pats[k], i)
    ensures forall m :: j <= m < k ==> !StartsWithAt(s, pats[m], i)
    decreases |pats| - j
  {
    if j == |pats| then j
    else if StartsWithAt(s, pats[j], i) then j
    else MatchAt(s, i, pats, j + 1)
  }

  /**
   * `s.replace(/p1|p2|.../g, rep)` for literal, non-empty patterns: the
   * string is scanned left to right, the first alternative that matches at
   * a position is replaced and scanning resumes after it.
   */
  function ReplaceAll(s: string, pats: seq<string>, rep: string): string
    requires forall j :: 0 <= j < |pats| ==> |pats[j]| > 0
    decreases |s|
  {
    if s == [] then []
    else
      var k := MatchAt(s, 0, pats, 0);
      if k < |pats| then rep + ReplaceAll(s[|pats[k]|..], pats, rep)
      else [s[0]] + ReplaceAll(s[1..], pats, rep)
  }

  /** No single-character pattern of `pats` is `c`. */
  predicate NotOneCharPattern(c: char, pats: seq<string>) {
    forall j :: 0 <= j < |pats| && |pats[j]| == 1 ==> pats[j][0] != c
  }

  /**
   * Every character of a replacement's result comes from the replacement
   * text or from the input, and a character that is itself one of the
   * single-character patterns never survives.
   */
  lemma {:induction false} ReplaceAllChars(s: string, pats: seq<string>, rep: string, c: char)
    requires forall j :: 0 <= j < |pats| ==> |pats[j]| > 0
    requires c in ReplaceAll(s, pats, rep)
    ensures c in rep || (c in s && NotOneCharPattern(c, pats))
    decreases |s|
  {
    var k := MatchAt(s, 0, pats, 0);
    if k < |pats| {
      if c !in rep {
        var u := s[|pats[k]|..];
        ReplaceAllChars(u, pats, rep, c);
        var m :| 0 <= m < |u| && u[m] == c;
        assert s[|pats[k]| + m] == c;
      }
    } else if c != s[0] && c !in rep {
      var u := s[1..];
      ReplaceAllChars(u, pats, rep, c);
      var m :| 0 <= m < |u| && u[m] == c;
      assert s[1 + m] == c;
    } else if c !in rep {
      forall j | 0 <= j < |pats| && |pats[j]| == 1 ensures pats[j][0] != c {
        assert !StartsWithAt(s, pats[j], 0);
      }
    }
  }

  /** Every pattern is a single character, as in all of `normalize`'s replacements. */
  predicate OneCharPatterns(pats: seq<string>) {
    forall j :: 0 <= j < |pats| ==> |pats[j]| == 1
  }

  /** With single-character patterns the first character is replaced or kept on its own. */
  lemma ReplaceAllCons(c: char, t: string, pats: seq<string>, rep: string)
    requires OneCharPatterns(pats)
    ensures ReplaceAll([c] + t, pats, rep) == (if NotOneCharPattern(c, pats) then [c] else rep) + ReplaceAll(t, pats, rep)
  {
    var s := [c] + t;
    var k := MatchAt(s, 0, pats, 0);
    if NotOneCharPattern(c, pats) {
      forall j | 0 <= j < |pats| ensures !StartsWithAt(s, pats[j], 0) {
        assert s[0 + 0] == c;
      }
      assert k == |pats|;
    } else {
      var j :| 0 <= j < |pats| && |pats[j]| == 1 && pats[j][0] == c;
      assert StartsWithAt(s, pats[j], 0) by { assert s[0 + 0] == c; }
      assert k <= j < |pats|;
    }
    assert s[1..] == t;
  }

  /** With single-character patterns, replacing distributes over concatenation. */
  lemma {:induction false} ReplaceAllConcat(x: string, y: string, pats: seq<string>, rep: string)
    requires OneCharPatterns(pats)
    ensures ReplaceAll(x + y, pats, rep) == ReplaceAll(x, pats, rep) + ReplaceAll(y, pats, rep)
    decreases |x|
  {
    if x == [] {
      assert x + y == y;
    } else {
      assert x == [x[0]] + x[1..];
      ReplaceAllConcat(x[1..], y, pats, rep);
      ReplaceAllConcatStep(x[0], x[1..], y, pats, rep);
    }
  }

  /** The inductive step of ReplaceAllConcat: from `u` to `[c] + u`. */
  lemma ReplaceAllConcatStep(c: char, u: string, y: string, pats: seq<string>, rep: string)
    requires OneCharPatterns(pats)
    requires ReplaceAll(u + y, pats, rep) == ReplaceAll(u, pats, rep) + ReplaceAll(y, pats, rep)
    ensures ReplaceAll([c] + u + y, pats, rep) == ReplaceAll([c] + u, pats, rep) + ReplaceAll(y, pats, rep)
  {
    var h := if NotOneCharPattern(c, pats) then [c] else rep;
    AppendAssoc([c], u, y);
    ReplaceAllCons(c, u + y, pats, rep);
    ReplaceAllCons(c, u, pats, rep);
    AppendAssoc(h, ReplaceAll(u, pats, rep), ReplaceAll(y, pats, rep));
  }

  lemma AppendAssoc<T>(h: seq<T>, a: seq<T>, b: seq<T>)
    ensures h + (a + b) == (h + a) + b
  {
  }

  /** A string none of whose characters is a single-character pattern is left unchanged. */
  lemma {:induction false} ReplaceAllUntouched(s: string, pats: seq<string>, rep: string)
    requires OneCharPatterns(pats)
    requires forall k :: 0 <= k < |s| ==> NotOneCharPattern(s[k], pats)
    ensures ReplaceAll(s, pats, rep) == s
    decreases |s|
  {
    if s != [] {
      assert s == [s[0]] + s[1..];
      ReplaceAllCons(s[0], s[1..], pats, rep);
      ReplaceAllUntouched(s[1..], pats, rep);
    }
  }

  /** No pattern occurs anywhere in `s`. */
  predicate NoPatternIn(s: string, pats: seq<string>) {
    forall i, j :: 0 <= i < |s| && 0 <= j < |pats| ==> !StartsWithAt(s, pats[j], i)
  }

  /** Replacing patterns that occur nowhere leaves the string unchanged. */
  lemma {:induction false} ReplaceAllNoMatch(s: string, pats: seq<string>, rep: string)
    requires forall j :: 0 <= j < |pats| ==> |pats[j]| > 0
    requires NoPatternIn(s, pats)
    ensures ReplaceAll(s, pats, rep) == s
    decreases |s|
  {
    if s != [] {
      assert MatchAt(s, 0, pats, 0) == |pats|;
      var t := s[1..];
      forall i, j | 0 <= i < |t| && 0 <= j < |pats| ensures !StartsWithAt(t, pats[j], i) {
        StartsWithTail(s, pats[j], i);
      }
      ReplaceAllNoMatch(t, pats, rep);
      assert s == [s[0]] + t;
    }
  }

  /** A pattern starts at `i` in the tail of `s` exactly when it starts at `i + 1` in `s`. */
  lemma StartsWithTail(s: string, p: string, i: nat)
    requires s != []
    ensures StartsWithAt(s[1..], p, i) <==> StartsWithAt(s, p, i + 1)
  {
    var t := s[1..];
    if StartsWithAt(s, p, i + 1) {
      forall k | 0 <= k < |p| ensures t[i + k] == p[k] {
        assert s[i + 1 + k] == p[k];
      }
    }
    if StartsWithAt(t, p, i) {
      forall k | 0 <= k < |p| ensures s[i + 1 + k] == p[k] {
        assert t[i + k] == p[k];
      }
    }
  }

  /** A pattern with a character that does not occur in `s` occurs nowhere in it. */
  lemma NoStartsWith(s: string, p: string, m: nat)
    requires m < |p| && forall k :: 0 <= k < |s| ==> s[k] != p[m]
    ensures forall i :: 0 <= i < |s| ==> !StartsWithAt(s, p, i)
  {
    forall i | 0 <= i < |s| ensures !StartsWithAt(s, p, i) {
      if i + m < |s| {
        assert s[i + m] != p[m];
      }
    }
  }

  /** `s.trim()`: leading and trailing `\s` characters removed. */
  function Trim(s: string): (r: string)
    ensures |r| <= |s|
    ensures r != [] ==> !IsSpace(r[0]) && !IsSpace(r[|r| - 1])
  {
    TrimEnd(TrimStart(s))
  }

  function TrimStart(s: string): (r: string)
    ensures |r| <= |s|
    ensures r != [] ==> !IsSpace(r[0])
    ensures r == s[|s| - |r|..]
  {
    if s != [] && IsSpace(s[0]) then TrimStart(s[1..]) else s
  }

  function TrimEnd(s: string): (r: string)
    ensures |r| <= |s|
    ensures r != [] ==> !IsSpace(r[|r| - 1])
    ensures r == s[..|r|]
  {
    if s != [] && IsSpace(s[|s| - 1]) then TrimEnd(s[..|s| - 1]) else s
  }

  /** ASCII lower-casing, which is what a `/i` match of an ASCII pattern compares by. */
  function LowerAscii(c: char): char {
    if 'A' <= c <= 'Z' then (c as int + 32) as char else c
  }

  /** The lower-case ASCII word `w` occurs in `s` at `i`, ignoring ASCII case. */
  predicate MatchesAtCI(s: string, i: nat, w: string) {
    i + |w| <= |s| && forall j :: 0 <= j < |w| ==> LowerAscii(s[i + j]) == w[j]
  }

  /** Position after the run of `\s` characters that starts at `i`. */
  function SkipSpaces(s: string, i: nat): (j: nat)
    requires i <= |s|
    ensures i <= j <= |s|
    ensures forall k :: i <= k < j ==> IsSpace(s[k])
    ensures j < |s| ==> !IsSpace(s[j])
    decreases |s| - i
  {
    if i < |s| && IsSpace(s[i]) then SkipSpaces(s, i + 1) else i
  }

  /**
   * Where a match of `w1\s*w2\s*...` that starts at `i` ends, ignoring
   * ASCII case. The words begin with letters, so `\s*` can only take the
   * whole run of white space before the next word.
   */
  function MatchWordsAt(s: string, i: nat, words: seq<string>): (r: Option<nat>)
    requires i <= |s|
    ensures r.Some? ==> i <= r.value <= |s|
    decreases words
  {
    if words == [] then Some(i)
    else if !MatchesAtCI(s, i, words[0]) then None
    else if |words| == 1 then Some(i + |words[0]|)
    else MatchWordsAt(s, SkipSpaces(s, i + |words[0]|), words[1..])
  }

  /** `/w1\s*w2/i.test(s)`: a match starts somewhere in `s`. */
  predicate ContainsWordsCI(s: string, words: seq<string>) {
    exists i :: 0 <= i <= |s| && MatchWordsAt(s, i, words).Some?
  }

  /** `/^w1\s*w2$/i.test(s)`: a match covers all of `s`. */
  predicate IsWordsCI(s: string, words: seq<string>) {
    MatchWordsAt(s, 0, words) == Some(|s|)
  }

  /** `/\bw\b/i.test(s)` for a word `w` of word characters. */
  predicate ContainsWholeWordCI(s: string, w: string) {
    exists i :: 0 <= i <= |s| && MatchesAtCI(s, i, w)
      && (i == 0 || !IsWordChar(s[i - 1]))
      && (i + |w| == |s| || !IsWordChar(s[i + |w|]))
  }

  // Lexicographic order on strings, as JavaScript's `<=` compares them.

  /** `a <= b` on strings. */
  predicate LexLe(a: string, b: string)
    decreases |a|
  {
    |a| == 0 || (|b| > 0 && (a[0] < b[0] || (a[0] == b[0] && LexLe(a[1..], b[1..]))))
  }

  lemma {:induction false} LexLeTotal(a: string, b: string)
    ensures LexLe(a, b) || LexLe(b, a)
    decreases |a|
  {
    if |a| > 0 && |b| > 0 && a[0] == b[0] {
      LexLeTotal(a[1..], b[1..]);
    }
  }

  lemma {:induction false} LexLeAntisymmetric(a: string, b: string)
    requires LexLe(a, b) && LexLe(b, a)
    ensures a == b
    decreases |a|
  {
    if |a| > 0 {
      LexLeAntisymmetric(a[1..], b[1..]);
      assert a == [a[0]] + a[1..] && b == [b[0]] + b[1..];
    }
  }

  lemma {:induction false} LexLeTransitive(a: string, b: string, c: string)
    requires LexLe(a, b) && LexLe(b, c)
    ensures LexLe(a, c)
    decreases |a|
  {
    if |a| > 0 && a[0] == b[0] && b[0] == c[0] {
      LexLeTransitive(a[1..], b[1..], c[1..]);
    }
  }

  lemma {:induction false} LexLeReflexive(a: string)
    ensures LexLe(a, a)
    decreases |a|
  {
    if |a| > 0 {
      LexLeReflexive(a[1..]);
    }
  }
}
