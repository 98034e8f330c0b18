/** The regular expressions of the front-end forms, as predicates over strings. */
module Patterns {
  import opened Text

  /**
   * A match of `\S+@\S+\.\S+` in `s` with the '@' at `at` and the '.' at
   * `dot`: one non-blank character before the '@', only non-blank
   * characters (at least one) between '@' and '.', one non-blank character
   * after the '.'. Longer runs on either side exist exactly when these do.
   */
  predicate EmailMatchAt(s: string, at: int, dot: int) {
    && 0 < at && at + 1 < dot && dot + 1 < |s|
    && s[at] == '@' && s[dot] == '.'
    && !IsSpace(s[at - 1]) && !IsSpace(s[dot + 1])
    && forall k :: at < k < dot ==> !IsSpace(s[k])
  }

  /** `/\S+@\S+\.\S+/.test(s)`: the pattern is not anchored, so it may match anywhere in `s`. */
  predicate HasEmailShape(s: string) {
    exists at, dot | 0 < at < |s| && 0 < dot < |s| :: EmailMatchAt(s, at, dot)
  }

  /** `/^\S+@\S+\.\S+$/.test(s)`: the whole of `s` is non-blank and has an '@' followed, later, by a '.', with characters around both. */
  predicate IsWholeEmail(s: string) {
    && NoSpace(s)
    && exists at, dot | 0 < at < |s| && 0 < dot < |s| ::
         at + 1 < dot && dot + 1 < |s| && s[at] == '@' && s[dot] == '.'
  }

  /** `/^\d{10}$/.test(s)` */
  predicate IsTenDigits(s: string) {
    |s| == 10 && forall i :: 0 <= i < |s| ==> IsDigit(s[i])
  }

  /** `/^[a-zA-Z\s]+$/.test(s)` */
  predicate IsLettersAndSpaces(s: string) {
    |s| > 0 && forall i :: 0 <= i < |s| ==> IsAsciiLetter(s[i]) || IsSpace(s[i])
  }

  /** `/^[a-zA-Z0-9_]+$/.test(s)` */
  predicate IsWord(s: string) {
    |s| > 0 && forall i :: 0 <= i < |s| ==> IsWordChar(s[i])
  }

  /** `(?=.*C)` tried at position `from`: a character of class C occurs at or after `from` with no line terminator in between. */
  predicate ReachesInLine(s: string, from: nat, cls: char -> bool) {
    exists k | from <= k < |s| ::
      cls(s[k]) && forall m :: from <= m < k ==> !IsLineTerminator(s[m])
  }

  /** `/(?=.*[a-z])(?=.*[A-Z])(?=.*\d)/.test(s)`: at some start position all three look-aheads succeed. */
  predicate HasLowerUpperDigit(s: string) {
    exists p | 0 <= p <= |s| ::
      ReachesInLine(s, p, IsAsciiLower) && ReachesInLine(s, p, IsAsciiUpper) && ReachesInLine(s, p, IsDigit)
  }

  predicate Occurs(s: string, cls: char -> bool) {
    exists i | 0 <= i < |s| :: cls(s[i])
  }

  /** A password accepted by the look-aheads has a lower-case letter, an upper-case letter and a digit... */
  lemma StrengthHasClasses(s: string)
    requires HasLowerUpperDigit(s)
    ensures Occurs(s, IsAsciiLower) && Occurs(s, IsAsciiUpper) && Occurs(s, IsDigit)
  {
    var p :| 0 <= p <= |s| && ReachesInLine(s, p, IsAsciiLower) && ReachesInLine(s, p, IsAsciiUpper) && ReachesInLine(s, p, IsDigit);
    var i :| p <= i < |s| && IsAsciiLower(s[i]) && forall m :: p <= m < i ==> !IsLineTerminator(s[m]);
    var j :| p <= j < |s| && IsAsciiUpper(s[j]) && forall m :: p <= m < j ==> !IsLineTerminator(s[m]);
    var k :| p <= k < |s| && IsDigit(s[k]) && forall m :: p <= m < k ==> !IsLineTerminator(s[m]);
  }

  /** ...and, for a password on one line, having the three classes is enough. */
  lemma SingleLineStrength(s: string)
    requires forall i :: 0 <= i < |s| ==> !IsLineTerminator(s[i])
    requires Occurs(s, IsAsciiLower) && Occurs(s, IsAsciiUpper) && Occurs(s, IsDigit)
    ensures HasLowerUpperDigit(s)
  {
    var i :| 0 <= i < |s| && IsAsciiLower(s[i]);
    var j :| 0 <= j < |s| && IsAsciiUpper(s[j]);
    var k :| 0 <= k < |s| && IsDigit(s[k]);
    assert ReachesInLine(s, 0, IsAsciiLower);
    assert ReachesInLine(s, 0, IsAsciiUpper);
    assert ReachesInLine(s, 0, IsDigit);
  }

  /** The line break blocks the look-aheads: "aB\n1" has all three classes and is still refused. */
  lemma LineBreakDefeatsStrength()
    ensures !HasLowerUpperDigit("aB\n1")
  {
    var s := "aB\n1";
    forall p | 0 <= p <= |s| ensures !(ReachesInLine(s, p, IsAsciiLower) && ReachesInLine(s, p, IsAsciiUpper) && ReachesInLine(s, p, IsDigit)) {
      assert s[2] == '\n' && s[3] == '1';
      if p <= 2 {
        assert IsLineTerminator(s[2]);
      } else {
        assert !IsAsciiLower(s[3]);
      }
    }
  }

  /** An address passing the anchored pattern passes the unanchored one and contains no white space at all. */
  lemma WholeEmailHasShape(s: string)
    requires IsWholeEmail(s)
    ensures HasEmailShape(s) && NoSpace(s) && Trim(s) == s
  {
    var at, dot :| 0 < at < |s| && 0 < dot < |s| && at + 1 < dot && dot + 1 < |s| && s[at] == '@' && s[dot] == '.';
    assert EmailMatchAt(s, at, dot);
    TrimNoSpace(s);
  }

  lemma EmailShapeFromTrim(s: string)
    requires HasEmailShape(Trim(s))
    ensures HasEmailShape(s)
  {
    var a, b := TrimSlice(s);
    var t := Trim(s);
    var at, dot :| 0 < at < |t| && 0 < dot < |t| && EmailMatchAt(t, at, dot);
    forall k | a + at < k < a + dot ensures !IsSpace(s[k]) {
      assert s[k] == t[k - a];
    }
    assert s[a + at] == t[at] && s[a + dot] == t[dot];
    assert s[a + at - 1] == t[at - 1] && s[a + dot + 1] == t[dot + 1];
    assert EmailMatchAt(s, a + at, a + dot);
  }

  lemma EmailShapeToTrim(s: string)
    requires HasEmailShape(s)
    ensures HasEmailShape(Trim(s))
  {
    var a, b := TrimSlice(s);
    var t := Trim(s);
    var at, dot :| 0 < at < |s| && 0 < dot < |s| && EmailMatchAt(s, at, dot);
    forall k | at - a < k < dot - a ensures !IsSpace(t[k]) {
      assert t[k] == s[k + a];
    }
    assert t[at - a] == s[at] && t[dot - a] == s[dot];
    assert t[at - a - 1] == s[at - 1] && t[dot - a + 1] == s[dot + 1];
    assert EmailMatchAt(t, at - a, dot - a);
  }

  /** Trimming neither creates nor destroys a match of the unanchored pattern: a match consists of non-blank characters. */
  lemma EmailShapeTrim(s: string)
    ensures HasEmailShape(Trim(s)) <==> HasEmailShape(s)
  {
    if HasEmailShape(Trim(s)) { EmailShapeFromTrim(s); }
    if HasEmailShape(s) { EmailShapeToTrim(s); }
  }

  /** Lower-casing keeps '@', '.' and white space where they are, so it keeps a match. */
  lemma EmailShapeToLower(s: string)
    requires HasEmailShape(s)
    ensures HasEmailShape(ToLower(s))
  {
    var at, dot :| 0 < at < |s| && 0 < dot < |s| && EmailMatchAt(s, at, dot);
    var l := ToLower(s);
    ToLowerAt(s);
    LowerCharSpace(s[at - 1]);
    LowerCharSpace(s[dot + 1]);
    forall k | at < k < dot ensures !IsSpace(l[k]) {
      LowerCharSpace(s[k]);
    }
    assert EmailMatchAt(l, at, dot);
  }
}
