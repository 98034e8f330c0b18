/**
 * The JavaScript string built-ins the application calls: `trim`,
 * `toLowerCase`, `includes`, and `replace` with a character-class pattern
 * and the global flag (a filter).
 */
module Text {

  /** The line terminators of JavaScript; `.` in a regular expression matches none of them. */
  predicate IsLineTerminator(c: char) {
    c == '\n' || c == '\r' || c == '\U{2028}' || c == '\U{2029}'
  }

  /**
   * The class `\s` of a JavaScript regular expression: white space and line
   * terminators. `String.prototype.trim` strips exactly the same characters.
   */
  predicate IsSpace(c: char) {
    || c == '\t' || c == '\U{000B}' || c == '\U{000C}' || c == ' '
    || c == '\U{00A0}' || c == '\U{FEFF}' || c == '\U{1680}'
    || ('\U{2000}' <= c <= '\U{200A}')
    || c == '\U{202F}' || c == '\U{205F}' || c == '\U{3000}'
    || IsLineTerminator(c)
  }

  /** `\d` */
  predicate IsDigit(c: char) { '0' <= c <= '9' }

  /** `[a-z]` */
  predicate IsAsciiLower(c: char) { 'a' <= c <= 'z' }

  /** `[A-Z]` */
  predicate IsAsciiUpper(c: char) { 'A' <= c <= 'Z' }

  /** `[a-zA-Z]` */
  predicate IsAsciiLetter(c: char) { IsAsciiLower(c) || IsAsciiUpper(c) }

  /** `[a-zA-Z0-9_]` */
  predicate IsWordChar(c: char) { IsAsciiLetter(c) || IsDigit(c) || c == '_' }

  predicate NoSpace(s: string) {
    forall i :: 0 <= i < |s| ==> !IsSpace(s[i])
  }

  predicate AllSpace(s: string) {
    forall i :: 0 <= i < |s| ==> IsSpace(s[i])
  }

  /** `s.trimStart()`: drops the leading white space (see `TrimStartSpace`), and only that. */
  function TrimStart(s: string): (r: string)
    ensures |r| <= |s|
    decreases |s|
  {
    if s != [] && IsSpace(s[0]) then TrimStart(s[1..]) else s
  }

  /** `trimStart` returns a suffix of its argument that does not start with white space. */
  lemma {:induction false} TrimStartSuffix(s: string)
    ensures TrimStart(s) == s[|s| - |TrimStart(s)|..]
    ensures TrimStart(s) == [] || !IsSpace(TrimStart(s)[0])
    decreases |s|
  {
    if s != [] && IsSpace(s[0]) {
      TrimStartSuffix(s[1..]);
    }
  }

  /** `s.trimEnd()`: drops the trailing white space (see `TrimEndSpace`), and only that. */
  function TrimEnd(s: string): (r: string)
    ensures |r| <= |s|
    decreases |s|
  {
    if s != [] && IsSpace(s[|s| - 1]) then TrimEnd(s[..|s| - 1]) else s
  }

  /** `trimEnd` returns a prefix of its argument that does not end with white space. */
  lemma {:induction false} TrimEndPrefix(s: string)
    ensures TrimEnd(s) == s[..|TrimEnd(s)|]
    ensures TrimEnd(s) == [] || !IsSpace(TrimEnd(s)[|TrimEnd(s)| - 1])
    decreases |s|
  {
    if s != [] && IsSpace(s[|s| - 1]) {
      TrimEndPrefix(s[..|s| - 1]);
    }
  }

  /** What `trimStart` drops is white space. */
  lemma {:induction false} TrimStartSpace(s: string)
    ensures forall i :: 0 <= i < |s| - |TrimStart(s)| ==> IsSpace(s[i])
    decreases |s|
  {
    if s != [] && IsSpace(s[0]) {
      TrimStartSpace(s[1..]);
      forall i | 1 <= i < |s| - |TrimStart(s)| ensures IsSpace(s[i]) {
        assert s[i] == s[1..][i - 1];
      }
    }
  }

  /** What `trimEnd` drops is white space. */
  lemma {:induction false} TrimEndSpace(s: string)
    ensures forall i :: |TrimEnd(s)| <= i < |s| ==> IsSpace(s[i])
    decreases |s|
  {
    if s != [] && IsSpace(s[|s| - 1]) {
      TrimEndSpace(s[..|s| - 1]);
      forall i | |TrimEnd(s)| <= i < |s| - 1 ensures IsSpace(s[i]) {
        assert s[i] == s[..|s| - 1][i];
      }
    }
  }

  /** `s.trim()` */
  function Trim(s: string): string {
    TrimEnd(TrimStart(s))
  }

  /** `s.trim()` is a slice of `s` with only white space cut off either end, and it neither starts nor ends with white space. */
  lemma TrimSlice(s: string) returns (a: nat, b: nat)
    ensures a <= b <= |s| && Trim(s) == s[a..b]
    ensures AllSpace(s[..a]) && AllSpace(s[b..])
    ensures forall i :: 0 <= i < a ==> IsSpace(s[i])
    ensures forall i :: b <= i < |s| ==> IsSpace(s[i])
    ensures Trim(s) == [] || (!IsSpace(Trim(s)[0]) && !IsSpace(Trim(s)[|Trim(s)| - 1]))
  {
    var t := TrimStart(s);
    TrimStartSuffix(s);
    TrimEndPrefix(t);
    a := |s| - |t|;
    b := a + |Trim(s)|;
    assert t == s[a..];
    assert Trim(s) == t[..|Trim(s)|];
    TrimStartSpace(s);
    TrimEndSpace(t);
    forall i | b <= i < |s| ensures IsSpace(s[i]) {
      assert s[i] == t[i - a];
    }
  }

  /** `!s.trim()` holds exactly when `s` is all white space. */
  lemma TrimEmptyIff(s: string)
    ensures Trim(s) == [] <==> AllSpace(s)
  {
    var a, b := TrimSlice(s);
    if Trim(s) == [] {
      assert a == b;
    }
  }

  /** A string with no white space at all is its own trim. */
  lemma TrimNoSpace(s: string)
    requires NoSpace(s)
    ensures Trim(s) == s
  {
    var a, b := TrimSlice(s);
  }

  /** Trimming twice is trimming once. */
  lemma TrimIdempotent(s: string)
    ensures Trim(Trim(s)) == Trim(s)
  {
    var t := Trim(s);
    var a, b := TrimSlice(s);
    var c, d := TrimSlice(t);
  }

  /** A string with no white space at either end. */
  predicate Trimmed(s: string) {
    s == [] || (!IsSpace(s[0]) && !IsSpace(s[|s| - 1]))
  }

  /** `trim` leaves a string with no white space at either end alone... */
  lemma TrimTrimmed(s: string)
    requires Trimmed(s)
    ensures Trim(s) == s
  {
    assert TrimStart(s) == s;
    assert TrimEnd(s) == s;
  }

  /** ...and every string it returns is one. */
  lemma TrimIsTrimmed(s: string)
    ensures Trimmed(Trim(s))
  {
    var a, b := TrimSlice(s);
  }

  /** The strings `trim` leaves alone are exactly those with no white space at either end. */
  lemma TrimmedIff(s: string)
    ensures Trimmed(s) <==> Trim(s) == s
  {
    if Trimmed(s) { TrimTrimmed(s); }
    TrimIsTrimmed(s);
  }

  /** The ASCII lower-case form of one character; every other character is kept. */
  function LowerChar(c: char): (r: char)
    ensures IsAsciiUpper(c) ==> IsAsciiLower(r) && r as int - 'a' as int == c as int - 'A' as int
    ensures !IsAsciiUpper(c) ==> r == c
  {
    if IsAsciiUpper(c) then (c as int + 32) as char else c
  }

  /** `s.toLowerCase()`, restricted to ASCII letters. */
  function ToLower(s: string): (r: string)
    ensures |r| == |s|
  {
    if s == [] then [] else [LowerChar(s[0])] + ToLower(s[1..])
  }

  /** `toLowerCase` works character by character. */
  lemma {:induction false} ToLowerAt(s: string)
    ensures forall i :: 0 <= i < |s| ==> ToLower(s)[i] == LowerChar(s[i])
  {
    if s != [] {
      ToLowerAt(s[1..]);
      forall i | 1 <= i < |s| ensures ToLower(s)[i] == LowerChar(s[i]) {
        assert ToLower(s)[i] == ToLower(s[1..])[i - 1];
      }
    }
  }

  /** A lower-cased string has no upper-case letter, so lower-casing it again changes nothing. */
  lemma ToLowerIdempotent(s: string)
    ensures ToLower(ToLower(s)) == ToLower(s)
  {
    var l := ToLower(s);
    ToLowerAt(s);
    ToLowerAt(l);
    assert forall i :: 0 <= i < |l| ==> LowerChar(l[i]) == l[i];
  }

  /** No ASCII upper-case letter. */
  predicate NoUpper(s: string) {
    forall i :: 0 <= i < |s| ==> !IsAsciiUpper(s[i])
  }

  /** The strings `toLowerCase` leaves alone are exactly those without an upper-case letter, and its results are among them. */
  lemma NoUpperIff(s: string)
    ensures NoUpper(s) <==> ToLower(s) == s
    ensures NoUpper(ToLower(s))
  {
    ToLowerAt(s);
    if ToLower(s) == s {
      forall i | 0 <= i < |s| ensures !IsAsciiUpper(s[i]) {
        assert ToLower(s)[i] == LowerChar(s[i]);
      }
    }
  }

  /** A lower-case letter appears in a lower-cased string only where it, or its capital, appeared before. */
  lemma NotInToLower(s: string, c: char)
    requires IsAsciiLower(c) && c !in s && (c as int - 32) as char !in s
    ensures c !in ToLower(s)
  {
    ToLowerAt(s);
    forall i | 0 <= i < |s| ensures ToLower(s)[i] != c {
      assert s[i] != c && s[i] != (c as int - 32) as char;
    }
  }

  lemma LowerCharSpace(c: char)
    ensures IsSpace(LowerChar(c)) <==> IsSpace(c)
  {
  }

  /** Lower-casing keeps white space where it is, so it commutes with the one-sided trims. */
  lemma {:induction false} TrimStartToLower(s: string)
    ensures TrimStart(ToLower(s)) == ToLower(TrimStart(s))
    decreases |s|
  {
    if s != [] {
      var l := ToLower(s);
      assert l[1..] == ToLower(s[1..]);
      LowerCharSpace(s[0]);
      if IsSpace(s[0]) { TrimStartToLower(s[1..]); }
    }
  }

  lemma {:induction false} TrimEndToLower(s: string)
    ensures TrimEnd(ToLower(s)) == ToLower(TrimEnd(s))
    decreases |s|
  {
    if s != [] {
      var n := |s| - 1;
      var l := ToLower(s);
      ToLowerAt(s);
      ToLowerAt(s[..n]);
      assert l[..n] == ToLower(s[..n]);
      LowerCharSpace(s[n]);
      if IsSpace(s[n]) { TrimEndToLower(s[..n]); }
    }
  }

  /** `s.toLowerCase().trim() == s.trim().toLowerCase()` */
  lemma TrimToLower(s: string)
    ensures Trim(ToLower(s)) == ToLower(Trim(s))
  {
    TrimStartToLower(s);
    TrimEndToLower(TrimStart(s));
  }

  /** `s.replace(/[^K]/g, '')` for a character class K: the characters of `s` in K, in order. */
  function Filter(s: string, keep: char -> bool): (r: string)
    ensures |r| <= |s|
    ensures forall i :: 0 <= i < |r| ==> keep(r[i])
    ensures forall c :: c in r ==> c in s
    ensures (forall i :: 0 <= i < |s| ==> keep(s[i])) ==> r == s
  {
    if s == [] then []
    else (if keep(s[0]) then [s[0]] else []) + Filter(s[1..], keep)
  }

  lemma {:induction false} FilterAppend(a: string, b: string, keep: char -> bool)
    ensures Filter(a + b, keep) == Filter(a, keep) + Filter(b, keep)
  {
    if a != [] {
      var head := if keep(a[0]) then [a[0]] else [];
      assert (a + b)[0] == a[0];
      assert (a + b)[1..] == a[1..] + b;
      calc {
        Filter(a + b, keep);
        head + Filter(a[1..] + b, keep);
        { FilterAppend(a[1..], b, keep); }
        head + (Filter(a[1..], keep) + Filter(b, keep));
        (head + Filter(a[1..], keep)) + Filter(b, keep);
        Filter(a, keep) + Filter(b, keep);
      }
    } else {
      assert a + b == b;
    }
  }

  /** `s.replace(/\D/g, '')` */
  function DigitsOnly(s: string): (r: string)
    ensures forall i :: 0 <= i < |r| ==> IsDigit(r[i])
  {
    Filter(s, IsDigit)
  }

  lemma {:induction false} SpacesHaveNoDigits(s: string)
    requires AllSpace(s)
    ensures DigitsOnly(s) == []
  {
    if s != [] {
      assert !IsDigit(s[0]);
      assert AllSpace(s[1..]);
      SpacesHaveNoDigits(s[1..]);
    }
  }

  lemma FilterMiddle(front: string, middle: string, back: string, keep: char -> bool)
    requires Filter(front, keep) == [] && Filter(back, keep) == []
    ensures Filter(front + middle + back, keep) == Filter(middle, keep)
  {
    FilterAppend(front, middle, keep);
    FilterAppend(front + middle, back, keep);
  }

  /** Stripping the non-digits makes trimming first irrelevant. */
  lemma DigitsOnlyTrim(s: string)
    ensures DigitsOnly(Trim(s)) == DigitsOnly(s)
  {
    var a, b := TrimSlice(s);
    var front, middle, back := s[..a], s[a..b], s[b..];
    assert s == front + middle + back;
    SpacesHaveNoDigits(front);
    SpacesHaveNoDigits(back);
    FilterMiddle(front, middle, back, IsDigit);
  }

  /** `s.slice(-n)` for n > 0: the last n characters, or all of `s` when it is shorter. */
  function Last(s: string, n: nat): (r: string)
    ensures |r| == if |s| < n then |s| else n
    ensures r == s[|s| - |r|..]
  {
    if |s| <= n then s else s[|s| - n..]
  }

  /** `s.includes(sub)` */
  predicate Contains(s: string, sub: string)
    decreases |s|
  {
    sub <= s || (s != [] && Contains(s[1..], sub))
  }

  /** `includes` finds `sub` when it sits at some position of `s`; with the converse below, `Contains` is substring search. */
  lemma {:induction false} ContainsAt(s: string, sub: string, i: nat)
    requires i + |sub| <= |s| && s[i..i + |sub|] == sub
    ensures Contains(s, sub)
    decreases i
  {
    if i == 0 {
      assert sub == s[..|sub|];
    } else {
      assert s[1..][i - 1..i - 1 + |sub|] == s[i..i + |sub|];
      ContainsAt(s[1..], sub, i - 1);
    }
  }

  lemma {:induction false} ContainsWitness(s: string, sub: string) returns (i: nat)
    requires Contains(s, sub)
    ensures i + |sub| <= |s| && s[i..i + |sub|] == sub
    decreases |s|
  {
    if sub <= s {
      i := 0;
    } else {
      var j := ContainsWitness(s[1..], sub);
      i := j + 1;
      assert s[1..][j..j + |sub|] == s[i..i + |sub|];
    }
  }

  /** A string that `includes` `sub` has every character of `sub`; so one missing character rules the match out. */
  lemma ContainsHasChars(s: string, sub: string, c: char)
    requires Contains(s, sub) && c in sub
    ensures c in s
  {
    var i := ContainsWitness(s, sub);
    var j :| 0 <= j < |sub| && sub[j] == c;
    assert s[i + j] == s[i..i + |sub|][j];
  }

  /** Removing what K1 rejects first changes nothing for a narrower class K2. */
  lemma {:induction false} FilterFilter(s: string, k1: char -> bool, k2: char -> bool)
    requires forall c :: k2(c) ==> k1(c)
    ensures Filter(Filter(s, k1), k2) == Filter(s, k2)
  {
    if s != [] {
      var head := if k1(s[0]) then [s[0]] else [];
      FilterAppend(head, Filter(s[1..], k1), k2);
      FilterFilter(s[1..], k1, k2);
      if k1(s[0]) {
        assert Filter(head, k2) == (if k2(s[0]) then [s[0]] else []) by {
          assert head[1..] == [];
        }
      }
    }
  }
}
