/**
 The JavaScript string operations the script relies on: `trim`, `includes`,
 `startsWith`, `endsWith`, and the UTF-16 length that regular expressions
 without the `u` flag count in. A JavaScript string is modelled as a
 sequence of Unicode scalar values; a scalar above U+FFFF stands for the two
 code units of its surrogate pair.
 */
module JsText {

  /** LineTerminator of ECMA-262 (section 12.3): what `.` in a regular expression does not match. */
  predicate IsLineTerminator(c: char) {
    c == '\n' || c == '\r' || c == '\U{2028}' || c == '\U{2029}'
  }

  /** WhiteSpace of ECMA-262 (section 12.2): TAB, VT, FF, ZWNBSP and the space separators (Zs). */
  predicate IsWhiteSpace(c: char) {
    || c == '\t' || c == '\U{000B}' || c == '\U{000C}' || c == '\U{FEFF}'
    || c == ' ' || c == '\U{00A0}' || c == '\U{1680}'
    || ('\U{2000}' <= c <= '\U{200A}')
    || c == '\U{202F}' || c == '\U{205F}' || c == '\U{3000}'
  }

  /** What `String.prototype.trim` strips from both ends. */
  predicate IsTrimmable(c: char) {
    IsWhiteSpace(c) || IsLineTerminator(c)
  }

  predicate AllTrimmable(s: string) {
    forall k | 0 <= k < |s| :: IsTrimmable(s[k])
  }

  /** `r` is `s` with trimmable prefix `s[..i]` and trimmable suffix `s[j..]` removed, and cannot be trimmed further. */
  predicate IsTrimOf(s: string, i: int, j: int)
    requires 0 <= i <= j <= |s|
  {
    && AllTrimmable(s[..i])
    && AllTrimmable(s[j..])
    && (i == j || (!IsTrimmable(s[i]) && !IsTrimmable(s[j - 1])))
  }

  /** Number of trimmable characters at the front of `s`. */
  function LeadingTrimmable(s: string): (n: nat)
    ensures n <= |s|
  {
    if |s| > 0 && IsTrimmable(s[0]) then 1 + LeadingTrimmable(s[1..]) else 0
  }

  /** Number of trimmable characters at the back of `s`. */
  function TrailingTrimmable(s: string): (n: nat)
    ensures n <= |s|
  {
    if |s| > 0 && IsTrimmable(s[|s| - 1]) then 1 + TrailingTrimmable(s[..|s| - 1]) else 0
  }

  /** `LeadingTrimmable` counts the longest trimmable prefix. */
  lemma {:induction false} LeadingTrimmableIsMaximal(s: string)
    ensures var n := LeadingTrimmable(s);
            AllTrimmable(s[..n]) && (n < |s| ==> !IsTrimmable(s[n]))
  {
    if |s| > 0 && IsTrimmable(s[0]) {
      LeadingTrimmableIsMaximal(s[1..]);
      var n := LeadingTrimmable(s);
      assert s[..n] == [s[0]] + s[1..][..n - 1];
    }
  }

  /** `TrailingTrimmable` counts the longest trimmable suffix. */
  lemma {:induction false} TrailingTrimmableIsMaximal(s: string)
    ensures var n := TrailingTrimmable(s);
            AllTrimmable(s[|s| - n..]) && (n < |s| ==> !IsTrimmable(s[|s| - n - 1]))
  {
    if |s| > 0 && IsTrimmable(s[|s| - 1]) {
      var init := s[..|s| - 1];
      TrailingTrimmableIsMaximal(init);
      var n := TrailingTrimmable(s);
      assert s[|s| - n..] == init[|init| - (n - 1)..] + [s[|s| - 1]];
    }
  }

  /** `String.prototype.trim`: what is left of `s` once whitespace and line terminators are removed from both ends. */
  function Trim(s: string): (r: string)
    ensures |r| <= |s|
  {
    var i := LeadingTrimmable(s);
    s[i..|s| - TrailingTrimmable(s[i..])]
  }

  /** `Trim` removes a trimmable prefix and a trimmable suffix and leaves no trimmable character at either end. */
  lemma TrimCharacterised(s: string)
    ensures exists i, j | 0 <= i <= j <= |s| :: IsTrimOf(s, i, j) && Trim(s) == s[i..j]
  {
    var i := LeadingTrimmable(s);
    var rest := s[i..];
    var n := TrailingTrimmable(rest);
    var j := |s| - n;
    LeadingTrimmableIsMaximal(s);
    TrailingTrimmableIsMaximal(rest);
    assert rest[|rest| - n..] == s[j..];
    assert i < j ==> rest[|rest| - n - 1] == s[j - 1] && rest[0] == s[i];
    assert IsTrimOf(s, i, j);
  }

  /** The trim of a string is determined by the characterisation in `IsTrimOf`: any cut that satisfies it is the trim. */
  lemma TrimUnique(s: string, i: int, j: int)
    requires 0 <= i <= j <= |s|
    requires IsTrimOf(s, i, j)
    ensures Trim(s) == s[i..j]
  {
    var r := Trim(s);
    TrimCharacterised(s);
    var i', j' :| 0 <= i' <= j' <= |s| && IsTrimOf(s, i', j') && r == s[i'..j'];
    // two cuts with non-trimmable ends inside trimmable margins must coincide
    assert s[i..j] == s[i'..j'];
  }

  /** Trimming twice changes nothing. */
  lemma TrimIdempotent(s: string)
    ensures Trim(Trim(s)) == Trim(s)
  {
    var r := Trim(s);
    TrimCharacterised(s);
    var i, j :| 0 <= i <= j <= |s| && IsTrimOf(s, i, j) && r == s[i..j];
    assert r[..0] == [] && r[|r|..] == [];
    assert IsTrimOf(r, 0, |r|);
    TrimUnique(r, 0, |r|);
  }

  /** A value trims to the empty string (the falsy `''`) exactly when it consists of whitespace and line terminators only. */
  lemma TrimEmptyIff(s: string)
    ensures Trim(s) == [] <==> AllTrimmable(s)
  {
    var r := Trim(s);
    TrimCharacterised(s);
    var i, j :| 0 <= i <= j <= |s| && IsTrimOf(s, i, j) && r == s[i..j];
    if r == [] {
      forall k | 0 <= k < |s| ensures IsTrimmable(s[k]) {
        if k < i { assert s[..i][k] == s[k]; } else { assert s[j..][k - j] == s[k]; }
      }
    }
  }

  /** `s.includes(sub)`. */
  predicate Contains(s: string, sub: string) {
    exists i | 0 <= i <= |s| - |sub| :: OccursAt(s, sub, i)
  }

  predicate OccursAt(s: string, sub: string, i: int)
    requires 0 <= i <= |s| - |sub|
  {
    s[i..i + |sub|] == sub
  }

  /** `s.startsWith(prefix)`. */
  predicate StartsWith(s: string, prefix: string) {
    |prefix| <= |s| && s[..|prefix|] == prefix
  }

  /** `s.endsWith(suffix)`. */
  predicate EndsWith(s: string, suffix: string) {
    |suffix| <= |s| && s[|s| - |suffix|..] == suffix
  }

  /** Number of UTF-16 code units of one scalar value. */
  function CodeUnits(c: char): nat {
    if c as int >= 0x1_0000 then 2 else 1
  }

  /** `s.length`: the number of UTF-16 code units of `s`. */
  function Utf16Length(s: string): nat {
    if |s| == 0 then 0 else CodeUnits(s[0]) + Utf16Length(s[1..])
  }

  lemma {:induction false} Utf16LengthAppend(a: string, b: string)
    ensures Utf16Length(a + b) == Utf16Length(a) + Utf16Length(b)
  {
    if |a| > 0 {
      assert (a + b)[1..] == a[1..] + b;
      Utf16LengthAppend(a[1..], b);
    } else {
      assert a + b == b;
    }
  }

  /** A string is never shorter in code units than in characters. */
  lemma {:induction false} Utf16LengthAtLeastLength(s: string)
    ensures Utf16Length(s) >= |s|
  {
    if |s| > 0 {
      Utf16LengthAtLeastLength(s[1..]);
    }
  }

  /** An infix is never longer, in code units, than the whole. */
  lemma Utf16LengthInfix(s: string, i: int, j: int)
    requires 0 <= i <= j <= |s|
    ensures Utf16Length(s[i..j]) <= Utf16Length(s)
  {
    assert s == s[..i] + s[i..j] + s[j..];
    Utf16LengthAppend(s[..i] + s[i..j], s[j..]);
    Utf16LengthAppend(s[..i], s[i..j]);
  }
}
