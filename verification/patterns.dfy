/**
 The validation patterns of the contact form. The phone and message patterns
 are modelled as they are written in the script; the name and email patterns
 are left as parameters (see `Matchers`).
 */
module FieldPatterns {
  import opened JsText

  /**
   The class `[+-ds()]` as written: the range from '+' (U+002B) to 'd'
   (U+0064), which takes in '+' and ',' themselves, '-', '.', '/', the
   digits, ':' to '@', the upper-case letters, '[', '\\', ']', '^', '_',
   '`' and 'a' to 'd'; plus 's', '(' and ')'.
   */
  predicate IsPhoneClassChar(c: char) {
    ('+' <= c <= 'd') || c == 's' || c == '(' || c == ')'
  }

  /**
   `/^[+-ds()]{10,20}$/`: between 10 and 20 characters, all from the class.
   Every character of the class is a single UTF-16 code unit, so counting
   characters here is counting code units (`PhoneLengthIsCodeUnits`).
   */
  predicate PhonePattern(v: string)
    ensures PhonePattern(v) <==> AllPhoneClass(v) && 10 <= Utf16Length(v) <= 20
  {
    AllPhoneClass(v) && (PhoneLengthIsCodeUnits(v); 10 <= |v| <= 20)
  }

  predicate AllPhoneClass(v: string) {
    forall k | 0 <= k < |v| :: IsPhoneClassChar(v[k])
  }

  lemma {:induction false} PhoneLengthIsCodeUnits(v: string)
    requires AllPhoneClass(v)
    ensures Utf16Length(v) == |v|
  {
    if |v| > 0 {
      PhoneLengthIsCodeUnits(v[1..]);
    }
  }

  /** `v[i..j]` is a run of at least ten code units, none of them a line terminator. */
  predicate IsLongRun(v: string, i: int, j: int)
    requires 0 <= i <= j <= |v|
  {
    (forall k | i <= k < j :: !IsLineTerminator(v[k])) && Utf16Length(v[i..j]) >= 10
  }

  /**
   `/.{10,}/.test(v)`. The pattern has no anchors, so it matches when
   some run of ten code units avoids line terminators. Line terminators are
   single code units, so such a run can be taken along character boundaries.
   */
  predicate MessagePattern(v: string)
    ensures MessagePattern(v) ==> Utf16Length(v) >= 10
  {
    LongRunsFitValue(v);
    exists i, j | 0 <= i <= j <= |v| :: IsLongRun(v, i, j)
  }

  /** A run inside a value is no longer than the value. */
  lemma LongRunsFitValue(v: string)
    ensures forall i, j | 0 <= i <= j <= |v| && IsLongRun(v, i, j) :: Utf16Length(v) >= 10
  {
    forall i, j | 0 <= i <= j <= |v| && IsLongRun(v, i, j) ensures Utf16Length(v) >= 10 {
      Utf16LengthInfix(v, i, j);
    }
  }

  /** A single line of at least ten characters matches: the boundary of ten is inclusive. */
  lemma LongLineAccepted(v: string)
    requires |v| >= 10
    requires forall k | 0 <= k < |v| :: !IsLineTerminator(v[k])
    ensures MessagePattern(v)
  {
    Utf16LengthAtLeastLength(v);
    assert v[0..|v|] == v;
    assert IsLongRun(v, 0, |v|);
  }

  /** A line that is too short does not become long enough by adding lines: each line is judged on its own. */
  lemma LinesJudgedSeparately(a: string, b: string)
    requires Utf16Length(a) < 10 && Utf16Length(b) < 10
    ensures !MessagePattern(a + "\n" + b)
  {
    var v := a + "\n" + b;
    assert v[|a|] == '\n';
    forall i, j | 0 <= i <= j <= |v| && IsLongRun(v, i, j) ensures false {
      if j <= |a| {
        assert v[i..j] == a[i..j];
        Utf16LengthInfix(a, i, j);
      } else if i > |a| {
        assert v[i..j] == b[i - |a| - 1..j - |a| - 1];
        Utf16LengthInfix(b, i - |a| - 1, j - |a| - 1);
      }
      // otherwise the run covers the line feed at index |a|
    }
  }

  /**
   The name and email patterns of the script are not modelled: as written
   they have lost their backslashes (`s` where `\s` was meant, `.` where
   `\.` was meant), and the name class contains the range `s-'`, whose ends
   are in reverse order, which ECMA-262 rejects. The model takes both tests
   as parameters.
   */
  datatype Matchers = Matchers(name: string -> bool, email: string -> bool)
}
