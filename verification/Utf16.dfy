/**
 JavaScript strings: sequences of 16-bit code units, with the comparison, trimming and
 decimal printing that the exchange's code applies to them.
 */
module Utf16 {
  type CodeUnit = n: int | 0 <= n < 0x1_0000
  type Text = seq<CodeUnit>

  const DIGIT_0: CodeUnit := 48
  const MINUS: CodeUnit := 45

  /** A string literal as code units. */
  function Lit(s: string): (t: Text)
    ensures |t| == |s|
    ensures forall i :: 0 <= i < |s| ==> t[i] == s[i] as int % 0x1_0000
  {
    seq(|s|, i requires 0 <= i < |s| => s[i] as int % 0x1_0000)
  }

  /** The `<` operator on strings: lexicographic on code units. */
  predicate Less(a: Text, b: Text) {
    b != [] && (a == [] || a[0] < b[0] || (a[0] == b[0] && Less(a[1..], b[1..])))
  }

  lemma LessTrichotomy(a: Text, b: Text)
    ensures Less(a, b) || a == b || Less(b, a)
    ensures !(Less(a, b) && Less(b, a))
    ensures a == b ==> !Less(a, b)
  {
    if a != [] && b != [] {
      LessTrichotomy(a[1..], b[1..]);
      if a[1..] == b[1..] && a[0] == b[0] {
        assert a == [a[0]] + a[1..] == [b[0]] + b[1..] == b;
      }
    }
  }

  lemma LessTransitive(a: Text, b: Text, c: Text)
    requires Less(a, b) && Less(b, c)
    ensures Less(a, c)
  {
    if a != [] && a[0] == b[0] == c[0] {
      LessTransitive(a[1..], b[1..], c[1..]);
    }
  }

  lemma NotLessTransitive(a: Text, b: Text, c: Text)
    requires !Less(b, a) && !Less(c, b)
    ensures !Less(c, a)
  {
    LessTrichotomy(a, b);
    LessTrichotomy(b, c);
    if Less(c, a) && a != b {
      LessTransitive(c, a, b);
    }
  }

  /** `compareCodePointStrings`. */
  function Compare(a: Text, b: Text): int {
    if Less(a, b) then -1 else if Less(b, a) then 1 else 0
  }

  predicate IsDigit(c: CodeUnit) {
    DIGIT_0 <= c <= DIGIT_0 + 9
  }

  predicate AllDigits(t: Text) {
    forall i :: 0 <= i < |t| ==> IsDigit(t[i])
  }

  /** The number that a run of decimal digits denotes. */
  function DigitsValue(t: Text): nat
    requires AllDigits(t)
  {
    if t == [] then 0 else 10 * DigitsValue(t[..|t| - 1]) + (t[|t| - 1] - DIGIT_0)
  }

  /** `String(n)` for a non-negative integer. */
  function Decimal(n: nat): (t: Text)
    ensures |t| > 0 && AllDigits(t)
    ensures DigitsValue(t) == n
  {
    if n < 10 then
      var t := [DIGIT_0 + n];
      assert t[..0] == [];
      t
    else
      var t := Decimal(n / 10) + [DIGIT_0 + n % 10];
      assert t[..|t| - 1] == Decimal(n / 10);
      t
  }

  /** Printed numbers have no leading zero. */
  lemma {:induction false} DecimalShortest(n: nat)
    ensures n < 10 ==> |Decimal(n)| == 1
    ensures n > 0 ==> Decimal(n)[0] != DIGIT_0
  {
    if n >= 10 { DecimalShortest(n / 10); }
  }

  /** Two digit runs of one length denote the same number only if they are the same text. */
  lemma DigitsValueInjective(a: Text, b: Text)
    requires |a| == |b| && AllDigits(a) && AllDigits(b)
    requires DigitsValue(a) == DigitsValue(b)
    ensures a == b
  {
    if a != [] {
      DigitsValueInjective(a[..|a| - 1], b[..|b| - 1]);
      assert a == a[..|a| - 1] + [a[|a| - 1]];
      assert b == b[..|b| - 1] + [b[|b| - 1]];
    }
  }

  /** WhiteSpace and LineTerminator of ECMA-262, the units that `trim` removes. */
  predicate IsSpace(c: CodeUnit) {
    9 <= c <= 13 || c == 0x20 || c == 0xA0 || c == 0x1680 || 0x2000 <= c <= 0x200A
    || c == 0x2028 || c == 0x2029 || c == 0x202F || c == 0x205F || c == 0x3000 || c == 0xFEFF
  }

  /** `String.prototype.trim`. */
  function Trim(t: Text): Text {
    if t == [] then []
    else if IsSpace(t[0]) then Trim(t[1..])
    else if IsSpace(t[|t| - 1]) then Trim(t[..|t| - 1])
    else t
  }

  lemma {:induction false} TrimIdempotent(t: Text)
    ensures Trim(Trim(t)) == Trim(t)
    ensures |Trim(t)| <= |t|
  {
    if t == [] {
    } else if IsSpace(t[0]) {
      TrimIdempotent(t[1..]);
    } else if IsSpace(t[|t| - 1]) {
      TrimIdempotent(t[..|t| - 1]);
    }
  }

  predicate AllSpace(t: Text) { forall i :: 0 <= i < |t| ==> IsSpace(t[i]) }

  /** `trim` takes off spaces at both ends and nothing else. */
  ghost predicate TrimmedTo(t: Text, a: Text, b: Text) { t == a + Trim(t) + b && AllSpace(a) && AllSpace(b) }

  lemma TrimmedFront(t: Text, a: Text, b: Text)
    requires t != [] && IsSpace(t[0]) && TrimmedTo(t[1..], a, b)
    ensures TrimmedTo(t, [t[0]] + a, b)
  {
    assert t == [t[0]] + t[1..];
    assert [t[0]] + (a + Trim(t) + b) == [t[0]] + a + Trim(t) + b;
  }

  lemma TrimmedBack(t: Text, a: Text, b: Text)
    requires t != [] && !IsSpace(t[0]) && IsSpace(t[|t| - 1]) && TrimmedTo(t[..|t| - 1], a, b)
    ensures TrimmedTo(t, a, b + [t[|t| - 1]])
  {
    assert t == t[..|t| - 1] + [t[|t| - 1]];
    assert a + Trim(t) + b + [t[|t| - 1]] == a + Trim(t) + (b + [t[|t| - 1]]);
  }

  lemma {:induction false} TrimExactly(t: Text)
    ensures Trim(t) == [] || (!IsSpace(Trim(t)[0]) && !IsSpace(Trim(t)[|Trim(t)| - 1]))
    ensures exists a, b :: TrimmedTo(t, a, b)
  {
    if t == [] {
      assert TrimmedTo(t, [], []);
    } else if IsSpace(t[0]) {
      TrimExactly(t[1..]);
      var a, b :| TrimmedTo(t[1..], a, b);
      TrimmedFront(t, a, b);
    } else if IsSpace(t[|t| - 1]) {
      TrimExactly(t[..|t| - 1]);
      var a, b :| TrimmedTo(t[..|t| - 1], a, b);
      TrimmedBack(t, a, b);
    } else {
      assert t == [] + Trim(t) + [];
      assert TrimmedTo(t, [], []);
    }
  }
}
