/** Strings as the store and the dashboard compare and render them. */
module Text {
  import opened Wrappers

  /** `a <= b` on Python `str` and on SQLite TEXT under the BINARY collation: character
      by character, and a proper prefix sorts first. (Dafny's own `<` on sequences is
      the proper-prefix relation, not this order.) */
  predicate LexLe(a: string, b: string)
    decreases |a|
  {
    |a| == 0 || (|b| > 0 && (a[0] < b[0] || (a[0] == b[0] && LexLe(a[1..], b[1..]))))
  }

  lemma {:induction false} LexLeReflexive(a: string)
    ensures LexLe(a, a)
  {
    if |a| > 0 { LexLeReflexive(a[1..]); }
  }

  lemma {:induction false} LexLeAntisymmetric(a: string, b: string)
    requires LexLe(a, b) && LexLe(b, a)
    ensures a == b
  {
    if |a| > 0 {
      LexLeAntisymmetric(a[1..], b[1..]);
      assert a == [a[0]] + a[1..] && b == [b[0]] + b[1..];
    }
  }

  lemma {:induction false} LexLeTransitive(a: string, b: string, c: string)
    requires LexLe(a, b) && LexLe(b, c)
    ensures LexLe(a, c)
  {
    if |a| > 0 && a[0] == b[0] && b[0] == c[0] {
      LexLeTransitive(a[1..], b[1..], c[1..]);
    }
  }

  lemma {:induction false} LexLeTotal(a: string, b: string)
    ensures LexLe(a, b) || LexLe(b, a)
  {
    if |a| > 0 && |b| > 0 && a[0] == b[0] {
      LexLeTotal(a[1..], b[1..]);
    }
  }

  /** A string sorts at or before every extension of it. */
  lemma {:induction false} PrefixIsLe(a: string, b: string)
    ensures LexLe(a, a + b)
  {
    if |a| > 0 {
      assert (a + b)[1..] == a[1..] + b;
      PrefixIsLe(a[1..], b);
    }
  }

  /** A proper extension never sorts at or before the string it extends. */
  lemma {:induction false} ExtensionNotLe(a: string, b: string)
    requires |b| > 0
    ensures !LexLe(a + b, a)
  {
    if |a| > 0 {
      assert (a + b)[1..] == a[1..] + b;
      ExtensionNotLe(a[1..], b);
    }
  }

  /** A shared prefix does not affect the comparison. */
  lemma {:induction false} LexLeCommonPrefix(p: string, a: string, b: string)
    ensures LexLe(p + a, p + b) == LexLe(a, b)
  {
    if |p| > 0 {
      assert (p + a)[1..] == p[1..] + a && (p + b)[1..] == p[1..] + b;
      LexLeCommonPrefix(p[1..], a, b);
    } else {
      assert p + a == a && p + b == b;
    }
  }

  /** Against a string it dominates character by character, a string of the same length
      sorts at or before it only when the two are equal. */
  lemma {:induction false} LexLeDominated(x: string, y: string)
    requires |x| == |y| && forall k :: 0 <= k < |x| ==> y[k] <= x[k]
    ensures LexLe(x, y) <==> x == y
  {
    if |x| > 0 {
      LexLeDominated(x[1..], y[1..]);
      assert x == [x[0]] + x[1..] && y == [y[0]] + y[1..];
    } else {
      assert x == [] && y == [];
    }
  }

  predicate IsDigit(c: char) { '0' <= c <= '9' }

  predicate AllDigits(s: string) { forall k :: 0 <= k < |s| ==> IsDigit(s[k]) }

  function DigitChar(d: nat): (c: char)
    requires d < 10
    ensures IsDigit(c)
  {
    ('0' as int + d) as char
  }

  function DigitValue(c: char): (d: nat)
    requires IsDigit(c)
    ensures d < 10 && DigitChar(d) == c
  {
    c as int - '0' as int
  }

  /** Python's `str(n)` for a non-negative integer: decimal, no leading zeros. */
  function NatToString(n: nat): (s: string)
    ensures |s| > 0 && AllDigits(s)
    ensures s[0] == '0' ==> n == 0
  {
    if n < 10 then [DigitChar(n)] else NatToString(n / 10) + [DigitChar(n % 10)]
  }

  /** The value of a string of decimal digits. */
  function ParseNat(s: string): nat
    requires AllDigits(s)
  {
    if |s| == 0 then 0 else ParseNat(s[..|s| - 1]) * 10 + DigitValue(s[|s| - 1])
  }

  /** Python's `str(n)` for any integer: a minus sign before the digits of `-n`. */
  function IntToString(n: int): (s: string)
    ensures |s| > 0
    ensures forall k :: 0 <= k < |s| ==> IsDigit(s[k]) || s[k] == '-'
  {
    if n < 0 then "-" + NatToString(-n) else NatToString(n)
  }

  /** Reads back what `IntToString` writes. */
  function ParseInt(s: string): Option<int> {
    if |s| > 1 && s[0] == '-' && AllDigits(s[1..]) then var v: int := 0 - (ParseNat(s[1..]) as int); Some(v)
    else if |s| > 0 && AllDigits(s) then var v: int := ParseNat(s); Some(v)
    else None
  }

  lemma {:induction false} NatRoundTrip(n: nat)
    ensures ParseNat(NatToString(n)) == n
  {
    if n >= 10 {
      var s := NatToString(n);
      assert s[..|s| - 1] == NatToString(n / 10);
      NatRoundTrip(n / 10);
    }
  }

  /** `str` on integers loses nothing: the rendering parses back to the same number. */
  lemma IntRoundTrip(n: int)
    ensures ParseInt(IntToString(n)) == Some(n)
  {
    if n < 0 {
      assert IntToString(n)[1..] == NatToString(-n);
      NatRoundTrip(-n);
    } else {
      NatRoundTrip(n);
    }
  }

  /** Distinct integers render as distinct strings. */
  lemma IntToStringInjective(m: int, n: int)
    requires IntToString(m) == IntToString(n)
    ensures m == n
  {
    IntRoundTrip(m);
    IntRoundTrip(n);
  }

  // ---------------------------------------------------------------------------------
  // Text that SQLite reads as a number.

  /** The blanks SQLite skips around a numeric literal: space, tab, line feed, vertical
      tab, form feed and carriage return. */
  predicate IsSqlSpace(c: char) {
    c == ' ' || c == '\t' || c == '\n' || c == '\r' || c as int == 11 || c as int == 12
  }

  /** Where a left-to-right reading of an integer or real literal stands: before it (blanks
      only), after its sign, in the digits before or after the decimal point (`PointFirst` when
      the point came first and no digit yet), in the exponent, in trailing blanks, or
      rejected. */
  datatype NumState =
    | Lead | Sign | IntDigits | PointFirst | Frac | ExpMark | ExpSign | ExpDigits | Trail | Reject

  /** The states in which the text read so far is a complete number. */
  predicate Complete(st: NumState) {
    st == IntDigits || st == Frac || st == ExpDigits || st == Trail
  }

  /** One character: an optional sign, digits with an optional decimal point (at least one
      digit in all), then an optional exponent `e`/`E`, optional sign and digits; blanks
      only before and after. */
  function Next(st: NumState, c: char): NumState {
    match st
    case Lead =>
      if IsSqlSpace(c) then Lead else if c == '+' || c == '-' then Sign
      else if IsDigit(c) then IntDigits else if c == '.' then PointFirst else Reject
    case Sign => if IsDigit(c) then IntDigits else if c == '.' then PointFirst else Reject
    case IntDigits =>
      if IsDigit(c) then IntDigits else if c == '.' then Frac
      else if c == 'e' || c == 'E' then ExpMark else if IsSqlSpace(c) then Trail else Reject
    case PointFirst => if IsDigit(c) then Frac else Reject
    case Frac =>
      if IsDigit(c) then Frac else if c == 'e' || c == 'E' then ExpMark
      else if IsSqlSpace(c) then Trail else Reject
    case ExpMark => if c == '+' || c == '-' then ExpSign else if IsDigit(c) then ExpDigits else Reject
    case ExpSign => if IsDigit(c) then ExpDigits else Reject
    case ExpDigits => if IsDigit(c) then ExpDigits else if IsSqlSpace(c) then Trail else Reject
    case Trail => if IsSqlSpace(c) then Trail else Reject
    case Reject => Reject
  }

  /** The state after reading all of `s` from `st`. */
  function Scan(s: string, st: NumState): NumState
    decreases |s|
  {
    if |s| == 0 then st else Scan(s[1..], Next(st, s[0]))
  }

  /** Text that NUMERIC affinity turns into an INTEGER or REAL. */
  predicate SqlNumeric(s: string) {
    Complete(Scan(s, Lead))
  }

  /** Reading a concatenation is reading its parts in turn. */
  lemma {:induction false} ScanConcat(a: string, b: string, st: NumState)
    ensures Scan(a + b, st) == Scan(b, Scan(a, st))
    decreases |a|
  {
    if |a| == 0 {
      assert a + b == b;
    } else {
      assert (a + b)[1..] == a[1..] + b;
      ScanConcat(a[1..], b, Next(st, a[0]));
    }
  }

  /** Once rejected, the text stays rejected. */
  lemma {:induction false} ScanRejected(s: string)
    ensures Scan(s, Reject) == Reject
    decreases |s|
  {
    if |s| > 0 {
      ScanRejected(s[1..]);
    }
  }

  /** Digits keep a reading that is in the integer digits there. */
  lemma {:induction false} ScanDigits(s: string)
    requires AllDigits(s)
    ensures Scan(s, IntDigits) == IntDigits
    decreases |s|
  {
    if |s| > 0 {
      ScanDigits(s[1..]);
    }
  }

  /** Text that reads as a number is never empty. */
  lemma SqlNumericNotEmpty(s: string)
    requires SqlNumeric(s)
    ensures |s| > 0
  {
  }

  /** A string of digits, such as a bare year `2024`, reads as a number. */
  lemma DigitsAreNumeric(s: string)
    requires |s| > 0 && AllDigits(s)
    ensures SqlNumeric(s)
  {
    ScanDigits(s[1..]);
  }

  /** Digits followed by a dash (a date or a timestamp) stay text. */
  lemma DashedNotNumeric(s: string, p: nat)
    requires 0 < p < |s| && s[p] == '-'
    requires forall k :: 0 <= k < p ==> IsDigit(s[k])
    ensures !SqlNumeric(s)
  {
    assert s == s[..1] + (s[1..p] + s[p..]);
    ScanConcat(s[..1], s[1..p] + s[p..], Lead);
    ScanConcat(s[1..p], s[p..], IntDigits);
    ScanDigits(s[1..p]);
    ScanRejected(s[p + 1..]);
  }
}
