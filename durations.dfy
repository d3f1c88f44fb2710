/**
 * normalizeNumberValue (recipes.service.ts): turns a free-text duration or
 * count ("10-15 min", "1 h 30", "4") into a decimal whole number of minutes
 * or servings, or the caller's fallback.
 *
 * The four regular expressions of the source are hand-coded as scanners:
 *   range   /(\d+(?:[.,]\d+)?)[\s-–toà]+(\d+(?:[.,]\d+)?)/i
 *   hours   /(\d+(?:[.,]\d+)?)\s*h/i
 *   minutes /(\d+(?:[.,]\d+)?)\s*m/i
 *   plain   /\d+(?:[.,]\d+)?/
 * Each begins with the same numeral; a scanner takes the greedy numeral at a
 * position and checks what must follow it. `RegexMatchAt` states, for each
 * pattern, when the regular expression matches at a position and which
 * capture it yields, and `ScannerIsRegex` proves the scanner agrees with it.
 */
module Durations {
  import opened Wrappers
  import opened Text

  predicate IsDigit(c: char) { '0' <= c <= '9' }

  predicate IsDecimalPoint(c: char) { c == '.' || c == ',' }

  /**
   * The separator class `[\s-–toà]` under the `i` flag. Inside a class, `\s-–`
   * is not a range: the hyphen is a literal, so the class holds whitespace,
   * '-', the en dash and the letters t, o, à in either case.
   */
  predicate IsRangeSep(c: char) {
    IsSpace(c) || c == '-' || c == '\U{2013}' || c == 't' || c == 'T' || c == 'o' || c == 'O'
    || c == '\U{00E0}' || c == '\U{00C0}'
  }

  datatype CharClass = Digits | Seps | Spaces

  predicate InClass(cls: CharClass, c: char) {
    match cls
    case Digits => IsDigit(c)
    case Seps => IsRangeSep(c)
    case Spaces => IsSpace(c)
  }

  /** The length of the run of `cls` characters starting at `j`. */
  function Run(cls: CharClass, s: string, j: nat): (n: nat)
    requires j <= |s|
    ensures j + n <= |s|
    decreases |s| - j
  {
    if j < |s| && InClass(cls, s[j]) then 1 + Run(cls, s, j + 1) else 0
  }

  /** A run is maximal: all of it is in the class, and the character after it is not. */
  lemma {:induction false} RunSpec(cls: CharClass, s: string, j: nat)
    requires j <= |s|
    ensures forall k :: j <= k < j + Run(cls, s, j) ==> InClass(cls, s[k])
    ensures j + Run(cls, s, j) == |s| || !InClass(cls, s[j + Run(cls, s, j)])
    decreases |s| - j
  {
    if j < |s| && InClass(cls, s[j]) {
      RunSpec(cls, s, j + 1);
    }
  }

  predicate AllDigits(t: string) {
    forall k :: 0 <= k < |t| ==> IsDigit(t[k])
  }

  /** `t` matches `\d+(?:[.,]\d+)?` as a whole. */
  predicate IsNumeral(t: string) {
    || (t != [] && AllDigits(t))
    || exists p :: 0 < p < |t| - 1 && IsDecimalPoint(t[p]) && forall k :: 0 <= k < |t| && k != p ==> IsDigit(t[k])
  }

  /**
   * The length of the greedy match of `\d+(?:[.,]\d+)?` at `i`, 0 when there
   * is none (the character at `i` is not a digit).
   */
  function NumeralLen(s: string, i: nat): (n: nat)
    requires i <= |s|
    ensures i + n <= |s|
  {
    var d := Run(Digits, s, i);
    if d == 0 then 0
    else if i + d + 1 < |s| && IsDecimalPoint(s[i + d]) && IsDigit(s[i + d + 1]) then
      d + 1 + Run(Digits, s, i + d + 1)
    else d
  }

  datatype Pattern = Range | Hours | Minutes | Plain

  predicate IsMarker(p: Pattern, c: char) {
    match p
    case Hours => c == 'h' || c == 'H'
    case Minutes => c == 'm' || c == 'M'
    case _ => false
  }

  /** Scanner: what must follow the numeral, checked at the end `j` of the greedy numeral. */
  predicate TailAt(p: Pattern, s: string, j: nat)
    requires j <= |s|
  {
    match p
    case Range =>
      var k := j + Run(Seps, s, j);
      j < k < |s| && IsDigit(s[k])
    case Hours | Minutes =>
      var k := j + Run(Spaces, s, j);
      k < |s| && IsMarker(p, s[k])
    case Plain => true
  }

  /** Scanner: the pattern matches at `i`. */
  predicate MatchesAt(p: Pattern, s: string, i: nat)
    requires i <= |s|
  {
    NumeralLen(s, i) > 0 && TailAt(p, s, i + NumeralLen(s, i))
  }

  /**
   * `s.match(pattern)`: the first capture (the whole match for `Plain`) of
   * the leftmost match at or after `i`, or None.
   */
  function FirstMatch(p: Pattern, s: string, i: nat): (r: Option<string>)
    requires i <= |s|
    ensures r.Some? ==> IsNumeral(r.value) && |r.value| <= |s| - i
    decreases |s| - i
  {
    if i == |s| then None
    else if MatchesAt(p, s, i) then
      NumeralLenShape(s, i);
      Some(s[i..i + NumeralLen(s, i)])
    else FirstMatch(p, s, i + 1)
  }

  /** FirstMatch finds the leftmost position where the pattern matches, and only that one. */
  lemma {:induction false} FirstMatchSpec(p: Pattern, s: string, i: nat)
    requires i <= |s|
    ensures FirstMatch(p, s, i).None? <==> forall k :: i <= k <= |s| ==> !MatchesAt(p, s, k)
    ensures FirstMatch(p, s, i).Some? ==>
      exists k :: i <= k < |s| && MatchesAt(p, s, k) && FirstMatch(p, s, i).value == s[k..k + NumeralLen(s, k)]
        && forall k' :: i <= k' < k ==> !MatchesAt(p, s, k')
  {
    FirstMatchNone(p, s, i);
    FirstMatchSome(p, s, i);
  }

  lemma {:induction false} FirstMatchNone(p: Pattern, s: string, i: nat)
    requires i <= |s|
    ensures FirstMatch(p, s, i).None? <==> forall k :: i <= k <= |s| ==> !MatchesAt(p, s, k)
  {
    if FirstMatch(p, s, i).None? {
      NoneMeansNoMatch(p, s, i);
    } else {
      FirstMatchSome(p, s, i);
    }
  }

  lemma {:induction false} NoneMeansNoMatch(p: Pattern, s: string, i: nat)
    requires i <= |s| && FirstMatch(p, s, i).None?
    ensures forall k :: i <= k <= |s| ==> !MatchesAt(p, s, k)
    decreases |s| - i
  {
    if i == |s| {
      assert NumeralLen(s, i) == 0;
    } else {
      NoneMeansNoMatch(p, s, i + 1);
    }
  }

  lemma {:induction false} FirstMatchSome(p: Pattern, s: string, i: nat)
    requires i <= |s|
    ensures FirstMatch(p, s, i).Some? ==>
      exists k :: i <= k < |s| && MatchesAt(p, s, k) && FirstMatch(p, s, i).value == s[k..k + NumeralLen(s, k)]
        && forall k' :: i <= k' < k ==> !MatchesAt(p, s, k')
    decreases |s| - i
  {
    if i < |s| {
      if MatchesAt(p, s, i) {
        assert FirstMatch(p, s, i).value == s[i..i + NumeralLen(s, i)];
      } else if FirstMatch(p, s, i + 1).Some? {
        FirstMatchSome(p, s, i + 1);
        var k :| i + 1 <= k < |s| && MatchesAt(p, s, k) && FirstMatch(p, s, i + 1).value == s[k..k + NumeralLen(s, k)]
          && forall k' :: i + 1 <= k' < k ==> !MatchesAt(p, s, k');
        assert FirstMatch(p, s, i) == FirstMatch(p, s, i + 1);
        assert forall k' :: i <= k' < k ==> !MatchesAt(p, s, k');
      }
    }
  }

  /** The leftmost match, as a position: the form the lemmas below use. */
  lemma {:induction false} FirstMatchAt(p: Pattern, s: string, k: nat)
    requires k <= |s| && MatchesAt(p, s, k)
    requires forall k' :: 0 <= k' < k ==> !MatchesAt(p, s, k')
    ensures FirstMatch(p, s, 0) == Some(s[k..k + NumeralLen(s, k)])
  {
    FirstMatchFrom(p, s, 0, k);
  }

  lemma {:induction false} FirstMatchFrom(p: Pattern, s: string, i: nat, k: nat)
    requires i <= k <= |s| && MatchesAt(p, s, k)
    requires forall k' :: i <= k' < k ==> !MatchesAt(p, s, k')
    ensures FirstMatch(p, s, i) == Some(s[k..k + NumeralLen(s, k)])
    decreases k - i
  {
    if i < k {
      assert !MatchesAt(p, s, i);
      FirstMatchFrom(p, s, i + 1, k);
    }
  }

  // ---------------------------------------------------------------------
  // What the regular expressions mean, stated without the scanner.

  /** The part of the pattern after the first group matches from `a` on. */
  predicate RegexTail(p: Pattern, s: string, a: nat)
    requires a <= |s|
  {
    match p
    case Range =>
      exists b :: a < b < |s| && (forall k :: a <= k < b ==> IsRangeSep(s[k])) && IsDigit(s[b])
    case Hours | Minutes =>
      exists b :: a <= b < |s| && (forall k :: a <= k < b ==> IsSpace(s[k])) && IsMarker(p, s[b])
    case Plain => true
  }

  /** The pattern matches at `i` with its first group spanning `s[i..a]`. */
  predicate RegexMatchAt(p: Pattern, s: string, i: nat, a: nat) {
    i < a <= |s| && IsNumeral(s[i..a]) && RegexTail(p, s, a)
  }

  // ---------------------------------------------------------------------
  // Values

  /** The value of a string of decimal digits. */
  function DigitsValue(d: string): (v: nat)
    requires AllDigits(d)
  {
    if d == [] then 0 else DigitsValue(d[..|d| - 1]) * 10 + (d[|d| - 1] - '0') as nat
  }

  function Pow10(n: nat): (r: nat)
    ensures r >= 1
  {
    if n == 0 then 1 else 10 * Pow10(n - 1)
  }

  /**
   * `Number.parseFloat(t.replace(',', '.'))` for a string that starts with a
   * numeral, as an exact rational.
   */
  function NumeralValue(t: string): (v: real)
    ensures v >= 0.0
    ensures t != [] && AllDigits(t) ==> v == DigitsValue(t) as real
  {
    var d := Run(Digits, t, 0);
    RunSpec(Digits, t, 0);
    DigitWindow(t, 0, d);
    AllDigitsRun(t);
    var whole := DigitsValue(t[..d]) as real;
    assert AllDigits(t) ==> t[..d] == t && whole == DigitsValue(t) as real;
    if d + 1 < |t| && IsDecimalPoint(t[d]) then
      var f := Run(Digits, t, d + 1);
      RunSpec(Digits, t, d + 1);
      DigitWindow(t, d + 1, f);
      whole + DigitsValue(t[d + 1..d + 1 + f]) as real / Pow10(f) as real
    else whole
  }

  /** A string of digits is one run of digits. */
  lemma {:induction false} AllDigitsRun(t: string)
    ensures AllDigits(t) ==> Run(Digits, t, 0) == |t|
  {
    if AllDigits(t) {
      assert forall k :: 0 <= k < |t| ==> InClass(Digits, t[k]);
      RunCovers(Digits, t, 0, |t|);
    }
  }

  /**
   * A numeral with a decimal point or comma at `p` is worth its whole part
   * plus its fraction digits over the matching power of ten.
   */
  lemma {:induction false} NumeralValueDecimal(t: string, p: nat)
    requires 0 < p < |t| - 1 && IsDecimalPoint(t[p])
    requires forall k :: 0 <= k < |t| && k != p ==> IsDigit(t[k])
    ensures AllDigits(t[..p]) && AllDigits(t[p + 1..])
    ensures NumeralValue(t) == DigitsValue(t[..p]) as real + DigitsValue(t[p + 1..]) as real / Pow10(|t| - p - 1) as real
  {
    assert forall k :: 0 <= k < p ==> InClass(Digits, t[k]);
    RunExact(Digits, t, 0, p);
    assert forall k :: p + 1 <= k < |t| ==> InClass(Digits, t[k]);
    RunCovers(Digits, t, p + 1, |t|);
    assert t[p + 1..p + 1 + (|t| - p - 1)] == t[p + 1..];
  }

  /** `Math.round` on a non-negative rational: halves round up. */
  function MathRound(x: real): (n: nat)
    requires x >= 0.0
    ensures n as real - 0.5 <= x < n as real + 0.5
  {
    (x + 0.5).Floor
  }

  function DigitChar(d: nat): (c: char)
    requires d < 10
    ensures IsDigit(c) && (c - '0') as nat == d
  {
    ('0' as int + d) as char
  }

  /** A decimal numeral without sign, fraction or superfluous leading zero. */
  predicate IsCanonicalDecimal(r: string) {
    r != [] && AllDigits(r) && (|r| > 1 ==> r[0] != '0')
  }

  /** `String(n)` for a whole number below 1e21. */
  function DecimalString(n: nat): (r: string)
    ensures IsCanonicalDecimal(r)
    ensures DigitsValue(r) == n
    decreases n
  {
    if n < 10 then [DigitChar(n)]
    else
      var r := DecimalString(n / 10) + [DigitChar(n % 10)];
      assert r[..|r| - 1] == DecimalString(n / 10);
      r
  }

  lemma {:induction false} LeadingDigitPositive(d: string)
    requires d != [] && AllDigits(d) && d[0] != '0'
    ensures DigitsValue(d) >= 1
    decreases |d|
  {
    if |d| > 1 {
      var p := d[..|d| - 1];
      assert p[0] == d[0];
      LeadingDigitPositive(p);
    }
  }

  lemma DivTen(n: nat, q: nat, d: nat)
    requires n == q * 10 + d && d < 10
    ensures n / 10 == q && n % 10 == d
  {
  }

  /** `String` inverts the digit value of a canonical decimal numeral. */
  lemma {:induction false} DecimalStringOfValue(r: string)
    requires IsCanonicalDecimal(r)
    ensures DecimalString(DigitsValue(r)) == r
    decreases |r|
  {
    var p := r[..|r| - 1];
    if |r| == 1 {
      assert p == [];
      assert [DigitChar((r[0] - '0') as nat)] == r;
    } else {
      assert p[0] == r[0];
      LeadingDigitPositive(p);
      DecimalStringOfValue(p);
      DecimalStringStep(r, p);
    }
  }

  lemma {:induction false} DecimalStringStep(r: string, p: string)
    requires |r| > 1 && AllDigits(r) && p == r[..|r| - 1]
    requires DigitsValue(p) >= 1 && DecimalString(DigitsValue(p)) == p
    ensures DecimalString(DigitsValue(r)) == r
  {
    var d := (r[|r| - 1] - '0') as nat;
    var q := DigitsValue(p);
    var n := DigitsValue(r);
    assert n == q * 10 + d && d < 10;
    DivTen(n, q, d);
    assert DecimalString(n) == p + [DigitChar(d)];
    assert r == p + [r[|r| - 1]];
  }

  function GroupValue(g: Option<string>): (v: real)
    ensures v >= 0.0
  {
    match g
    case Some(t) => NumeralValue(t)
    case None => 0.0
  }

  /** `Math.round(hours * 60 + minutes)`, a missing group counting 0. */
  function MarkerMinutes(hours: Option<string>, minutes: Option<string>): (r: nat)
    ensures var x := GroupValue(hours) * 60.0 + GroupValue(minutes);
            r as real - 0.5 <= x < r as real + 0.5
    ensures hours.None? && minutes.None? ==> r == 0
  {
    MathRound(GroupValue(hours) * 60.0 + GroupValue(minutes))
  }

  /** normalizeNumberValue after the empty check, on the normalised text. */
  function NumberOf(normalized: string, fallback: string): (r: string)
    ensures r == fallback || IsCanonicalDecimal(r)
  {
    var rangeValue := match FirstMatch(Range, normalized, 0)
      case Some(g) => g
      case None => normalized;
    var hours := FirstMatch(Hours, rangeValue, 0);
    var minutes := FirstMatch(Minutes, rangeValue, 0);
    if hours.Some? || minutes.Some? then
      DecimalString(MarkerMinutes(hours, minutes))
    else
      match FirstMatch(Plain, rangeValue, 0)
      case None => fallback
      case Some(g) => DecimalString(MathRound(NumeralValue(g)))
  }

  /** normalizeNumberValue(value, fallback) */
  function NormalizeNumberValue(value: Option<string>, fallback: string): (r: string)
    ensures Normalize(value.GetOr("")) == "" ==> r == fallback
    ensures r == fallback || IsCanonicalDecimal(r)
  {
    var normalized := NormalizeValue(value, "");
    if normalized == "" then fallback else NumberOf(normalized, fallback)
  }

  // ---------------------------------------------------------------------
  // Lemmas: the scanners are the regular expressions

  lemma {:induction false} DigitWindow(s: string, j: nat, n: nat)
    requires j + n <= |s|
    requires forall k :: j <= k < j + n ==> InClass(Digits, s[k])
    ensures AllDigits(s[j..j + n])
  {
    var w := s[j..j + n];
    forall k | 0 <= k < |w| ensures IsDigit(w[k]) {
      assert w[k] == s[j + k];
      assert InClass(Digits, s[j + k]);
    }
  }

  predicate IsNumeralChar(c: char) { IsDigit(c) || IsDecimalPoint(c) }

  lemma {:induction false} RunCovers(cls: CharClass, s: string, j: nat, b: nat)
    requires j <= b <= |s|
    requires forall k :: j <= k < b ==> InClass(cls, s[k])
    ensures Run(cls, s, j) >= b - j
    decreases b - j
  {
    if j < b {
      RunCovers(cls, s, j + 1, b);
    }
  }

  /** The run is exactly as long as a stretch of class characters followed by a non-class one. */
  lemma {:induction false} RunExact(cls: CharClass, s: string, j: nat, b: nat)
    requires j <= b < |s|
    requires forall k :: j <= k < b ==> InClass(cls, s[k])
    requires !InClass(cls, s[b])
    ensures Run(cls, s, j) == b - j
  {
    RunCovers(cls, s, j, b);
    RunSpec(cls, s, j);
  }

  lemma {:induction false} NumeralStartsWithDigit(t: string)
    requires IsNumeral(t)
    ensures t != [] && IsDigit(t[0])
  {
    if !(t != [] && AllDigits(t)) {
      var p :| 0 < p < |t| - 1 && IsDecimalPoint(t[p]) && forall k :: 0 <= k < |t| && k != p ==> IsDigit(t[k]);
      assert IsDigit(t[0]);
    }
  }

  /** The scanner's numeral is a numeral, made of numeral characters, and the longest one at `i`. */
  lemma {:induction false} NumeralLenSpec(s: string, i: nat)
    requires i <= |s|
    ensures NumeralLen(s, i) > 0 <==> i < |s| && IsDigit(s[i])
    ensures NumeralLen(s, i) > 0 ==> IsNumeral(s[i..i + NumeralLen(s, i)])
    ensures forall k :: i <= k < i + NumeralLen(s, i) ==> IsNumeralChar(s[k])
    ensures forall a: nat :: i < a <= |s| && IsNumeral(s[i..a]) ==> a <= i + NumeralLen(s, i)
  {
    NumeralLenShape(s, i);
    forall a: nat | i < a <= |s| && IsNumeral(s[i..a]) ensures a <= i + NumeralLen(s, i) {
      NumeralGreedy(s, i, a);
    }
  }

  lemma {:induction false} NumeralLenShape(s: string, i: nat)
    requires i <= |s|
    ensures NumeralLen(s, i) > 0 <==> i < |s| && IsDigit(s[i])
    ensures NumeralLen(s, i) > 0 ==> IsNumeral(s[i..i + NumeralLen(s, i)])
    ensures forall k :: i <= k < i + NumeralLen(s, i) ==> IsNumeralChar(s[k])
  {
    var d := Run(Digits, s, i);
    var n := NumeralLen(s, i);
    RunSpec(Digits, s, i);
    assert forall k :: i <= k < i + d ==> IsDigit(s[k]) by {
      assert forall k :: i <= k < i + d ==> InClass(Digits, s[k]);
    }
    if n > d {
      var f := Run(Digits, s, i + d + 1);
      RunSpec(Digits, s, i + d + 1);
      assert forall k :: i + d + 1 <= k < i + n ==> IsDigit(s[k]) by {
        assert forall k :: i + d + 1 <= k < i + d + 1 + f ==> InClass(Digits, s[k]);
      }
    }
    if i < |s| && IsDigit(s[i]) {
      assert d > 0;
      var t := s[i..i + n];
      if n == d {
        assert AllDigits(t);
      } else {
        assert 0 < d < |t| - 1 && IsDecimalPoint(t[d]);
        assert forall k :: 0 <= k < |t| && k != d ==> IsDigit(t[k]);
      }
    }
  }

  lemma {:induction false} NumeralGreedy(s: string, i: nat, a: nat)
    requires i < a <= |s| && IsNumeral(s[i..a])
    ensures a <= i + NumeralLen(s, i)
  {
    var t := s[i..a];
    if t != [] && AllDigits(t) {
      assert forall k :: i <= k < a ==> InClass(Digits, s[k]) by {
        assert forall k :: i <= k < a ==> s[k] == t[k - i];
      }
      RunCovers(Digits, s, i, a);
    } else {
      var p :| 0 < p < |t| - 1 && IsDecimalPoint(t[p]) && forall k :: 0 <= k < |t| && k != p ==> IsDigit(t[k]);
      NumeralGreedyPoint(s, i, a, p);
    }
  }

  lemma {:induction false} NumeralGreedyPoint(s: string, i: nat, a: nat, p: nat)
    requires i + p + 1 < a <= |s| && 0 < p
    requires IsDecimalPoint(s[i + p])
    requires forall k :: i <= k < a && k != i + p ==> IsDigit(s[k])
    ensures a <= i + NumeralLen(s, i)
  {
    assert forall k :: i <= k < i + p ==> InClass(Digits, s[k]);
    RunExact(Digits, s, i, i + p);
    assert forall k :: i + p + 1 <= k < a ==> InClass(Digits, s[k]);
    RunCovers(Digits, s, i + p + 1, a);
  }

  /** A numeral followed by a non-numeral character is the scanner's numeral. */
  lemma {:induction false} NumeralUnique(s: string, i: nat, a: nat)
    requires i < a < |s| && IsNumeral(s[i..a]) && !IsNumeralChar(s[a])
    ensures a == i + NumeralLen(s, i)
  {
    NumeralLenSpec(s, i);
  }

  /**
   * The scanner agrees with the regular expression: it matches at `i` exactly
   * when the regular expression does, and its capture is the one the
   * regular expression yields — the only possible one for the patterns with
   * a tail, the longest for the plain numeral (greedy quantifiers).
   */
  lemma {:induction false} ScannerIsRegex(p: Pattern, s: string, i: nat)
    requires i <= |s|
    ensures MatchesAt(p, s, i) <==> exists a: nat :: RegexMatchAt(p, s, i, a)
    ensures MatchesAt(p, s, i) ==> RegexMatchAt(p, s, i, i + NumeralLen(s, i))
    ensures forall a: nat :: RegexMatchAt(p, s, i, a) ==> a <= i + NumeralLen(s, i)
    ensures p != Plain ==> forall a: nat :: RegexMatchAt(p, s, i, a) ==> a == i + NumeralLen(s, i)
  {
    NumeralLenSpec(s, i);
    var n := NumeralLen(s, i);
    var j := i + n;
    if MatchesAt(p, s, i) {
      ScannerTailIsRegexTail(p, s, j);
      assert RegexMatchAt(p, s, i, j);
    }
    forall a: nat | RegexMatchAt(p, s, i, a)
      ensures MatchesAt(p, s, i)
      ensures p != Plain ==> a == j
    {
      NumeralStartsWithDigit(s[i..a]);
      assert s[i..a][0] == s[i];
      if p != Plain {
        RegexTailStartsOutsideNumeral(p, s, a);
        NumeralUnique(s, i, a);
        RegexTailIsScannerTail(p, s, a);
      }
    }
  }

  lemma {:induction false} ScannerTailIsRegexTail(p: Pattern, s: string, j: nat)
    requires j <= |s| && TailAt(p, s, j)
    ensures RegexTail(p, s, j)
  {
    match p
    case Range =>
      var k := j + Run(Seps, s, j);
      RunSpec(Seps, s, j);
      assert forall m :: j <= m < k ==> IsRangeSep(s[m]) by {
        assert forall m :: j <= m < k ==> InClass(Seps, s[m]);
      }
    case Hours =>
      var k := j + Run(Spaces, s, j);
      RunSpec(Spaces, s, j);
      assert forall m :: j <= m < k ==> IsSpace(s[m]) by {
        assert forall m :: j <= m < k ==> InClass(Spaces, s[m]);
      }
    case Minutes =>
      var k := j + Run(Spaces, s, j);
      RunSpec(Spaces, s, j);
      assert forall m :: j <= m < k ==> IsSpace(s[m]) by {
        assert forall m :: j <= m < k ==> InClass(Spaces, s[m]);
      }
    case Plain =>
  }

  lemma SepIsNotNumeral(c: char)
    requires IsRangeSep(c)
    ensures !IsNumeralChar(c)
  {
  }

  lemma SpaceIsNotNumeral(c: char)
    requires IsSpace(c)
    ensures !IsNumeralChar(c)
  {
  }

  lemma {:induction false} RegexTailStartsOutsideNumeral(p: Pattern, s: string, a: nat)
    requires p != Plain && a <= |s| && RegexTail(p, s, a)
    ensures a < |s| && !IsNumeralChar(s[a])
  {
    match p
    case Range =>
      var b :| a < b < |s| && (forall k :: a <= k < b ==> IsRangeSep(s[k])) && IsDigit(s[b]);
      SepIsNotNumeral(s[a]);
    case Hours =>
      var b :| a <= b < |s| && (forall k :: a <= k < b ==> IsSpace(s[k])) && IsMarker(p, s[b]);
      if a < b { SpaceIsNotNumeral(s[a]); }
    case Minutes =>
      var b :| a <= b < |s| && (forall k :: a <= k < b ==> IsSpace(s[k])) && IsMarker(p, s[b]);
      if a < b { SpaceIsNotNumeral(s[a]); }
  }

  lemma {:induction false} RegexTailIsScannerTail(p: Pattern, s: string, j: nat)
    requires j <= |s| && RegexTail(p, s, j)
    ensures TailAt(p, s, j)
  {
    if p == Range {
      RangeTailIsScannerTail(s, j);
    } else if p != Plain {
      MarkerTailIsScannerTail(p, s, j);
    }
  }

  lemma {:induction false} RangeTailIsScannerTail(s: string, j: nat)
    requires j <= |s| && RegexTail(Range, s, j)
    ensures TailAt(Range, s, j)
  {
    var b :| j < b < |s| && (forall k :: j <= k < b ==> IsRangeSep(s[k])) && IsDigit(s[b]);
    assert forall k :: j <= k < b ==> InClass(Seps, s[k]);
    DigitIsNotSep(s[b]);
    RunExact(Seps, s, j, b);
    assert j + Run(Seps, s, j) == b;
  }

  lemma DigitIsNotSep(c: char)
    requires IsDigit(c)
    ensures !InClass(Seps, c)
  {
  }

  lemma MarkerIsNotSpace(p: Pattern, c: char)
    requires IsMarker(p, c)
    ensures !InClass(Spaces, c)
  {
  }

  lemma {:induction false} MarkerTailIsScannerTail(p: Pattern, s: string, j: nat)
    requires p == Hours || p == Minutes
    requires j <= |s| && RegexTail(p, s, j)
    ensures TailAt(p, s, j)
  {
    var b :| j <= b < |s| && (forall k :: j <= k < b ==> IsSpace(s[k])) && IsMarker(p, s[b]);
    assert forall k :: j <= k < b ==> InClass(Spaces, s[k]);
    MarkerIsNotSpace(p, s[b]);
    RunExact(Spaces, s, j, b);
    assert j + Run(Spaces, s, j) == b;
  }

  // ---------------------------------------------------------------------
  // Lemmas: what normalizeNumberValue returns

  /** No match of an h or m marker pattern inside a string of numeral characters. */
  lemma {:induction false} NoMarkerInNumeral(p: Pattern, t: string)
    requires p == Hours || p == Minutes
    requires forall k :: 0 <= k < |t| ==> IsNumeralChar(t[k])
    ensures FirstMatch(p, t, 0) == None
  {
    forall k | 0 <= k <= |t| ensures !MatchesAt(p, t, k) {
      if NumeralLen(t, k) > 0 {
        var j := k + NumeralLen(t, k);
        var m := j + Run(Spaces, t, j);
        assert m < |t| ==> !IsMarker(p, t[m]) by {
          if m < |t| { assert IsNumeralChar(t[m]); }
        }
      }
    }
    FirstMatchSpec(p, t, 0);
  }

  lemma {:induction false} NoDigitNoMatch(p: Pattern, t: string)
    requires forall i :: 0 <= i < |t| ==> !IsDigit(t[i])
    ensures FirstMatch(p, t, 0) == None
  {
    forall k | 0 <= k <= |t| ensures !MatchesAt(p, t, k) {
      NumeralLenSpec(t, k);
    }
    FirstMatchSpec(p, t, 0);
  }

  /** The plain numeral pattern finds a whole numeral in itself. */
  lemma {:induction false} PlainOfNumeral(g: string)
    requires IsNumeral(g)
    ensures FirstMatch(Plain, g, 0) == Some(g)
  {
    NumeralStartsWithDigit(g);
    NumeralLenSpec(g, 0);
    assert g[0..|g|] == g;
    assert MatchesAt(Plain, g, 0);
  }

  /** The first group of a range match is a numeral holding no h or m marker. */
  lemma {:induction false} RangeCapture(n: string, g: string)
    requires FirstMatch(Range, n, 0) == Some(g)
    ensures IsNumeral(g)
    ensures FirstMatch(Hours, g, 0) == None && FirstMatch(Minutes, g, 0) == None
    ensures FirstMatch(Plain, g, 0) == Some(g)
  {
    FirstMatchSome(Range, n, 0);
    var k :| 0 <= k < |n| && MatchesAt(Range, n, k) && g == n[k..k + NumeralLen(n, k)];
    NumeralLenSpec(n, k);
    assert forall m :: 0 <= m < |g| ==> IsNumeralChar(g[m]) by {
      assert forall m :: 0 <= m < |g| ==> g[m] == n[k + m];
    }
    NoMarkerInNumeral(Hours, g);
    NoMarkerInNumeral(Minutes, g);
    PlainOfNumeral(g);
  }

  /**
   * When a range such as "10-15" occurs, only the first number of the
   * leftmost range survives: any h or m marker elsewhere is lost.
   */
  lemma {:induction false} RangeKeepsFirstNumber(value: Option<string>, fallback: string, n: string, g: string)
    requires n == Normalize(value.GetOr(""))
    requires FirstMatch(Range, n, 0) == Some(g)
    ensures IsNumeral(g)
    ensures NormalizeNumberValue(value, fallback) == DecimalString(MathRound(NumeralValue(g)))
  {
    RangeCapture(n, g);
    assert NormalizeValue(value, "") == n;
    assert n != "" by { assert FirstMatch(Range, [], 0) == None; }
  }

  /**
   * Without a range, the hours are the first numeral followed by an h and the
   * minutes the first followed by an m; the result is round(h * 60 + m).
   */
  lemma {:induction false} MarkersGiveMinutes(value: Option<string>, fallback: string, n: string)
    requires n == Normalize(value.GetOr(""))
    requires n != "" && FirstMatch(Range, n, 0) == None
    requires FirstMatch(Hours, n, 0).Some? || FirstMatch(Minutes, n, 0).Some?
    ensures NormalizeNumberValue(value, fallback)
      == DecimalString(MarkerMinutes(FirstMatch(Hours, n, 0), FirstMatch(Minutes, n, 0)))
  {
    assert NormalizeValue(value, "") == n;
    assert NumberOf(n, fallback) == DecimalString(MarkerMinutes(FirstMatch(Hours, n, 0), FirstMatch(Minutes, n, 0)));
  }

  /**
   * The fallback is used exactly when the normalised text holds no digit;
   * otherwise the result is the decimal rendering of a whole number.
   */
  lemma {:induction false} DigitDecides(value: Option<string>, fallback: string, n: string)
    requires n == Normalize(value.GetOr(""))
    ensures (forall i :: 0 <= i < |n| ==> !IsDigit(n[i])) ==> NormalizeNumberValue(value, fallback) == fallback
    ensures (exists i :: 0 <= i < |n| && IsDigit(n[i])) ==>
      exists m: nat :: NormalizeNumberValue(value, fallback) == DecimalString(m)
  {
    var r := NormalizeNumberValue(value, fallback);
    assert NormalizeValue(value, "") == n;
    if forall i :: 0 <= i < |n| ==> !IsDigit(n[i]) {
      NoDigitNoMatch(Range, n);
      NoDigitNoMatch(Hours, n);
      NoDigitNoMatch(Minutes, n);
      NoDigitNoMatch(Plain, n);
    } else {
      var i :| 0 <= i < |n| && IsDigit(n[i]);
      var range := FirstMatch(Range, n, 0);
      if range.Some? {
        RangeKeepsFirstNumber(value, fallback, n, range.value);
        assert r == DecimalString(MathRound(NumeralValue(range.value)));
      } else if FirstMatch(Hours, n, 0).Some? || FirstMatch(Minutes, n, 0).Some? {
        MarkersGiveMinutes(value, fallback, n);
      } else {
        NumeralLenSpec(n, i);
        assert MatchesAt(Plain, n, i);
        FirstMatchSpec(Plain, n, 0);
        PlainRoundsFirstNumeral(value, fallback, n, FirstMatch(Plain, n, 0).value);
      }
    }
  }

  /**
   * Without a range and without an h or m marker, the result is the first
   * numeral of the text, rounded: "4 personnes" gives "4".
   */
  lemma {:induction false} PlainRoundsFirstNumeral(value: Option<string>, fallback: string, n: string, g: string)
    requires n == Normalize(value.GetOr(""))
    requires FirstMatch(Range, n, 0) == None
    requires FirstMatch(Hours, n, 0) == None && FirstMatch(Minutes, n, 0) == None
    requires FirstMatch(Plain, n, 0) == Some(g)
    ensures IsNumeral(g)
    ensures NormalizeNumberValue(value, fallback) == DecimalString(MathRound(NumeralValue(g)))
  {
    assert NormalizeValue(value, "") == n;
    assert n != "" by { assert FirstMatch(Plain, [], 0) == None; }
  }

  // ---------------------------------------------------------------------
  // Worked examples

  /** The results of the examples below, as `String` prints them. */
  lemma PrintedResults()
    ensures DecimalString(1) == "1" && DecimalString(10) == "10"
    ensures DecimalString(60) == "60" && DecimalString(90) == "90"
  {
  }

  lemma {:induction false} RangeExampleFacts(n: string)
    requires n == "10-15 minutes"
    ensures MatchesAt(Range, n, 0) && n[..NumeralLen(n, 0)] == "10"
  {
    assert Run(Digits, n, 2) == 0;
    assert Run(Digits, n, 1) == 1;
    assert NumeralLen(n, 0) == 2;
    assert Run(Seps, n, 2) == 1;
  }

  /** The example texts without a marker are already normalised. */
  lemma {:induction false} ExampleNormalized(n: string)
    requires n == "10-15 minutes" || n == "1-2 h" || n == "4 personnes"
    ensures Normalize(n) == n
  {
    NormalizeFixesNormalized(n);
  }

  lemma {:induction false} RangeAtStart(n: string, g: string, fallback: string)
    requires Normalize(n) == n && MatchesAt(Range, n, 0) && n[..NumeralLen(n, 0)] == g
    ensures NormalizeNumberValue(Some(n), fallback) == DecimalString(MathRound(NumeralValue(g)))
  {
    assert FirstMatch(Range, n, 0) == Some(g) by {
      FirstMatchAt(Range, n, 0);
      assert n[0..0 + NumeralLen(n, 0)] == n[..NumeralLen(n, 0)];
    }
    RangeKeepsFirstNumber(Some(n), fallback, n, g);
  }

  /** "10-15 minutes": a range, whose first number wins. */
  lemma {:induction false} ExampleRange(n: string)
    requires n == "10-15 minutes"
    ensures NormalizeNumberValue(Some(n), "0") == "10"
  {
    RangeExampleFacts(n);
    ExampleNormalized(n);
    RangeAtStart(n, "10", "0");
    PrintedResults();
    assert MathRound(10.0) == 10;
  }

  lemma {:induction false} HourRangeFacts(n: string)
    requires n == "1-2 h"
    ensures MatchesAt(Range, n, 0) && n[..NumeralLen(n, 0)] == "1"
  {
    assert Run(Digits, n, 1) == 0;
    assert NumeralLen(n, 0) == 1;
    assert Run(Seps, n, 1) == 1;
  }

  /** "1-2 h": a range again; its first number wins and the hour marker is lost. */
  lemma {:induction false} ExampleHourRange(n: string)
    requires n == "1-2 h"
    ensures NormalizeNumberValue(Some(n), "0") == "1"
  {
    HourRangeFacts(n);
    ExampleNormalized(n);
    RangeAtStart(n, "1", "0");
    PrintedResults();
    assert MathRound(1.0) == 1;
  }

  lemma {:induction false} HoursMinutesLengths(n: string)
    requires n == "1 h 30 min"
    ensures NumeralLen(n, 0) == 1 && NumeralLen(n, 4) == 2 && NumeralLen(n, 5) == 1
    ensures forall k :: 0 <= k <= |n| && k != 0 && k != 4 && k != 5 ==> NumeralLen(n, k) == 0
    ensures Normalize(n) == n
  {
    NormalizeFixesNormalized(n);
    assert Run(Digits, n, 1) == 0;
    assert Run(Digits, n, 6) == 0;
    assert Run(Digits, n, 5) == 1;
    forall k | 0 <= k <= |n| && k != 0 && k != 4 && k != 5 ensures NumeralLen(n, k) == 0 {
      NumeralLenSpec(n, k);
    }
  }

  lemma {:induction false} HoursMinutesNoRange(n: string)
    requires n == "1 h 30 min"
    ensures forall k :: 0 <= k <= |n| ==> !MatchesAt(Range, n, k)
  {
    HoursMinutesLengths(n);
    assert Run(Seps, n, 1) == 1 && Run(Seps, n, 6) == 1;
  }

  lemma {:induction false} HoursMinutesMarkers(n: string)
    requires n == "1 h 30 min"
    ensures MatchesAt(Hours, n, 0) && n[..NumeralLen(n, 0)] == "1"
    ensures (forall k :: 0 <= k < 4 ==> !MatchesAt(Minutes, n, k)) && MatchesAt(Minutes, n, 4)
    ensures n[4..4 + NumeralLen(n, 4)] == "30"
  {
    HoursMinutesLengths(n);
    assert Run(Spaces, n, 1) == 1 && Run(Spaces, n, 6) == 1;
  }

  lemma {:induction false} HoursMinutesMatches(n: string)
    requires n == "1 h 30 min"
    ensures FirstMatch(Range, n, 0) == None
    ensures FirstMatch(Hours, n, 0) == Some("1") && FirstMatch(Minutes, n, 0) == Some("30")
  {
    HoursMinutesNoRange(n);
    HoursMinutesMarkers(n);
    FirstMatchNone(Range, n, 0);
    FirstMatchAt(Hours, n, 0);
    assert n[0..0 + NumeralLen(n, 0)] == n[..NumeralLen(n, 0)];
    FirstMatchAt(Minutes, n, 4);
  }

  /** "1 h 30 min": one hour and thirty minutes. */
  lemma {:induction false} ExampleHoursMinutes(n: string)
    requires n == "1 h 30 min"
    ensures NormalizeNumberValue(Some(n), "0") == "90"
  {
    HoursMinutesLengths(n);
    HoursMinutesMatches(n);
    MarkersGiveMinutes(Some(n), "0", n);
    PrintedResults();
    assert MathRound(90.0) == 90;
  }

  lemma {:induction false} HourDigitsLengths(n: string)
    requires n == "1h30"
    ensures NumeralLen(n, 0) == 1 && NumeralLen(n, 2) == 2 && NumeralLen(n, 3) == 1
    ensures NumeralLen(n, 1) == 0 && NumeralLen(n, 4) == 0
    ensures Normalize(n) == n
  {
    NormalizeFixesNormalized(n);
    assert Run(Digits, n, 1) == 0;
    assert Run(Digits, n, 4) == 0;
    assert Run(Digits, n, 3) == 1;
  }

  lemma {:induction false} HourDigitsMatches(n: string)
    requires n == "1h30"
    ensures forall k :: 0 <= k <= |n| ==> !MatchesAt(Range, n, k) && !MatchesAt(Minutes, n, k)
    ensures MatchesAt(Hours, n, 0) && n[..NumeralLen(n, 0)] == "1"
  {
    HourDigitsLengths(n);
    assert Run(Seps, n, 1) == 0 && Run(Seps, n, 4) == 0;
    assert Run(Spaces, n, 1) == 0 && Run(Spaces, n, 4) == 0;
  }

  lemma {:induction false} HourDigitsFirstMatches(n: string)
    requires n == "1h30"
    ensures FirstMatch(Range, n, 0) == None && FirstMatch(Minutes, n, 0) == None
    ensures FirstMatch(Hours, n, 0) == Some("1")
  {
    HourDigitsMatches(n);
    FirstMatchNone(Range, n, 0);
    FirstMatchNone(Minutes, n, 0);
    FirstMatchAt(Hours, n, 0);
    assert n[0..0 + NumeralLen(n, 0)] == n[..NumeralLen(n, 0)];
  }

  /**
   * "1h30": the minutes pattern needs an m, so the trailing 30 is not read
   * and the result is one hour.
   */
  lemma {:induction false} ExampleHourDigits(n: string)
    requires n == "1h30"
    ensures NormalizeNumberValue(Some(n), "0") == "60"
  {
    HourDigitsLengths(n);
    HourDigitsFirstMatches(n);
    MarkersGiveMinutes(Some(n), "0", n);
    PrintedResults();
    assert MathRound(60.0) == 60;
  }

  lemma {:induction false} ServingsLengths(n: string)
    requires n == "4 personnes"
    ensures NumeralLen(n, 0) == 1
    ensures forall k :: 0 < k <= |n| ==> NumeralLen(n, k) == 0
  {
    assert Run(Digits, n, 1) == 0;
    forall k | 0 < k <= |n| ensures NumeralLen(n, k) == 0 {
      NumeralLenSpec(n, k);
    }
  }

  lemma {:induction false} ServingsMatches(n: string)
    requires n == "4 personnes"
    ensures FirstMatch(Range, n, 0) == None
    ensures FirstMatch(Hours, n, 0) == None && FirstMatch(Minutes, n, 0) == None
    ensures FirstMatch(Plain, n, 0) == Some("4")
  {
    ServingsLengths(n);
    assert Run(Seps, n, 1) == 1 && Run(Spaces, n, 1) == 1;
    FirstMatchNone(Range, n, 0);
    FirstMatchNone(Hours, n, 0);
    FirstMatchNone(Minutes, n, 0);
    FirstMatchAt(Plain, n, 0);
    assert n[0..0 + NumeralLen(n, 0)] == "4";
  }

  /** "4 personnes": no range and no marker, so the first number is kept. */
  lemma {:induction false} ExampleServings(n: string)
    requires n == "4 personnes"
    ensures NormalizeNumberValue(Some(n), "1") == "4"
  {
    ExampleNormalized(n);
    ServingsMatches(n);
    PlainRoundsFirstNumeral(Some(n), "1", n, "4");
    assert NumeralValue("4") == 4.0 by {
      assert DigitsValue("4") == 4;
    }
    assert MathRound(4.0) == 4;
    assert DecimalString(4) == "4";
  }
}
