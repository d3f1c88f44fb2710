/**
 * The two Unicode character maps the recipe service relies on, restricted to
 * ASCII and the Latin-1 Supplement (plus the one Latin-1 letter whose
 * upper-case form lies outside it, U+0178):
 *   `String.prototype.toLowerCase`, used by the ingredient unit test and by
 *   the slug deriver, and the canonical decomposition of `normalize('NFD')`
 *   (Unicode Standard Annex #15), used by the slug deriver.
 * Every other character maps to itself.
 */
module Letters {

  /** `toLowerCase` on one character. */
  function LowerChar(c: char): (r: char)
    ensures 'A' <= c <= 'Z' ==> r == (c as int + 32) as char
    ensures !('A' <= c <= 'Z') && c < '\U{0080}' ==> r == c
  {
    if 'A' <= c <= 'Z' || ('\U{00C0}' <= c <= '\U{00DE}' && c != '\U{00D7}') then (c as int + 32) as char
    else if c == '\U{0178}' then '\U{00FF}'
    else c
  }

  /** `s.toLowerCase()`: character by character. */
  function Lower(s: string): (r: string)
    ensures |r| == |s|
    ensures forall i :: 0 <= i < |s| && 'A' <= s[i] <= 'Z' ==> r[i] == (s[i] as int + 32) as char
    ensures forall i :: 0 <= i < |s| && s[i] < '\U{0080}' && !('A' <= s[i] <= 'Z') ==> r[i] == s[i]
    ensures forall i :: 0 <= i < |s| ==> !('A' <= r[i] <= 'Z')
  {
    seq(|s|, i requires 0 <= i < |s| => LowerChar(s[i]))
  }

  /**
   * The canonical decomposition of a Latin-1 letter: its ASCII base letter
   * and the combining mark (U+0300 grave, U+0301 acute, U+0302 circumflex,
   * U+0303 tilde, U+0308 diaeresis, U+030A ring, U+0327 cedilla).
   * Zero when the letter at this offset of the block has none.
   */
  function LatinMark(k: int): char {
    if k == 0 || k == 8 || k == 12 || k == 18 || k == 25 then '\U{0300}'
    else if k == 1 || k == 9 || k == 13 || k == 19 || k == 26 || k == 29 then '\U{0301}'
    else if k == 2 || k == 10 || k == 14 || k == 20 || k == 27 then '\U{0302}'
    else if k == 3 || k == 17 || k == 21 then '\U{0303}'
    else if k == 4 || k == 11 || k == 15 || k == 22 || k == 28 || k == 31 then '\U{0308}'
    else if k == 5 then '\U{030A}'
    else if k == 7 then '\U{0327}'
    else '\0'
  }

  /** The base letter, as an offset from 'A', of the Latin-1 letter at offset `k`. */
  function LatinBase(k: int): int {
    if 0 <= k <= 5 then 0
    else if k == 7 then 2
    else if 8 <= k <= 11 then 4
    else if 12 <= k <= 15 then 8
    else if k == 17 then 13
    else if 18 <= k <= 22 then 14
    else if 25 <= k <= 28 then 20
    else 24
  }

  /** The canonical decomposition (NFD) of one character. */
  function Decompose(c: char): (r: string)
    ensures 1 <= |r| <= 2
  {
    if '\U{00C0}' <= c <= '\U{00DD}' && LatinMark(c as int - 0xC0) != '\0' then
      var k := c as int - 0xC0;
      [('A' as int + LatinBase(k)) as char, LatinMark(k)]
    else if '\U{00E0}' <= c <= '\U{00FF}' && LatinMark(c as int - 0xE0) != '\0' then
      var k := c as int - 0xE0;
      [('a' as int + LatinBase(k)) as char, LatinMark(k)]
    else if c == '\U{0178}' then ['Y', '\U{0308}']
    else [c]
  }

  /** A character that decomposition leaves as it is. */
  predicate Decomposed(c: char) {
    Decompose(c) == [c]
  }

  /** Every character of a decomposition is itself fully decomposed. */
  lemma DecomposeFixed(c: char)
    ensures forall j :: 0 <= j < |Decompose(c)| ==> Decomposed(Decompose(c)[j])
  {
  }

  /** `s.normalize('NFD')`: every character decomposed, each into one or two characters. */
  function Nfd(s: string): (r: string)
    ensures |s| <= |r| <= 2 * |s|
  {
    if s == [] then [] else Decompose(s[0]) + Nfd(s[1..])
  }

  /** Nothing is left to decompose after NFD. */
  lemma {:induction false} NfdDecomposed(s: string)
    ensures forall i :: 0 <= i < |Nfd(s)| ==> Decomposed(Nfd(s)[i])
  {
    if s != [] {
      var d, rest := Decompose(s[0]), Nfd(s[1..]);
      NfdDecomposed(s[1..]);
      DecomposeFixed(s[0]);
      assert Nfd(s) == d + rest;
      assert forall i :: |d| <= i < |d + rest| ==> (d + rest)[i] == rest[i - |d|];
    }
  }

  /** A fully decomposed string is its own decomposition. */
  lemma {:induction false} NfdOfDecomposed(t: string)
    requires forall i :: 0 <= i < |t| ==> Decomposed(t[i])
    ensures Nfd(t) == t
  {
    if t != [] {
      NfdOfDecomposed(t[1..]);
      assert t == [t[0]] + t[1..];
    }
  }

  /** Decomposing twice is decomposing once. */
  lemma {:induction false} NfdIdempotent(s: string)
    ensures Nfd(Nfd(s)) == Nfd(s)
  {
    NfdDecomposed(s);
    NfdOfDecomposed(Nfd(s));
  }

  /** Lower-casing works character by character, so piece by piece. */
  lemma LowerAppend(a: string, b: string)
    ensures Lower(a + b) == Lower(a) + Lower(b)
  {
    var l, r := Lower(a + b), Lower(a) + Lower(b);
    assert |l| == |r|;
    forall i | 0 <= i < |l| ensures l[i] == r[i] {
      if i < |a| {
        assert (a + b)[i] == a[i];
      } else {
        assert (a + b)[i] == b[i - |a|];
      }
    }
  }

  /** Lower-casing twice is lower-casing once. */
  lemma {:induction false} LowerIdempotent(s: string)
    ensures Lower(Lower(s)) == Lower(s)
  {
    var l := Lower(s);
    forall i | 0 <= i < |s|
      ensures Lower(l)[i] == l[i]
    {
      assert l[i] == LowerChar(s[i]);
    }
  }

  /** Decomposition leaves ASCII alone. */
  lemma {:induction false} NfdAscii(s: string)
    requires forall i :: 0 <= i < |s| ==> s[i] < '\U{0080}'
    ensures Nfd(s) == s
  {
    if s != [] {
      NfdAscii(s[1..]);
      assert s == [s[0]] + s[1..];
    }
  }

  /** Lower-casing leaves ASCII without capitals alone. */
  lemma LowerAscii(s: string)
    requires forall i :: 0 <= i < |s| ==> s[i] < '\U{0080}' && !('A' <= s[i] <= 'Z')
    ensures Lower(s) == s
  {
  }

  /** Examples of the tables: É lower-cases to é, which decomposes to e and an acute accent. */
  lemma LetterExamples()
    ensures LowerChar('\U{00C9}') == '\U{00E9}' && LowerChar('\U{00C0}') == '\U{00E0}'
    ensures Decompose('\U{00E9}') == "e\U{0301}" && Decompose('\U{00E7}') == "c\U{0327}"
    ensures Decompose('\U{00F8}') == "\U{00F8}"
  {
  }
}
