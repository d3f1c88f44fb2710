/**
 * Whitespace handling shared by every normaliser of the recipe service:
 * `value.replace(/\s+/g, ' ').trim()` (recipes.service.ts, normalizeValue),
 * and the `split(' ')` / `join(' ')` pair used by the ingredient tokenizer.
 */
module Text {
  import opened Wrappers

  /** The characters of the JavaScript class `\s`; `String.prototype.trim` strips the same set. */
  predicate IsSpace(c: char) {
    || c == '\t' || c == '\n' || c == '\U{000B}' || c == '\U{000C}' || c == '\r' || c == ' '
    || c == '\U{00A0}' || c == '\U{1680}' || ('\U{2000}' <= c <= '\U{200A}')
    || c == '\U{2028}' || c == '\U{2029}' || c == '\U{202F}' || c == '\U{205F}'
    || c == '\U{3000}' || c == '\U{FEFF}'
  }

  predicate NoSpace(w: string) {
    forall i :: 0 <= i < |w| ==> !IsSpace(w[i])
  }

  /** A list of words: each non-empty and free of whitespace. */
  predicate IsWords(ws: seq<string>) {
    forall k :: 0 <= k < |ws| ==> ws[k] != [] && NoSpace(ws[k])
  }

  /**
   * A normalised string: its only whitespace is the plain space, never at
   * either end and never twice in a row.
   */
  predicate IsNormalized(t: string) {
    forall i :: 0 <= i < |t| && IsSpace(t[i]) ==> t[i] == ' ' && 0 < i < |t| - 1 && t[i + 1] != ' '
  }

  /** The leading run of whitespace removed (also `trimStart`). */
  function DropSpaces(s: string): (r: string)
    ensures |r| <= |s|
    ensures r == [] || !IsSpace(r[0])
    ensures r != [] ==> r[|r| - 1] == s[|s| - 1]
    ensures s != [] && IsSpace(s[0]) ==> |r| < |s|
  {
    if s != [] && IsSpace(s[0]) then DropSpaces(s[1..]) else s
  }

  /** The trailing run of whitespace removed. */
  function TrimEnd(s: string): (r: string)
    ensures |r| <= |s| && r == s[..|r|]
    ensures r == [] || !IsSpace(r[|r| - 1])
  {
    if s != [] && IsSpace(s[|s| - 1]) then TrimEnd(s[..|s| - 1]) else s
  }

  /** TrimEnd removes a suffix made of whitespace only. */
  lemma {:induction false} TrimEndSuffix(s: string)
    ensures forall i :: |TrimEnd(s)| <= i < |s| ==> IsSpace(s[i])
  {
    if s != [] && IsSpace(s[|s| - 1]) {
      var p := s[..|s| - 1];
      TrimEndSuffix(p);
      assert forall i :: 0 <= i < |p| ==> p[i] == s[i];
    }
  }

  /** `s.trim()` */
  function Trim(s: string): (r: string)
    ensures r == [] || (!IsSpace(r[0]) && !IsSpace(r[|r| - 1]))
  {
    TrimEnd(DropSpaces(s))
  }

  /** Trimming cuts out a slice of `s`: only whitespace is removed, and only at the ends. */
  lemma {:induction false} TrimSlice(s: string)
    ensures var a, r := |s| - |DropSpaces(s)|, Trim(s);
            && a + |r| <= |s| && r == s[a..a + |r|]
            && (forall i :: 0 <= i < a ==> IsSpace(s[i]))
            && (forall i :: a + |r| <= i < |s| ==> IsSpace(s[i]))
  {
    DropSpacesPrefix(s);
    var d := DropSpaces(s);
    var a := |s| - |d|;
    var r := TrimEnd(d);
    TrimEndSuffix(d);
    assert forall i :: a + |r| <= i < |s| ==> s[i] == d[i - a];
  }

  /** The longest prefix without whitespace. */
  function Word(s: string): (w: string)
    ensures |w| <= |s| && w == s[..|w|] && NoSpace(w)
    ensures |w| == |s| || IsSpace(s[|w|])
    ensures s != [] && !IsSpace(s[0]) ==> w != []
  {
    if s == [] || IsSpace(s[0]) then [] else [s[0]] + Word(s[1..])
  }

  /** `s.replace(/\s+/g, ' ')`: every maximal run of whitespace becomes one space. */
  function Collapse(s: string): (r: string)
    ensures |r| <= |s|
    ensures forall i :: 0 <= i < |r| && IsSpace(r[i]) ==> r[i] == ' '
    ensures r != [] && IsSpace(r[0]) <==> s != [] && IsSpace(s[0])
    decreases |s|
  {
    if s == [] then []
    else if IsSpace(s[0]) then " " + Collapse(DropSpaces(s))
    else var w := Word(s); w + Collapse(s[|w|..])
  }

  /** The maximal whitespace-free runs of `s`, in order: a reference definition. */
  function Words(s: string): (ws: seq<string>)
    ensures IsWords(ws)
    decreases |s|
  {
    if s == [] then []
    else if IsSpace(s[0]) then Words(DropSpaces(s))
    else var w := Word(s); [w] + Words(s[|w|..])
  }

  /** `ws.join(' ')`: empty only for no words or one empty word. */
  function Join(ws: seq<string>): (r: string)
    ensures r == "" <==> ws == [] || ws == [""]
  {
    if ws == [] then ""
    else if |ws| == 1 then ws[0]
    else ws[0] + " " + Join(ws[1..])
  }

  /** The longest prefix without a plain space. */
  function Field(s: string): (f: string)
    ensures |f| <= |s| && f == s[..|f|] && ' ' !in f
    ensures |f| == |s| || s[|f|] == ' '
  {
    if s == [] || s[0] == ' ' then [] else [s[0]] + Field(s[1..])
  }

  /** `s.split(' ')` */
  function Split(s: string): (r: seq<string>)
    ensures |r| >= 1
    ensures forall k :: 0 <= k < |r| ==> ' ' !in r[k]
    decreases |s|
  {
    var f := Field(s);
    if |f| == |s| then [s] else [f] + Split(s[|f| + 1..])
  }

  /** `value.replace(/\s+/g, ' ').trim()` on a string. */
  function Normalize(s: string): (r: string)
    ensures IsNormalized(r)
    ensures Words(r) == Words(s)
    ensures r == Join(Words(s))
  {
    NormalizeIsJoinOfWords(s);
    WordsJoin(Words(s));
    JoinNormalized(Words(s));
    Trim(Collapse(s))
  }

  /**
   * normalizeValue(value, fallback): `String(value ?? '')` normalised, or the
   * fallback when that is empty. `None` stands for `undefined` and `null`.
   */
  function NormalizeValue(value: Option<string>, fallback: string): (r: string)
    ensures var n := Normalize(value.GetOr(""));
            if n == "" then r == fallback else r == n && r != "" && IsNormalized(r)
  {
    var n := Normalize(value.GetOr(""));
    if n == "" then fallback else n
  }

  // ---------------------------------------------------------------------
  // Lemmas

  /** DropSpaces removes a prefix made of whitespace only. */
  lemma {:induction false} DropSpacesPrefix(s: string)
    ensures DropSpaces(s) == s[|s| - |DropSpaces(s)|..]
    ensures forall i :: 0 <= i < |s| - |DropSpaces(s)| ==> IsSpace(s[i])
  {
    if s != [] && IsSpace(s[0]) {
      DropSpacesPrefix(s[1..]);
      assert DropSpaces(s) == DropSpaces(s[1..]);
      forall i | 0 < i < |s| - |DropSpaces(s)| ensures IsSpace(s[i]) {
        assert s[i] == s[1..][i - 1];
      }
    }
  }

  lemma {:induction false} WordsEmpty(s: string)
    ensures Words(s) == [] <==> forall i :: 0 <= i < |s| ==> IsSpace(s[i])
    ensures Normalize(s) == "" <==> Words(s) == []
  {
    WordsEmptyBody(s);
    if Words(s) != [] {
      assert Words(s)[0] != "";
    }
  }

  /** The first half of `WordsEmpty`, by induction. */
  lemma {:induction false} WordsEmptyBody(s: string)
    ensures Words(s) == [] <==> forall i :: 0 <= i < |s| ==> IsSpace(s[i])
    decreases |s|
  {
    if s != [] && IsSpace(s[0]) {
      var t := DropSpaces(s);
      WordsEmptyBody(t);
      assert Words(s) == Words(t);
      DropSpacesPrefix(s);
      if Words(s) == [] {
        assert t == [];
      }
    } else if s != [] {
      assert Words(s) != [];
    }
  }

  /** A non-empty list of words joins to a string with non-space ends. */
  lemma {:induction false} JoinEnds(ws: seq<string>)
    requires IsWords(ws)
    ensures Join(ws) == "" <==> ws == []
    ensures ws != [] ==> Join(ws)[0] == ws[0][0]
    ensures ws != [] ==> !IsSpace(Join(ws)[0]) && !IsSpace(Join(ws)[|Join(ws)| - 1])
  {
    if |ws| > 1 {
      JoinEnds(ws[1..]);
      var j := Join(ws[1..]);
      assert Join(ws) == ws[0] + " " + j;
      assert Join(ws)[|Join(ws)| - 1] == j[|j| - 1];
    } else if |ws| == 1 {
      assert !IsSpace(ws[0][0]) && !IsSpace(ws[0][|ws[0]| - 1]);
    }
  }

  function Lead(s: string): string {
    if s != [] && IsSpace(s[0]) then " " else ""
  }

  function Trail(s: string): string {
    if Words(s) != [] && IsSpace(s[|s| - 1]) then " " else ""
  }

  /** Collapsing keeps the words and leaves at most one space at either end. */
  lemma {:induction false} CollapseShape(s: string)
    ensures Collapse(s) == Lead(s) + Join(Words(s)) + Trail(s)
    decreases |s|
  {
    if s == [] {
    } else if IsSpace(s[0]) {
      var t := DropSpaces(s);
      CollapseShape(t);
      CollapseShapeSpace(s, t);
    } else {
      var w := Word(s);
      var r := s[|w|..];
      CollapseShape(r);
      CollapseShapeWord(s, w, r);
    }
  }

  lemma {:induction false} CollapseShapeSpace(s: string, t: string)
    requires s != [] && IsSpace(s[0]) && t == DropSpaces(s)
    requires Collapse(t) == Lead(t) + Join(Words(t)) + Trail(t)
    ensures Collapse(s) == Lead(s) + Join(Words(s)) + Trail(s)
  {
    var j, tr := Join(Words(t)), Trail(t);
    assert Collapse(s) == " " + Collapse(t);
    assert Collapse(t) == j + tr by {
      assert Lead(t) == "";
      assert "" + j == j;
    }
    assert Words(s) == Words(t);
    assert Trail(s) == tr by {
      TrailAfterSpaces(s, t);
    }
    assert Lead(s) == " ";
    ConcatAssoc(" ", j, tr);
  }

  lemma {:induction false} TrailAfterSpaces(s: string, t: string)
    requires s != [] && IsSpace(s[0]) && t == DropSpaces(s)
    ensures Trail(s) == Trail(t)
  {
    assert Words(s) == Words(t);
    if Words(t) != [] {
      assert t != [];
      assert t[|t| - 1] == s[|s| - 1];
    }
  }

  lemma {:induction false} CollapseShapeWord(s: string, w: string, r: string)
    requires s != [] && !IsSpace(s[0]) && w == Word(s) && r == s[|w|..]
    requires Collapse(r) == Lead(r) + Join(Words(r)) + Trail(r)
    ensures Collapse(s) == Lead(s) + Join(Words(s)) + Trail(s)
  {
    assert Collapse(s) == w + Collapse(r);
    assert Words(s) == [w] + Words(r);
    assert Lead(s) == "";
    if r == [] {
      CollapseLastWord(s, w);
      assert Trail(s) == "";
    } else if Words(r) == [] {
      CollapseWordThenSpaces(s, w, r);
    } else {
      CollapseWordThenMore(s, w, r);
    }
    assert Lead(s) + Join(Words(s)) == Join(Words(s));
  }

  lemma {:induction false} CollapseLastWord(s: string, w: string)
    requires s != [] && w == Word(s) && |w| == |s|
    requires Collapse(s) == w + Collapse([]) && Words(s) == [w] + Words([])
    ensures Collapse(s) == Join(Words(s)) + Trail(s)
  {
    assert Words(s) == [w];
    assert s == w;
  }

  lemma {:induction false} CollapseWordThenSpaces(s: string, w: string, r: string)
    requires w != [] && |w| < |s| && r == s[|w|..] && IsSpace(r[0]) && Words(r) == []
    requires Collapse(s) == w + Collapse(r) && Words(s) == [w] + Words(r)
    requires Collapse(r) == Lead(r) + Join(Words(r)) + Trail(r)
    ensures Collapse(s) == Join(Words(s)) + Trail(s)
  {
    assert Lead(r) == " " && Trail(r) == "";
    assert Words(s) == [w];
    WordsEmptyBody(r);
    assert s[|s| - 1] == r[|r| - 1];
    assert IsSpace(s[|s| - 1]);
  }

  lemma {:induction false} CollapseWordThenMore(s: string, w: string, r: string)
    requires w != [] && |w| < |s| && r == s[|w|..] && IsSpace(r[0]) && Words(r) != []
    requires Collapse(s) == w + Collapse(r) && Words(s) == [w] + Words(r)
    requires Collapse(r) == Lead(r) + Join(Words(r)) + Trail(r)
    ensures Collapse(s) == Join(Words(s)) + Trail(s)
  {
    var ws, vs := Words(s), Words(r);
    var j, tr := Join(vs), Trail(r);
    assert Trail(s) == tr by {
      assert s[|s| - 1] == r[|r| - 1];
    }
    JoinCons(w, vs);
    assert Collapse(s) == w + (" " + j + tr) by {
      assert Lead(r) == " ";
    }
    ConcatAssoc(w, " " + j, tr);
    ConcatAssoc(w, " ", j);
  }

  lemma ConcatAssoc(a: string, b: string, c: string)
    ensures a + b + c == a + (b + c)
  {
  }

  lemma {:induction false} JoinCons(w: string, vs: seq<string>)
    requires vs != []
    ensures Join([w] + vs) == w + " " + Join(vs)
  {
    assert ([w] + vs)[1..] == vs;
  }

  lemma {:induction false} DropOneSpace(u: string)
    requires u == [] || !IsSpace(u[0])
    ensures DropSpaces(" " + u) == u && DropSpaces(u) == u
  {
    assert (" " + u)[1..] == u;
  }

  lemma {:induction false} TrimOneSpace(j: string)
    requires j == [] || !IsSpace(j[|j| - 1])
    ensures TrimEnd(j + " ") == j && TrimEnd(j) == j
  {
    assert (j + " ")[..|j + " "| - 1] == j;
  }

  /** The source's collapse-then-trim equals the words joined by single spaces. */
  lemma {:induction false} NormalizeIsJoinOfWords(s: string)
    ensures Trim(Collapse(s)) == Join(Words(s))
  {
    CollapseShape(s);
    JoinEnds(Words(s));
    var j, tr := Join(Words(s)), Trail(s);
    var u := j + tr;
    ConcatAssoc(Lead(s), j, tr);
    if j == "" {
      assert tr == "";
      assert u == "";
      DropOneSpace("");
      assert DropSpaces(Collapse(s)) == "";
    } else {
      assert u[0] == j[0];
      DropOneSpace(u);
      assert DropSpaces(Collapse(s)) == u;
      TrimOneSpace(j);
    }
  }

  lemma {:induction false} JoinNormalized(ws: seq<string>)
    requires IsWords(ws)
    ensures IsNormalized(Join(ws))
  {
    if |ws| > 1 {
      JoinNormalized(ws[1..]);
      JoinEnds(ws[1..]);
      var w, j := ws[0], Join(ws[1..]);
      var t := Join(ws);
      assert t == w + " " + j;
      assert forall i :: 0 <= i < |w| ==> t[i] == w[i];
      assert forall i :: |w| < i < |t| ==> t[i] == j[i - |w| - 1];
      forall i | 0 <= i < |t| && IsSpace(t[i])
        ensures t[i] == ' ' && 0 < i < |t| - 1 && t[i + 1] != ' '
      {
        if i == |w| {
          assert t[i + 1] == j[0];
        } else if i > |w| {
          assert i + 1 < |t| ==> t[i + 1] == j[i - |w|];
        }
      }
    }
  }

  /** Word of `w + x` is `w` when `w` holds no space and `x` starts with one (or is empty). */
  lemma {:induction false} WordOfPrefix(w: string, x: string)
    requires NoSpace(w)
    requires x == [] || IsSpace(x[0])
    ensures Word(w + x) == w
  {
    if w != [] {
      assert (w + x)[1..] == w[1..] + x;
      WordOfPrefix(w[1..], x);
    } else {
      assert w + x == x;
    }
  }

  /** Splitting a join of words back into words gives the same list. */
  lemma {:induction false} WordsJoin(ws: seq<string>)
    requires IsWords(ws)
    ensures Words(Join(ws)) == ws
  {
    if ws == [] {
    } else if |ws| == 1 {
      WordOfPrefix(ws[0], "");
      assert ws[0] + "" == ws[0];
      assert Words(ws[0]) == [ws[0]] + Words(ws[0][|ws[0]|..]);
    } else {
      var w, vs := ws[0], ws[1..];
      WordsJoin(vs);
      WordsOfCons(w, vs);
      assert ws == [w] + vs;
    }
  }

  lemma {:induction false} WordsOfCons(w: string, vs: seq<string>)
    requires w != [] && NoSpace(w) && IsWords(vs) && vs != []
    requires Words(Join(vs)) == vs
    ensures Words(Join([w] + vs)) == [w] + vs
  {
    var j := Join(vs);
    JoinEnds(vs);
    JoinCons(w, vs);
    var t := w + (" " + j);
    assert Join([w] + vs) == t;
    WordOfPrefix(w, " " + j);
    assert t[|w|..] == " " + j;
    assert Words(t) == [w] + Words(" " + j) by {
      assert t[0] == w[0];
    }
    assert Words(" " + j) == Words(j) by {
      DropOneSpace(j);
    }
  }

  lemma {:induction false} NormalizedSuffix(t: string, k: nat)
    requires IsNormalized(t) && k < |t| && !IsSpace(t[k])
    ensures IsNormalized(t[k..])
  {
    var u := t[k..];
    forall i | 0 <= i < |u| && IsSpace(u[i])
      ensures u[i] == ' ' && 0 < i < |u| - 1 && u[i + 1] != ' '
    {
      assert u[i] == t[k + i];
    }
  }

  /** A normalised string is the join of its words. */
  lemma {:induction false} NormalizedIsJoinOfWords(t: string)
    requires IsNormalized(t)
    ensures Join(Words(t)) == t
    decreases |t|
  {
    if t != [] {
      assert !IsSpace(t[0]);
      var w := Word(t);
      if |w| == |t| {
        assert Words(t[|w|..]) == [];
        assert w == t;
      } else {
        var k := |w| + 1;
        assert t[|w|] == ' ' && k < |t| && !IsSpace(t[k]);
        var u := t[k..];
        NormalizedSuffix(t, k);
        NormalizedIsJoinOfWords(u);
        assert t == w + (" " + u);
        WordThenSpace(t, w, u);
      }
    }
  }

  lemma {:induction false} WordThenSpace(t: string, w: string, u: string)
    requires t != [] && !IsSpace(t[0]) && w == Word(t) && t == w + (" " + u)
    requires u != [] && !IsSpace(u[0]) && Join(Words(u)) == u
    ensures Join(Words(t)) == t
  {
    assert t[|w|..] == " " + u;
    assert Words(t) == [w] + Words(" " + u);
    assert Words(" " + u) == Words(u) by {
      DropOneSpace(u);
    }
    assert Words(u) != [] by { WordsEmpty(u); }
    JoinCons(w, Words(u));
    ConcatAssoc(w, " ", u);
  }

  /** Normalising is idempotent, and it is the identity on normalised strings. */
  lemma {:induction false} NormalizeFixesNormalized(t: string)
    requires IsNormalized(t)
    ensures Normalize(t) == t
  {
    NormalizedIsJoinOfWords(t);
  }

  lemma {:induction false} NormalizeIdempotent(s: string)
    ensures Normalize(Normalize(s)) == Normalize(s)
  {
    NormalizeFixesNormalized(Normalize(s));
  }

  /** On a non-empty normalised string, `split(' ')` yields exactly its words. */
  lemma {:induction false} SplitNormalized(t: string)
    requires IsNormalized(t) && t != ""
    ensures Split(t) == Words(t)
    decreases |t|
  {
    assert !IsSpace(t[0]);
    var w := Word(t);
    var f := Field(t);
    assert f == w by { FieldIsWord(t); }
    if |w| < |t| {
      var k := |w| + 1;
      assert t[|w|] == ' ' && k < |t| && !IsSpace(t[k]);
      NormalizedSuffix(t, k);
      SplitNormalized(t[k..]);
      assert DropSpaces(t[|w|..]) == t[k..] by {
        assert t[|w|..][1..] == t[k..];
      }
    } else {
      assert w == t && Split(t) == [t];
      assert Words(t) == [w] + Words([]) by {
        assert t[|w|..] == [];
      }
    }
  }

  lemma {:induction false} FieldIsWord(t: string)
    requires IsNormalized(t)
    ensures Field(t) == Word(t)
    decreases |t|
  {
    if t != [] && !IsSpace(t[0]) && t[0] != ' ' {
      if |t| > 1 && !IsSpace(t[1]) {
        NormalizedSuffix(t, 1);
        FieldIsWord(t[1..]);
      } else if |t| > 1 {
        assert t[1] == ' ';
      }
    }
  }

  /** `split(' ')` and `join(' ')` are inverse: joining the fields gives the text back. */
  lemma {:induction false} SplitJoin(s: string)
    ensures Join(Split(s)) == s
    decreases |s|
  {
    var f := Field(s);
    if |f| < |s| {
      var rest := s[|f| + 1..];
      SplitJoin(rest);
      assert Split(s) == [f] + Split(rest);
      assert ([f] + Split(rest))[1..] == Split(rest);
      assert s == f + " " + rest;
    } else {
      assert f == s;
    }
  }

  /** Two strings joined by one space, skipping whichever is empty. */
  function Glue(a: string, b: string): string {
    if a == "" then b else if b == "" then a else a + " " + b
  }

  /** Joining two lists of words is gluing their joins. */
  lemma {:induction false} JoinAppend(a: seq<string>, b: seq<string>)
    requires IsWords(a) && IsWords(b)
    ensures Join(a + b) == Glue(Join(a), Join(b))
  {
    JoinEnds(a);
    JoinEnds(b);
    if a == [] {
      assert a + b == b;
    } else if b == [] {
      assert a + b == a;
    } else {
      JoinAppend(a[1..], b);
      assert a + b == [a[0]] + (a[1..] + b);
      JoinCons(a[0], a[1..] + b);
      if |a| == 1 {
        assert Join(a) == a[0];
        assert a[1..] + b == b;
      } else {
        JoinEnds(a[1..]);
        assert a == [a[0]] + a[1..];
        JoinCons(a[0], a[1..]);
        ConcatAssoc(a[0] + " ", Join(a[1..]), " " + Join(b));
        ConcatAssoc(a[0] + " " + Join(a[1..]), " ", Join(b));
      }
    }
  }

  /** A join of words is already normalised. */
  lemma {:induction false} NormalizeJoin(ws: seq<string>)
    requires IsWords(ws)
    ensures Normalize(Join(ws)) == Join(ws)
  {
    JoinNormalized(ws);
    NormalizeFixesNormalized(Join(ws));
  }
}
