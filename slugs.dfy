/**
 * The slug deriver `slugify` and the file-name rule of `saveMarkdown`
 * (recipes.service.ts): a recipe title becomes the file name
 * `<slug>.md` under `apps/web/content` of the repository root.
 */
module Slugs {
  import opened Wrappers
  import Letters

  predicate IsAlnum(c: char) { 'a' <= c <= 'z' || '0' <= c <= '9' }

  /** A combining diacritical mark, U+0300 to U+036F. */
  predicate IsMark(c: char) { '\U{0300}' <= c <= '\U{036F}' }

  /**
   * `.replace(/[\u0300-\u036f]/g, '')`: the combining marks U+0300 to U+036F
   * removed, every other character kept in order (`StripMarksByChar`).
   */
  function StripMarks(s: string): (r: string)
    ensures |r| <= |s|
    ensures forall i :: 0 <= i < |r| ==> !IsMark(r[i])
    ensures (forall i :: 0 <= i < |s| ==> !IsMark(s[i])) ==> r == s
  {
    if s == [] then []
    else if IsMark(s[0]) then StripMarks(s[1..])
    else
      assert forall i :: 0 <= i < |s| - 1 ==> s[1..][i] == s[i + 1];
      assert s == [s[0]] + s[1..];
      [s[0]] + StripMarks(s[1..])
  }

  /** The leading run of characters outside `[a-z0-9]`. */
  function OtherRun(s: string): (n: nat)
    ensures n <= |s|
    ensures forall i :: 0 <= i < n ==> !IsAlnum(s[i])
    ensures n == |s| || IsAlnum(s[n])
  {
    if s == [] || IsAlnum(s[0]) then 0 else 1 + OtherRun(s[1..])
  }

  /**
   * `.replace(/[^a-z0-9]+/g, '-')`: every maximal run outside `[a-z0-9]`
   * becomes one hyphen, so the result never holds two hyphens in a row and
   * starts with one exactly when the text starts outside `[a-z0-9]`.
   */
  function Hyphenate(s: string): (r: string)
    ensures |r| <= |s|
    ensures r != [] && r[0] == '-' <==> s != [] && !IsAlnum(s[0])
    decreases |s|
  {
    if s == [] then []
    else if IsAlnum(s[0]) then [s[0]] + Hyphenate(s[1..])
    else
      var rest := s[OtherRun(s)..];
      assert rest == [] || IsAlnum(rest[0]);
      "-" + Hyphenate(rest)
  }

  /** The leading hyphens removed. */
  function DropHyphens(s: string): (r: string)
    ensures |r| <= |s| && r == s[|s| - |r|..]
    ensures r == [] || r[0] != '-'
    ensures forall i :: 0 <= i < |s| - |r| ==> s[i] == '-'
  {
    if s != [] && s[0] == '-' then DropHyphens(s[1..]) else s
  }

  /** The trailing hyphens removed. */
  function DropTrailingHyphens(s: string): (r: string)
    ensures |r| <= |s| && r == s[..|r|]
    ensures r == [] || r[|r| - 1] != '-'
    ensures forall i :: |r| <= i < |s| ==> s[i] == '-'
  {
    if s != [] && s[|s| - 1] == '-' then DropTrailingHyphens(s[..|s| - 1]) else s
  }

  /**
   * `.replace(/^-+|-+$/g, '')`: the slice of the text left after its leading
   * and trailing hyphens, which has a hyphen at neither end.
   */
  function TrimHyphens(s: string): (r: string)
    ensures r == [] || (r[0] != '-' && r[|r| - 1] != '-')
    ensures var a := |s| - |DropHyphens(s)|; a + |r| <= |s| && r == s[a..a + |r|]
  {
    var t := DropHyphens(s);
    var r := DropTrailingHyphens(t);
    assert r != [] ==> r[0] == t[0];
    r
  }

  /** The letters of the title with case and accents folded away. */
  function Fold(title: string): string {
    StripMarks(Letters.Nfd(Letters.Lower(title)))
  }

  /**
   * slugify(str): the maximal runs of `[a-z0-9]` in the folded title, joined
   * by single hyphens.
   */
  function Slugify(title: string): (r: string)
    ensures r == HyphenJoin(AlnumWords(Fold(title)))
    ensures IsSlug(r)
  {
    HyphenateIsSluggish(Fold(title));
    TrimmedIsSlug(Hyphenate(Fold(title)));
    HyphenateWords(Fold(title));
    TrimHyphens(Hyphenate(Fold(title)))
  }

  /** The leading run of `[a-z0-9]` characters. */
  function AlnumRun(s: string): (n: nat)
    ensures n <= |s|
    ensures forall i :: 0 <= i < n ==> IsAlnum(s[i])
    ensures n == |s| || !IsAlnum(s[n])
  {
    if s == [] || !IsAlnum(s[0]) then 0 else 1 + AlnumRun(s[1..])
  }

  /** The maximal runs of `[a-z0-9]` characters of `s`, in order: a reference definition. */
  function AlnumWords(s: string): (ws: seq<string>)
    ensures forall k :: 0 <= k < |ws| ==> ws[k] != [] && AllAlnum(ws[k])
    decreases |s|
  {
    var t := s[OtherRun(s)..];
    if t == [] then []
    else
      var m := AlnumRun(t);
      [t[..m]] + AlnumWords(t[m..])
  }

  /** The words joined by single hyphens. */
  function HyphenJoin(ws: seq<string>): string {
    if ws == [] then ""
    else if |ws| == 1 then ws[0]
    else ws[0] + "-" + HyphenJoin(ws[1..])
  }

  /**
   * A slug: only `[a-z0-9-]`, no hyphen at either end, never two hyphens in
   * a row.
   */
  predicate IsSlug(s: string) {
    && (forall i :: 0 <= i < |s| ==> IsAlnum(s[i]) || s[i] == '-')
    && (s == [] || (s[0] != '-' && s[|s| - 1] != '-'))
    && (forall i :: 0 <= i < |s| - 1 && s[i] == '-' ==> s[i + 1] != '-')
  }

  /** `[a-z0-9-]` only, never two hyphens in a row (the ends may be hyphens). */
  predicate Sluggish(s: string) {
    && (forall i :: 0 <= i < |s| ==> IsAlnum(s[i]) || s[i] == '-')
    && (forall i :: 0 <= i < |s| - 1 && s[i] == '-' ==> s[i + 1] != '-')
  }

  /** The slug of a recipe title: `slugify(title || 'untitled-recipe')`. */
  function SlugFor(title: Option<string>): (r: string)
    ensures IsSlug(r)
  {
    var t := title.GetOr("");
    Slugify(if t == "" then "untitled-recipe" else t)
  }

  /** The content directory, relative to the repository root. */
  const ContentDir := "/apps/web/content/"

  /**
   * The file the recipe is written to: `<root>/apps/web/content/<slug>.md`.
   * The root and the slug can be read back from it, so two slugs never share
   * a file under one root.
   */
  function MarkdownPath(root: string, slug: string): (r: string)
    ensures |r| == |root| + |ContentDir| + |slug| + 3
    ensures r[..|root|] == root && r[|root| + |ContentDir|..|r| - 3] == slug
    ensures r[|r| - 3..] == ".md"
  {
    root + ContentDir + slug + ".md"
  }

  /** The characters of `s` in `[a-z0-9]`, in order. */
  function Alnums(s: string): string {
    if s == [] then []
    else if IsAlnum(s[0]) then [s[0]] + Alnums(s[1..])
    else Alnums(s[1..])
  }

  // ---------------------------------------------------------------------
  // Lemmas

  /** Hyphenation leaves only `[a-z0-9-]`, never two hyphens in a row. */
  lemma {:induction false} HyphenateIsSluggish(s: string)
    ensures Sluggish(Hyphenate(s))
    decreases |s|
  {
    if s == [] {
    } else if IsAlnum(s[0]) {
      HyphenateIsSluggish(s[1..]);
    } else {
      HyphenateIsSluggish(s[OtherRun(s)..]);
    }
  }

  lemma {:induction false} DropHyphensSluggish(s: string)
    requires Sluggish(s)
    ensures Sluggish(DropHyphens(s))
    decreases |s|
  {
    if s != [] && s[0] == '-' {
      DropHyphensSluggish(s[1..]);
    }
  }

  lemma {:induction false} DropTrailingSluggish(s: string)
    requires Sluggish(s)
    ensures Sluggish(DropTrailingHyphens(s))
    decreases |s|
  {
    if s != [] && s[|s| - 1] == '-' {
      DropTrailingSluggish(s[..|s| - 1]);
    }
  }

  lemma {:induction false} TrimmedIsSlug(s: string)
    requires Sluggish(s)
    ensures IsSlug(TrimHyphens(s))
  {
    var d := DropHyphens(s);
    DropHyphensSluggish(s);
    DropTrailingSluggish(d);
    var r := DropTrailingHyphens(d);
    if r != [] {
      assert r[0] == d[0];
    }
  }

  /** Hyphenation leaves alone a string that has only `[a-z0-9-]` and no double hyphen. */
  lemma {:induction false} HyphenateSluggish(s: string)
    requires Sluggish(s)
    ensures Hyphenate(s) == s
    decreases |s|
  {
    if s != [] {
      SluggishSuffix(s);
      HyphenateSluggish(s[1..]);
      if !IsAlnum(s[0]) {
        assert OtherRun(s) == 1 by {
          assert s[1..] == [] || IsAlnum(s[1]);
        }
      }
    }
  }

  lemma {:induction false} SluggishSuffix(s: string)
    requires Sluggish(s) && s != []
    ensures Sluggish(s[1..])
  {
    assert forall i :: 0 <= i < |s| - 1 ==> s[1..][i] == s[i + 1];
  }

  /** A slug is its own slug: `slugify` is idempotent on its results. */
  lemma {:induction false} SlugifySlug(s: string)
    requires IsSlug(s)
    ensures Slugify(s) == s
  {
    assert forall i :: 0 <= i < |s| ==> s[i] < '\U{0080}' && !('A' <= s[i] <= 'Z');
    FoldAscii(s);
    HyphenateSluggish(s);
    assert DropHyphens(s) == s && DropTrailingHyphens(s) == s;
  }

  /** `slugify` is idempotent. */
  lemma {:induction false} SlugifyIdempotent(title: string)
    ensures Slugify(Slugify(title)) == Slugify(title)
  {
    SlugifySlug(Slugify(title));
  }

  lemma {:induction false} AlnumsAppend(a: string, b: string)
    ensures Alnums(a + b) == Alnums(a) + Alnums(b)
    decreases |a|
  {
    if a != [] {
      AlnumsAppend(a[1..], b);
      assert (a + b)[1..] == a[1..] + b;
    } else {
      assert a + b == b;
    }
  }

  lemma {:induction false} AlnumsSkip(s: string, n: nat)
    requires n <= |s| && forall i :: 0 <= i < n ==> !IsAlnum(s[i])
    ensures Alnums(s) == Alnums(s[n..])
    decreases n
  {
    if n > 0 {
      AlnumsSkip(s[1..], n - 1);
      assert s[1..][n - 1..] == s[n..];
    }
  }

  lemma {:induction false} HyphenateKeepsAlnums(s: string)
    ensures Alnums(Hyphenate(s)) == Alnums(s)
    decreases |s|
  {
    if s == [] {
    } else if IsAlnum(s[0]) {
      HyphenateKeepsAlnums(s[1..]);
      assert ([s[0]] + Hyphenate(s[1..]))[1..] == Hyphenate(s[1..]);
    } else {
      var n := OtherRun(s);
      HyphenateKeepsAlnums(s[n..]);
      AlnumsSkip(s, n);
      assert ("-" + Hyphenate(s[n..]))[1..] == Hyphenate(s[n..]);
    }
  }

  lemma {:induction false} DropTrailingKeepsAlnums(d: string)
    ensures Alnums(DropTrailingHyphens(d)) == Alnums(d)
  {
    var r := DropTrailingHyphens(d);
    var tail := d[|r|..];
    AlnumsAppend(r, tail);
    assert d == r + tail;
    AlnumsSkip(tail, |tail|);
  }

  lemma {:induction false} TrimKeepsAlnums(s: string)
    ensures Alnums(TrimHyphens(s)) == Alnums(s)
  {
    var d := DropHyphens(s);
    AlnumsSkip(s, |s| - |d|);
    DropTrailingKeepsAlnums(d);
  }

  /**
   * No letter or digit is lost or reordered: the slug's `[a-z0-9]`
   * characters are exactly those of the folded title.
   */
  lemma {:induction false} SlugKeepsAlnums(title: string)
    ensures Alnums(Slugify(title)) == Alnums(Fold(title))
  {
    HyphenateKeepsAlnums(Fold(title));
    TrimKeepsAlnums(Hyphenate(Fold(title)));
  }

  /** The slug is empty exactly when the folded title has no letter or digit of `[a-z0-9]`. */
  lemma {:induction false} SlugEmpty(title: string)
    ensures Slugify(title) == "" <==> Alnums(Fold(title)) == ""
  {
    SlugKeepsAlnums(title);
    var r := Slugify(title);
    if r != "" {
      assert IsAlnum(r[0]);
      assert Alnums(r) != [] by {
        assert Alnums(r) == [r[0]] + Alnums(r[1..]);
      }
    }
  }

  /** Trailing hyphens are removed from the end only: a prefix is kept whole. */
  lemma {:induction false} DropTrailingAppend(p: string, q: string)
    requires DropTrailingHyphens(q) != []
    ensures DropTrailingHyphens(p + q) == p + DropTrailingHyphens(q)
    decreases |q|
  {
    if q[|q| - 1] == '-' {
      DropTrailingAppend(p, q[..|q| - 1]);
      assert (p + q)[..|p + q| - 1] == p + q[..|q| - 1];
    }
  }

  lemma {:induction false} HyphenJoinCons(w: string, ws: seq<string>)
    requires ws != []
    ensures HyphenJoin([w] + ws) == w + "-" + HyphenJoin(ws)
  {
    assert ([w] + ws)[1..] == ws;
  }

  lemma {:induction false} HyphenJoinEmpty(ws: seq<string>)
    requires forall k :: 0 <= k < |ws| ==> ws[k] != []
    ensures HyphenJoin(ws) == "" <==> ws == []
  {
    if |ws| > 1 {
      assert |HyphenJoin(ws)| >= |ws[0]|;
    }
  }

  /**
   * One run of `[a-z0-9]` with what follows it: the slug of the rest, if any,
   * comes after one hyphen.
   */
  lemma {:induction false} HyphenateWordStep(w: string, rest: string)
    requires w != [] && AllAlnum(w)
    requires rest == [] || !IsAlnum(rest[0])
    requires TrimHyphens(Hyphenate(rest[OtherRun(rest)..])) == HyphenJoin(AlnumWords(rest))
    ensures DropTrailingHyphens(w + Hyphenate(rest)) == HyphenJoin([w] + AlnumWords(rest))
  {
    if rest == [] {
      HyphenateLastWord(w);
    } else {
      HyphenateMoreWords(w, rest);
    }
  }

  lemma {:induction false} HyphenateLastWord(w: string)
    requires w != [] && AllAlnum(w)
    ensures DropTrailingHyphens(w + Hyphenate([])) == HyphenJoin([w] + AlnumWords([]))
  {
    var e: string := [];
    AppendEmpty(w, Hyphenate(e));
    assert DropTrailingHyphens(w) == w;
    assert OtherRun(e) == 0 && e[0..] == [];
    assert AlnumWords(e) == [];
    assert [w] + AlnumWords(e) == [w];
  }

  lemma {:induction false} HyphenateMoreWords(w: string, rest: string)
    requires w != [] && AllAlnum(w)
    requires rest != [] && !IsAlnum(rest[0])
    requires TrimHyphens(Hyphenate(rest[OtherRun(rest)..])) == HyphenJoin(AlnumWords(rest))
    ensures DropTrailingHyphens(w + Hyphenate(rest)) == HyphenJoin([w] + AlnumWords(rest))
  {
    var h := Hyphenate(rest[OtherRun(rest)..]);
    assert Hyphenate(rest) == "-" + h;
    var ws := AlnumWords(rest);
    HyphenJoinEmpty(ws);
    WordThenHyphenated(w, h, ws);
  }

  /** A word, a hyphen and a hyphenated rest whose trimmed form is the join of `ws`. */
  lemma {:induction false} WordThenHyphenated(w: string, h: string, ws: seq<string>)
    requires w != [] && AllAlnum(w)
    requires h == [] || h[0] != '-'
    requires DropTrailingHyphens(DropHyphens(h)) == HyphenJoin(ws)
    requires HyphenJoin(ws) == "" <==> ws == []
    ensures DropTrailingHyphens(w + ("-" + h)) == HyphenJoin([w] + ws)
  {
    assert DropHyphens(h) == h;
    var g := DropTrailingHyphens(h);
    if g == [] {
      WordThenHyphens(w, "-" + h);
      assert [w] + ws == [w];
    } else {
      DropTrailingAppend("-", h);
      DropTrailingAppend(w, "-" + h);
      HyphenJoinCons(w, ws);
      ConcatAssoc(w, "-", g);
    }
  }

  /** A word followed by hyphens only keeps the word. */
  lemma {:induction false} WordThenHyphens(w: string, x: string)
    requires w != [] && AllAlnum(w)
    requires DropTrailingHyphens(x) == []
    ensures DropTrailingHyphens(w + x) == w
    decreases |x|
  {
    if x == [] {
      assert w + x == w;
      assert DropTrailingHyphens(w) == w;
    } else {
      assert x[|x| - 1] == '-';
      WordThenHyphens(w, x[..|x| - 1]);
      assert (w + x)[..|w + x| - 1] == w + x[..|x| - 1];
    }
  }

  lemma {:induction false} HyphenateLead(s: string)
    ensures Hyphenate(s) == (if OtherRun(s) > 0 then "-" else "") + Hyphenate(s[OtherRun(s)..])
  {
    if OtherRun(s) == 0 {
      assert s[0..] == s;
    }
  }

  lemma {:induction false} DropLead(l: string, x: string)
    requires l == "" || l == "-"
    requires x == [] || x[0] != '-'
    ensures DropHyphens(l + x) == x
  {
    assert DropHyphens(x) == x;
    if l == "-" {
      var s := l + x;
      assert s != [] && s[0] == '-' && s[1..] == x;
      assert DropHyphens(s) == DropHyphens(s[1..]);
    } else {
      assert l + x == x;
    }
  }

  lemma {:induction false} AlnumRunWord(t: string)
    ensures AllAlnum(t[..AlnumRun(t)])
  {
    var m := AlnumRun(t);
    assert forall i :: 0 <= i < m ==> t[..m][i] == t[i];
  }

  lemma {:induction false} AlnumWordsSkip(rest: string)
    ensures AlnumWords(rest[OtherRun(rest)..]) == AlnumWords(rest)
  {
    var r2 := rest[OtherRun(rest)..];
    assert r2[OtherRun(r2)..] == r2;
  }

  /**
   * The slug is the maximal runs of `[a-z0-9]` joined by single hyphens:
   * each run of other characters between two of them becomes one hyphen, and
   * those at either end vanish.
   */
  lemma {:induction false} HyphenateWords(s: string)
    ensures TrimHyphens(Hyphenate(s)) == HyphenJoin(AlnumWords(s))
    decreases |s|
  {
    var t := s[OtherRun(s)..];
    var l := if OtherRun(s) > 0 then "-" else "";
    HyphenateLead(s);
    if t == [] {
      assert Hyphenate(s) == l;
    } else {
      var m := AlnumRun(t);
      var w := t[..m];
      var rest := t[m..];
      assert m > 0 && t == w + rest;
      assert AlnumWords(s) == [w] + AlnumWords(rest);
      var r2 := rest[OtherRun(rest)..];
      assert |r2| < |s|;
      HyphenateWords(r2);
      AlnumWordsSkip(rest);
      AlnumRunWord(t);
      HyphenateWordStep(w, rest);
      LeadRunTrim(l, w, rest);
    }
  }

  /** A lead of at most one hyphen and a run of `[a-z0-9]`, hyphenated and trimmed. */
  lemma {:induction false} LeadRunTrim(l: string, w: string, rest: string)
    requires l == "" || l == "-"
    requires w != [] && AllAlnum(w)
    ensures TrimHyphens(l + Hyphenate(w + rest)) == DropTrailingHyphens(w + Hyphenate(rest))
  {
    HyphenateAlnums(w, rest);
    DropLead(l, w + Hyphenate(rest));
  }

  /**
   * Stripping works character by character: a mark is dropped, any other
   * character is kept, and the order is unchanged.
   */
  lemma {:induction false} StripMarksByChar(a: string, c: char, b: string)
    ensures StripMarks(a + [c] + b) == StripMarks(a) + (if IsMark(c) then [] else [c]) + StripMarks(b)
  {
    StripMarksAppend(a + [c], b);
    StripMarksAppend(a, [c]);
    assert StripMarks([c]) == (if IsMark(c) then [] else [c]) by {
      assert [c][1..] == [];
    }
  }

  // ---------------------------------------------------------------------
  // Worked examples

  /** A missing or empty title gives the slug "untitled-recipe". */
  lemma {:induction false} UntitledSlug(title: Option<string>)
    requires title == None || title == Some("")
    ensures SlugFor(title) == "untitled-recipe"
  {
    SlugifySlug("untitled-recipe");
  }

  lemma {:induction false} FoldAscii(t: string)
    requires forall i :: 0 <= i < |t| ==> t[i] < '\U{0080}' && !('A' <= t[i] <= 'Z')
    ensures Fold(t) == t
  {
    Letters.LowerAscii(t);
    Letters.NfdAscii(t);
  }

  /**
   * A non-empty title with no letter or digit that folds into `[a-z0-9]`
   * (whitespace, punctuation, symbols) gets the empty slug: the
   * "untitled-recipe" fallback applies only to the empty title.
   */
  lemma {:induction false} PunctuationSlug(title: string)
    requires title != "" && Alnums(Fold(title)) == ""
    ensures SlugFor(Some(title)) == ""
  {
    SlugEmpty(title);
  }

  lemma {:induction false} NfdAppend(a: string, b: string)
    ensures Letters.Nfd(a + b) == Letters.Nfd(a) + Letters.Nfd(b)
    decreases |a|
  {
    if a == [] {
      assert a + b == b;
    } else {
      NfdAppend(a[1..], b);
      assert (a + b)[1..] == a[1..] + b;
      ConcatAssoc(Letters.Decompose(a[0]), Letters.Nfd(a[1..]), Letters.Nfd(b));
    }
  }

  lemma {:induction false} StripMarksAppend(a: string, b: string)
    ensures StripMarks(a + b) == StripMarks(a) + StripMarks(b)
    decreases |a|
  {
    if a == [] {
      assert a + b == b;
    } else {
      StripMarksAppend(a[1..], b);
      assert (a + b)[1..] == a[1..] + b;
    }
  }

  /** Folding works piece by piece. */
  lemma {:induction false} FoldAppend(a: string, b: string)
    ensures Fold(a + b) == Fold(a) + Fold(b)
  {
    Letters.LowerAppend(a, b);
    NfdAppend(Letters.Lower(a), Letters.Lower(b));
    StripMarksAppend(Letters.Nfd(Letters.Lower(a)), Letters.Nfd(Letters.Lower(b)));
  }

  predicate AllAlnum(s: string) {
    forall i :: 0 <= i < |s| ==> IsAlnum(s[i])
  }

  lemma {:induction false} HyphenateAlnums(a: string, x: string)
    requires AllAlnum(a)
    ensures Hyphenate(a + x) == a + Hyphenate(x)
    decreases |a|
  {
    if a == [] {
      assert a + x == x;
    } else {
      HyphenateAlnums(a[1..], x);
      assert (a + x)[1..] == a[1..] + x;
      ConcatAssoc([a[0]], a[1..], Hyphenate(x));
      assert [a[0]] + a[1..] == a;
    }
  }

  lemma AppendEmpty(w: string, x: string)
    requires |x| == 0
    ensures w + x == w
  {
  }

  lemma ConcatAssoc(a: string, b: string, c: string)
    ensures a + b + c == a + (b + c)
  {
  }

  /** Two runs of `[a-z0-9]` around a space become two runs around one hyphen. */
  lemma {:induction false} HyphenateTwoWords(a: string, b: string)
    requires a != [] && b != [] && AllAlnum(a) && AllAlnum(b)
    ensures Hyphenate(a + " " + b) == a + "-" + b
  {
    ConcatAssoc(a, " ", b);
    HyphenateAlnums(a, " " + b);
    assert OtherRun(" " + b) == 1 by {
      assert (" " + b)[1..] == b;
    }
    assert (" " + b)[1..] == b;
    HyphenateSluggish(b);
    ConcatAssoc(a, "-", b);
  }

  lemma {:induction false} NfdCreme(u: string)
    requires u == "cr\U{00E8}me"
    ensures Letters.Nfd(u) == "cre\U{0300}me"
  {
    assert Letters.Nfd(u[4..]) == "e";
    assert Letters.Nfd(u[3..]) == "me";
    assert Letters.Nfd(u[2..]) == "e\U{0300}me";
    assert Letters.Nfd(u[1..]) == "re\U{0300}me";
  }

  lemma {:induction false} StripCreme(v: string)
    requires v == "cre\U{0300}me"
    ensures StripMarks(v) == "creme"
  {
    assert StripMarks(v[5..]) == "e";
    assert StripMarks(v[4..]) == "me";
    assert StripMarks(v[3..]) == "me";
    assert StripMarks(v[2..]) == "eme";
    assert StripMarks(v[1..]) == "reme";
  }

  lemma {:induction false} FoldCreme(t: string)
    requires t == "Cr\U{00E8}me"
    ensures Fold(t) == "creme"
  {
    assert Letters.Lower(t) == "cr\U{00E8}me";
    NfdCreme(Letters.Lower(t));
    StripCreme(Letters.Nfd(Letters.Lower(t)));
  }

  lemma {:induction false} NfdBrulee(u: string)
    requires u == "br\U{00FB}l\U{00E9}e"
    ensures Letters.Nfd(u) == "bru\U{0302}le\U{0301}e"
  {
    assert Letters.Nfd(u[5..]) == "e";
    assert Letters.Nfd(u[4..]) == "e\U{0301}e";
    assert Letters.Nfd(u[3..]) == "le\U{0301}e";
    assert Letters.Nfd(u[2..]) == "u\U{0302}le\U{0301}e";
    assert Letters.Nfd(u[1..]) == "ru\U{0302}le\U{0301}e";
  }

  lemma {:induction false} StripBrulee(v: string)
    requires v == "bru\U{0302}le\U{0301}e"
    ensures StripMarks(v) == "brulee"
  {
    assert StripMarks(v[7..]) == "e";
    assert StripMarks(v[6..]) == "e";
    assert StripMarks(v[5..]) == "ee";
    assert StripMarks(v[4..]) == "lee";
    assert StripMarks(v[3..]) == "lee";
    assert StripMarks(v[2..]) == "ulee";
    assert StripMarks(v[1..]) == "rulee";
  }

  lemma {:induction false} FoldBrulee(t: string)
    requires t == "Br\U{00FB}l\U{00E9}e"
    ensures Fold(t) == "brulee"
  {
    assert Letters.Lower(t) == "br\U{00FB}l\U{00E9}e";
    NfdBrulee(Letters.Lower(t));
    StripBrulee(Letters.Nfd(Letters.Lower(t)));
  }

  lemma {:induction false} CremeChunks(title: string)
    requires title == "Cr\U{00E8}me Br\U{00FB}l\U{00E9}e"
    ensures title == "Cr\U{00E8}me" + " " + "Br\U{00FB}l\U{00E9}e"
  {
  }

  /** "Crème Brûlée" gives the slug "creme-brulee". */
  lemma {:induction false} CremeSlug(title: string)
    requires title == "Cr\U{00E8}me Br\U{00FB}l\U{00E9}e"
    ensures SlugFor(Some(title)) == "creme-brulee"
  {
    CremeChunks(title);
    FoldAppend("Cr\U{00E8}me" + " ", "Br\U{00FB}l\U{00E9}e");
    FoldAppend("Cr\U{00E8}me", " ");
    FoldCreme("Cr\U{00E8}me");
    FoldBrulee("Br\U{00FB}l\U{00E9}e");
    FoldAscii(" ");
    CremeHyphenate();
    TrimSlug("creme-brulee");
  }

  lemma {:induction false} CremeHyphenate()
    ensures Hyphenate("creme" + " " + "brulee") == "creme-brulee"
  {
    assert AllAlnum("creme") && AllAlnum("brulee");
    HyphenateTwoWords("creme", "brulee");
  }

  lemma {:induction false} TrimSlug(s: string)
    requires s == "creme-brulee"
    ensures TrimHyphens(s) == s
  {
  }
}
