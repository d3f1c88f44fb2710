/**
 * `toMarkdown` (recipes.service.ts): the loosely shaped recipe object the
 * model returns is normalised field by field and rendered as a Markdown
 * document with a front-matter header.
 *
 * `Decode` reads such a document back; the round trip
 * `Decode(ToMarkdown(raw)) == Some(NormalizeRecipe(raw))` shows that the
 * header keeps every normalised field, in its fixed place.
 */
module Markdown {
  import opened Wrappers
  import opened Text
  import Durations
  import opened Ingredients

  /**
   * One element of the `ingredients` array as the model returned it: a
   * string, an object whose string fields may be missing, or anything else
   * (`null`, a number, ...), on which every `?.` access is `undefined`.
   */
  datatype Entry =
    | Line(text: string)
    | Object(quantity: Option<string>, unit: Option<string>, name: Option<string>)
    | Other

  /** The `ingredients` value: an array of entries, or anything that is not an array. */
  datatype IngredientsValue = List(entries: seq<Entry>) | NotList

  /** The recipe object as parsed from the model's JSON; `None` is a missing field. */
  datatype RawRecipe = RawRecipe(
    title: Option<string>,
    description: Option<string>,
    image: Option<string>,
    category: Option<string>,
    prepTime: Option<string>,
    cookTime: Option<string>,
    totalTime: Option<string>,
    servings: Option<string>,
    ingredients: IngredientsValue,
    body: Option<string>)

  /** The normalised recipe the document is rendered from. */
  datatype Recipe = Recipe(
    title: string,
    description: string,
    image: string,
    category: string,
    prepTime: string,
    cookTime: string,
    totalTime: string,
    servings: string,
    ingredients: seq<Ingredient>,
    body: string)

  /**
   * One ingredient entry, normalised: a string is parsed, an object has each
   * field normalised, anything else gives three empty fields.
   */
  function NormalizeEntry(e: Entry): (r: Ingredient)
    ensures IsNormalized(r.quantity) && IsNormalized(r.unit) && IsNormalized(r.name)
    ensures e.Line? ==> r == ParseIngredient(e.text)
    ensures e.Other? ==> r == Ingredient("", "", "")
  {
    match e
    case Line(text) => FieldsNormalized(text); ParseIngredient(text)
    case Object(q, u, n) => Ingredient(NormalizeValue(q, ""), NormalizeValue(u, ""), NormalizeValue(n, ""))
    case Other => Ingredient("", "", "")
  }

  /** The ingredient list: the array mapped entry by entry, or empty. */
  function NormalizeIngredients(v: IngredientsValue): (r: seq<Ingredient>)
    ensures v.NotList? ==> r == []
    ensures v.List? ==> |r| == |v.entries| && forall i :: 0 <= i < |r| ==> r[i] == NormalizeEntry(v.entries[i])
  {
    match v
    case NotList => []
    case List(es) => seq(|es|, i requires 0 <= i < |es| => NormalizeEntry(es[i]))
  }

  /**
   * Every field of the recipe normalised, with "0" for missing times and "1"
   * for missing servings: the header values fit on one line each, the times
   * and the servings are whole numbers, and there is one ingredient per
   * array entry.
   */
  function NormalizeRecipe(raw: RawRecipe): (r: Recipe)
    ensures WellFormed(r)
    ensures r.prepTime == "0" || Durations.IsCanonicalDecimal(r.prepTime)
    ensures r.cookTime == "0" || Durations.IsCanonicalDecimal(r.cookTime)
    ensures r.totalTime == "0" || Durations.IsCanonicalDecimal(r.totalTime)
    ensures r.servings == "1" || Durations.IsCanonicalDecimal(r.servings)
    ensures |r.ingredients| == (if raw.ingredients.List? then |raw.ingredients.entries| else 0)
  {
    NormalizeValueOneLine(raw.title, "");
    NormalizeValueOneLine(raw.description, "");
    NormalizeValueOneLine(raw.image, "");
    NormalizeValueOneLine(raw.category, "");
    NumberOneLine(raw.prepTime, "0");
    NumberOneLine(raw.cookTime, "0");
    NumberOneLine(raw.totalTime, "0");
    NumberOneLine(raw.servings, "1");
    IngredientsOneLine(raw.ingredients);
    Recipe(
      NormalizeValue(raw.title, ""),
      NormalizeValue(raw.description, ""),
      NormalizeValue(raw.image, ""),
      NormalizeValue(raw.category, ""),
      Durations.NormalizeNumberValue(raw.prepTime, "0"),
      Durations.NormalizeNumberValue(raw.cookTime, "0"),
      Durations.NormalizeNumberValue(raw.totalTime, "0"),
      Durations.NormalizeNumberValue(raw.servings, "1"),
      NormalizeIngredients(raw.ingredients),
      Trim(raw.body.GetOr("")))
  }

  /** The lines `ls`, each ended by a newline, followed by `tail`. */
  function Lines(ls: seq<string>, tail: string): string {
    if ls == [] then tail else ls[0] + "\n" + Lines(ls[1..], tail)
  }

  /** The three YAML lines of one ingredient. */
  function EntryLines(ing: Ingredient): seq<string> {
    ["  - quantity: " + ing.quantity, "    unit: " + ing.unit, "    name: " + ing.name]
  }

  /** The lines of every ingredient, in order. */
  function EntriesLines(ings: seq<Ingredient>): (ls: seq<string>)
    ensures |ls| == 3 * |ings|
  {
    if ings == [] then [] else EntryLines(ings[0]) + EntriesLines(ings[1..])
  }

  /** The `ingredients` block: `ingredients: []` when empty. */
  function BlockLines(ings: seq<Ingredient>): seq<string> {
    if ings == [] then [" ingredients: []"] else [" ingredients:"] + EntriesLines(ings)
  }

  /** The header keys in their fixed order, each with the one leading space of the template. */
  const HeaderKeys: seq<string> :=
    [" title: ", " description: ", " image: ", " category: ",
     " prepTime: ", " cookTime: ", " totalTime: ", " servings: "]

  /** The header values, in the order of `HeaderKeys`. */
  function HeaderValues(r: Recipe): (vs: seq<string>)
    ensures |vs| == |HeaderKeys|
  {
    [r.title, r.description, r.image, r.category, r.prepTime, r.cookTime, r.totalTime, r.servings]
  }

  /** Each key followed by its value. */
  function FieldLines(keys: seq<string>, vs: seq<string>): (ls: seq<string>)
    requires |keys| == |vs|
    ensures |ls| == |keys|
  {
    seq(|keys|, i requires 0 <= i < |keys| => keys[i] + vs[i])
  }

  /** The opening `---` and the header lines. */
  function HeaderLines(r: Recipe): seq<string> {
    ["---"] + FieldLines(HeaderKeys, HeaderValues(r))
  }

  /**
   * The front matter, its closing `---`, a blank line, the body and a final
   * newline. A recipe whose values fit on their lines reads back unchanged.
   */
  function Render(r: Recipe): (md: string)
    ensures md == Lines(HeaderLines(r) + BlockLines(r.ingredients), "---\n\n" + r.body + "\n")
    ensures WellFormed(r) ==> Decode(md) == Some(r)
  {
    var ls := HeaderLines(r) + BlockLines(r.ingredients) + ["---"];
    var t := "\n" + r.body + "\n";
    LinesEnding(HeaderLines(r) + BlockLines(r.ingredients), r.body);
    DecodeLines(r);
    Lines(ls, t)
  }

  /**
   * toMarkdown(recipe). The document keeps every normalised field: reading
   * it back gives the normalised recipe, its ingredients in input order.
   */
  function ToMarkdown(raw: RawRecipe): (md: string)
    ensures Decode(md) == Some(NormalizeRecipe(raw))
  {
    Render(NormalizeRecipe(raw))
  }

  // ---------------------------------------------------------------------
  // Reading a document back

  /** The text before the first newline and the text after it; `None` when there is no newline. */
  function TakeLine(s: string): (r: Option<(string, string)>)
    ensures r.Some? ==> |r.value.1| < |s|
  {
    if s == [] then None
    else if s[0] == '\n' then Some(([], s[1..]))
    else match TakeLine(s[1..])
      case None => None
      case Some(p) => Some(([s[0]] + p.0, p.1))
  }

  /** The next line, which must be `line`. */
  function ExpectLine(s: string, line: string): (r: Option<string>)
    ensures r.Some? ==> |r.value| < |s|
  {
    var p :- TakeLine(s);
    if p.0 == line then Some(p.1) else None
  }

  /** The next line, which must start with `prefix`: what follows the prefix, and the rest. */
  function HeaderField(s: string, prefix: string): (r: Option<(string, string)>)
    ensures r.Some? ==> |r.value.1| < |s|
  {
    var p :- TakeLine(s);
    if prefix <= p.0 then Some((p.0[|prefix|..], p.1)) else None
  }

  /** Ingredient entries up to and including the closing `---`. */
  function DecodeEntries(s: string): Option<(seq<Ingredient>, string)>
    decreases |s|
  {
    var p :- TakeLine(s);
    if p.0 == "---" then Some(([], p.1))
    else if "  - quantity: " <= p.0 then
      var u :- HeaderField(p.1, "    unit: ");
      var n :- HeaderField(u.1, "    name: ");
      var more :- DecodeEntries(n.1);
      Some(([Ingredient(p.0[|"  - quantity: "|..], u.0, n.0)] + more.0, more.1))
    else None
  }

  /** The `ingredients` block and the closing `---`. */
  function DecodeBlock(s: string): Option<(seq<Ingredient>, string)> {
    var p :- TakeLine(s);
    if p.0 == " ingredients: []" then
      var rest :- ExpectLine(p.1, "---");
      Some(([], rest))
    else if p.0 == " ingredients:" then DecodeEntries(p.1)
    else None
  }

  /** One line per key, each starting with its key: the values, and the rest. */
  function DecodeFields(s: string, keys: seq<string>): (r: Option<(seq<string>, string)>)
    ensures r.Some? ==> |r.value.0| == |keys|
    decreases |keys|
  {
    if keys == [] then Some(([], s))
    else
      var f :- HeaderField(s, keys[0]);
      var more :- DecodeFields(f.1, keys[1..]);
      Some(([f.0] + more.0, more.1))
  }

  /** A rendered document read back into its recipe. */
  function Decode(md: string): Option<Recipe> {
    var s0 :- ExpectLine(md, "---");
    var fields :- DecodeFields(s0, HeaderKeys);
    var vs := fields.0;
    var block :- DecodeBlock(fields.1);
    var rest :- ExpectLine(block.1, "");
    if rest != [] && rest[|rest| - 1] == '\n' then
      Some(Recipe(vs[0], vs[1], vs[2], vs[3], vs[4], vs[5], vs[6], vs[7], block.0, rest[..|rest| - 1]))
    else None
  }

  // ---------------------------------------------------------------------
  // Lemmas

  predicate OneLine(v: string) { '\n' !in v }

  predicate IngredientOneLine(ing: Ingredient) {
    OneLine(ing.quantity) && OneLine(ing.unit) && OneLine(ing.name)
  }

  /** Every header value fits on its line. */
  predicate WellFormed(r: Recipe) {
    && OneLine(r.title) && OneLine(r.description) && OneLine(r.image) && OneLine(r.category)
    && OneLine(r.prepTime) && OneLine(r.cookTime) && OneLine(r.totalTime) && OneLine(r.servings)
    && forall i :: 0 <= i < |r.ingredients| ==> IngredientOneLine(r.ingredients[i])
  }

  lemma {:induction false} TakeLineOf(l: string, x: string)
    requires OneLine(l)
    ensures TakeLine(l + "\n" + x) == Some((l, x))
    decreases |l|
  {
    if l == [] {
      assert l + "\n" + x == "\n" + x;
      assert ("\n" + x)[1..] == x;
    } else {
      TakeLineOf(l[1..], x);
      assert (l + "\n" + x)[1..] == l[1..] + "\n" + x;
      assert [l[0]] + l[1..] == l;
    }
  }

  lemma {:induction false} LinesAppend(a: seq<string>, b: seq<string>, t: string)
    ensures Lines(a + b, t) == Lines(a, Lines(b, t))
    decreases |a|
  {
    if a == [] {
      assert a + b == b;
    } else {
      LinesAppend(a[1..], b, t);
      assert (a + b)[1..] == a[1..] + b;
    }
  }

  /** A field line is read back as its value. */
  lemma {:induction false} HeaderFieldOfLine(prefix: string, v: string, ls: seq<string>, t: string)
    requires OneLine(prefix) && OneLine(v) && ls != [] && ls[0] == prefix + v
    ensures HeaderField(Lines(ls, t), prefix) == Some((v, Lines(ls[1..], t)))
  {
    assert OneLine(prefix + v);
    TakeLineOf(prefix + v, Lines(ls[1..], t));
    assert (prefix + v)[|prefix|..] == v;
  }

  lemma {:induction false} ExpectOfLine(line: string, ls: seq<string>, t: string)
    requires OneLine(line) && ls != [] && ls[0] == line
    ensures ExpectLine(Lines(ls, t), line) == Some(Lines(ls[1..], t))
  {
    TakeLineOf(line, Lines(ls[1..], t));
  }

  /** The entry lines, followed by the closing `---`, read back as the ingredients. */
  lemma {:induction false} DecodeEntriesOfLines(ings: seq<Ingredient>, t: string)
    requires forall i :: 0 <= i < |ings| ==> IngredientOneLine(ings[i])
    ensures DecodeEntries(Lines(EntriesLines(ings) + ["---"], t)) == Some((ings, t))
    decreases |ings|
  {
    if ings == [] {
      assert EntriesLines(ings) + ["---"] == ["---"];
      TakeLineOf("---", t);
    } else {
      var rest := EntriesLines(ings[1..]) + ["---"];
      assert EntriesLines(ings) + ["---"] == EntryLines(ings[0]) + rest;
      DecodeEntriesOfLines(ings[1..], t);
      DecodeEntryStep(ings[0], rest, t, ings[1..]);
      assert [ings[0]] + ings[1..] == ings;
    }
  }

  /** One entry's three lines read back as that ingredient, before the entries that follow. */
  lemma {:induction false} DecodeEntryStep(ing: Ingredient, rest: seq<string>, t: string, more: seq<Ingredient>)
    requires IngredientOneLine(ing)
    requires DecodeEntries(Lines(rest, t)) == Some((more, t))
    ensures DecodeEntries(Lines(EntryLines(ing) + rest, t)) == Some(([ing] + more, t))
  {
    var e := EntryLines(ing);
    LinesAppend(e, rest, t);
    var x := Lines(rest, t);
    HeaderFieldOfLine("  - quantity: ", ing.quantity, e, x);
    HeaderFieldOfLine("    unit: ", ing.unit, e[1..], x);
    HeaderFieldOfLine("    name: ", ing.name, e[2..], x);
    assert e[3..] == [];
    assert "---" != e[0] by {
      assert e[0][0] == ' ';
    }
  }

  /** The `ingredients` block and the closing `---` read back as the ingredients. */
  lemma {:induction false} DecodeBlockOfLines(ings: seq<Ingredient>, t: string)
    requires forall i :: 0 <= i < |ings| ==> IngredientOneLine(ings[i])
    ensures DecodeBlock(Lines(BlockLines(ings) + ["---"], t)) == Some((ings, t))
  {
    var ls := BlockLines(ings) + ["---"];
    if ings == [] {
      assert ls == [" ingredients: []", "---"];
      TakeLineOf(" ingredients: []", Lines(ls[1..], t));
      ExpectOfLine("---", ls[1..], t);
      assert ls[1..][1..] == [];
    } else {
      var rest := EntriesLines(ings) + ["---"];
      assert ls == [" ingredients:"] + rest;
      assert ls[1..] == rest;
      TakeLineOf(" ingredients:", Lines(rest, t));
      DecodeEntriesOfLines(ings, t);
    }
  }

  /** Field lines read back as their values. */
  lemma {:induction false} DecodeFieldsOfLines(keys: seq<string>, vs: seq<string>, t: string)
    requires |keys| == |vs|
    requires forall i :: 0 <= i < |keys| ==> OneLine(keys[i]) && OneLine(vs[i])
    ensures DecodeFields(Lines(FieldLines(keys, vs), t), keys) == Some((vs, t))
    decreases |keys|
  {
    if keys != [] {
      var ls := FieldLines(keys, vs);
      HeaderFieldOfLine(keys[0], vs[0], ls, t);
      assert ls[1..] == FieldLines(keys[1..], vs[1..]);
      DecodeFieldsOfLines(keys[1..], vs[1..], t);
      assert [vs[0]] + vs[1..] == vs;
    }
  }

  lemma {:induction false} HeaderOneLine(r: Recipe)
    requires WellFormed(r)
    ensures forall i :: 0 <= i < |HeaderKeys| ==> OneLine(HeaderKeys[i]) && OneLine(HeaderValues(r)[i])
  {
  }

  /** After the closing `---`: the blank line, then the body and its newline. */
  lemma {:induction false} DecodeTail(body: string)
    ensures ExpectLine("\n" + body + "\n", "") == Some(body + "\n")
  {
    TakeLineOf("", body + "\n");
    assert "" + "\n" + (body + "\n") == "\n" + body + "\n";
  }

  /** Reading a rendered document gives back the recipe it was rendered from. */
  lemma {:induction false} DecodeLines(r: Recipe)
    ensures WellFormed(r) ==>
              Decode(Lines(HeaderLines(r) + BlockLines(r.ingredients) + ["---"], "\n" + r.body + "\n")) == Some(r)
  {
    if WellFormed(r) {
      var t := "\n" + r.body + "\n";
      var fl := FieldLines(HeaderKeys, HeaderValues(r));
      var b := BlockLines(r.ingredients) + ["---"];
      assert HeaderLines(r) + BlockLines(r.ingredients) + ["---"] == ["---"] + (fl + b);
      LinesAppend(fl, b, t);
      ExpectOfLine("---", ["---"] + (fl + b), t);
      assert (["---"] + (fl + b))[1..] == fl + b;
      HeaderOneLine(r);
      DecodeFieldsOfLines(HeaderKeys, HeaderValues(r), Lines(b, t));
      DecodeBlockOfLines(r.ingredients, t);
      DecodeParts(Lines(["---"] + (fl + b), t), Lines(fl + b, t), Lines(b, t), r);
    }
  }

  /** Decode, step by step: the opening line, the header, the block, the blank line and the body. */
  lemma {:induction false} DecodeParts(md: string, s0: string, x: string, r: Recipe)
    requires ExpectLine(md, "---") == Some(s0)
    requires DecodeFields(s0, HeaderKeys) == Some((HeaderValues(r), x))
    requires DecodeBlock(x) == Some((r.ingredients, "\n" + r.body + "\n"))
    ensures Decode(md) == Some(r)
  {
    DecodeTail(r.body);
    assert (r.body + "\n")[..|r.body|] == r.body;
  }

  lemma {:induction false} NormalizedOneLine(t: string)
    requires IsNormalized(t)
    ensures OneLine(t)
  {
    if '\n' in t {
      var i :| 0 <= i < |t| && t[i] == '\n';
      assert IsSpace(t[i]);
    }
  }

  lemma {:induction false} NormalizeValueOneLine(v: Option<string>, fallback: string)
    requires OneLine(fallback)
    ensures OneLine(NormalizeValue(v, fallback))
  {
    if Normalize(v.GetOr("")) != "" {
      NormalizedOneLine(NormalizeValue(v, fallback));
    }
  }

  lemma {:induction false} NumberOneLine(v: Option<string>, fallback: string)
    requires OneLine(fallback)
    ensures OneLine(Durations.NormalizeNumberValue(v, fallback))
  {
  }

  lemma {:induction false} JoinOneLine(ws: seq<string>)
    requires IsWords(ws)
    ensures OneLine(Join(ws))
  {
    JoinNormalized(ws);
    NormalizedOneLine(Join(ws));
  }

  lemma {:induction false} ParsedOneLine(text: string)
    ensures IngredientOneLine(ParseIngredient(text))
  {
    var ws := Words(text);
    var q := QuantityWords(ws);
    var rest := ws[q..];
    var u := UnitWords(rest);
    WordsSuffix(ws, q);
    WordsSuffix(rest, u);
    JoinOneLine(ws[..q]);
    JoinOneLine(rest[..u]);
    JoinOneLine(rest[u..]);
  }

  lemma {:induction false} EntryOneLine(e: Entry)
    ensures IngredientOneLine(NormalizeEntry(e))
  {
    match e
    case Line(text) => ParsedOneLine(text);
    case Object(q, u, n) =>
      NormalizeValueOneLine(q, "");
      NormalizeValueOneLine(u, "");
      NormalizeValueOneLine(n, "");
    case Other =>
  }

  lemma {:induction false} IngredientsOneLine(v: IngredientsValue)
    ensures forall i :: 0 <= i < |NormalizeIngredients(v)| ==> IngredientOneLine(NormalizeIngredients(v)[i])
  {
    var ings := NormalizeIngredients(v);
    forall i | 0 <= i < |ings| ensures IngredientOneLine(ings[i]) {
      EntryOneLine(v.entries[i]);
    }
  }

  /** The lines end with the closing `---`, a blank line, the body and a newline. */
  lemma {:induction false} LinesEnding(ls: seq<string>, body: string)
    ensures Lines(ls + ["---"], "\n" + body + "\n") == Lines(ls, "---\n\n" + body + "\n")
  {
    var t := "\n" + body + "\n";
    LinesAppend(ls, ["---"], t);
    assert Lines(["---"], t) == "---" + "\n" + Lines([], t);
    assert "---" + "\n" + t == "---\n\n" + body + "\n";
  }

  /** Missing or blank times become "0" and a missing or blank servings count "1". */
  lemma NumberFallbacks(raw: RawRecipe)
    ensures Normalize(raw.prepTime.GetOr("")) == "" ==> NormalizeRecipe(raw).prepTime == "0"
    ensures Normalize(raw.cookTime.GetOr("")) == "" ==> NormalizeRecipe(raw).cookTime == "0"
    ensures Normalize(raw.totalTime.GetOr("")) == "" ==> NormalizeRecipe(raw).totalTime == "0"
    ensures Normalize(raw.servings.GetOr("")) == "" ==> NormalizeRecipe(raw).servings == "1"
  {
  }

  /** The block reads `ingredients: []` exactly when the value is not an array or an empty one. */
  lemma {:induction false} EmptyBlock(raw: RawRecipe)
    ensures BlockLines(NormalizeRecipe(raw).ingredients) == [" ingredients: []"]
            <==> raw.ingredients.NotList? || raw.ingredients.entries == []
  {
    var ings := NormalizeIngredients(raw.ingredients);
    if ings != [] {
      assert BlockLines(ings)[0] == " ingredients:";
    }
  }
}
