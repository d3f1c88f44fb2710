/**
 * The ingredient tokenizer `parseIngredientString` (recipes.service.ts):
 * a free-text ingredient line becomes a quantity, a unit and a name.
 *
 * `ParseIngredient` is the specification over the words of the line;
 * `ParseIngredientString` is the tokenizer as the service writes it, shifting
 * and splicing a token list, and is proved to compute the specification.
 */
module Ingredients {
  import opened Wrappers
  import opened Text
  import Durations
  import Letters

  datatype Ingredient = Ingredient(quantity: string, unit: string, name: string)

  /** `t` matches `\d+\/\d+` as a whole. */
  predicate IsFraction(t: string) {
    exists p :: 0 < p < |t| - 1 && t[p] == '/' && forall k :: 0 <= k < |t| && k != p ==> Durations.IsDigit(t[k])
  }

  /** `t` matches `^(\d+(?:[.,]\d+)?|\d+\/\d+)$`. */
  predicate IsQuantity(t: string) {
    Durations.IsNumeral(t) || IsFraction(t)
  }

  /** First word of the three-word spoon unit (compared lower-cased). */
  const SpoonWords: set<string> := {"cuillere", "cuilleres", "cuill\U{00E8}re", "cuill\U{00E8}res"}
  /** Its second word. */
  const SpoonLinks: set<string> := {"a", "\U{00E0}"}
  /** Its third word. */
  const SpoonKinds: set<string> := {"cafe", "caf\U{00E9}", "soupe"}
  /** The one-word units (compared lower-cased). */
  const SingleUnits: set<string> :=
    {"g", "kg", "mg", "ml", "cl", "l", "oz", "lb", "tsp", "tbsp", "c", "cs", "c\U{00E0}s", "cac", "c\U{00E0}c"}

  /** The lower-cased tokens spell a spoon unit such as "cuillère à soupe". */
  predicate SpoonMatch(lower: seq<string>) {
    |lower| >= 3 && lower[0] in SpoonWords && lower[1] in SpoonLinks && lower[2] in SpoonKinds
  }

  /** The first lower-cased token is a one-word unit. */
  predicate UnitMatch(lower: seq<string>) {
    lower != [] && lower[0] in SingleUnits
  }

  /** `tokens.map((token) => token.toLowerCase())` */
  function LowerAll(ws: seq<string>): (r: seq<string>)
    ensures |r| == |ws| && forall i :: 0 <= i < |ws| ==> r[i] == Letters.Lower(ws[i])
  {
    seq(|ws|, i requires 0 <= i < |ws| => Letters.Lower(ws[i]))
  }

  /** The first three words spell a spoon unit, in any letter case. */
  predicate IsSpoonPhrase(ws: seq<string>) {
    SpoonMatch(LowerAll(ws))
  }

  /** The first word is a one-word unit, in any letter case. */
  predicate IsSingleUnit(ws: seq<string>) {
    UnitMatch(LowerAll(ws))
  }

  /** How many leading words form the quantity: 1 or 0. */
  function QuantityWords(ws: seq<string>): (k: nat)
    ensures k <= |ws|
  {
    if ws != [] && IsQuantity(ws[0]) then 1 else 0
  }

  /** How many leading words form the unit: 3 for a spoon unit (tried first), 1 for a one-word unit, else 0. */
  function UnitWords(ws: seq<string>): (k: nat)
    ensures k <= |ws|
  {
    if IsSpoonPhrase(ws) then 3 else if IsSingleUnit(ws) then 1 else 0
  }

  /**
   * The ingredient a line denotes: of its words, the quantity words, then the
   * unit words, then the rest as the name, each part joined by single spaces.
   */
  function ParseIngredient(raw: string): (r: Ingredient)
    ensures r.quantity == "" || IsQuantity(r.quantity)
  {
    var ws := Words(raw);
    var q := QuantityWords(ws);
    var rest := ws[q..];
    var u := UnitWords(rest);
    assert q == 1 ==> Join(ws[..q]) == ws[0];
    Ingredient(Join(ws[..q]), Join(rest[..u]), Join(rest[u..]))
  }

  /** The non-empty fields joined by single spaces. */
  function JoinFields(ing: Ingredient): string {
    Glue(ing.quantity, Glue(ing.unit, ing.name))
  }

  /** parseIngredientString(raw) */
  method ParseIngredientString(raw: string) returns (ing: Ingredient)
    ensures ing == ParseIngredient(raw)
  {
    var text := NormalizeValue(Some(raw), "");
    if text == "" {
      WordsEmptyOfNormalize(raw);
      return Ingredient("", "", "");
    }
    var tokens := Split(text);
    SplitNormalized(text);
    ghost var ws := Words(raw);
    assert tokens == ws;
    var quantity := "";
    var unit := "";
    if |tokens| > 0 && IsQuantity(tokens[0]) {
      quantity := tokens[0];
      tokens := tokens[1..];
    }
    ghost var rest := tokens;
    assert quantity == Join(ws[..QuantityWords(ws)]) && rest == ws[QuantityWords(ws)..];
    var lowerTokens := LowerAll(tokens);
    var multiWordUnitMatch := SpoonMatch(lowerTokens);
    if multiWordUnitMatch {
      unit := Join(tokens[..3]);
      tokens := tokens[3..];
    } else if |tokens| > 0 {
      if UnitMatch(lowerTokens) {
        unit := tokens[0];
        tokens := tokens[1..];
      }
    }
    UnitTaken(rest, unit, tokens);
    UnitStep(ws, rest, unit, tokens);
    NormalizeJoin(tokens);
    JoinEnds(tokens);
    var name := NormalizeValue(Some(Join(tokens)), "");
    return Ingredient(quantity, unit, name);
  }

  // ---------------------------------------------------------------------
  // Lemmas

  lemma {:induction false} WordsEmptyOfNormalize(raw: string)
    requires Normalize(raw) == ""
    ensures Words(raw) == []
  {
    JoinEnds(Words(raw));
  }

  /** The three ways the unit step can leave `unit` and the remaining tokens. */
  lemma {:induction false} UnitTaken(rest: seq<string>, unit: string, tokens: seq<string>)
    requires || (IsSpoonPhrase(rest) && unit == Join(rest[..3]) && tokens == rest[3..])
             || (!IsSpoonPhrase(rest) && IsSingleUnit(rest) && unit == rest[0] && tokens == rest[1..])
             || (!IsSpoonPhrase(rest) && !IsSingleUnit(rest) && unit == "" && tokens == rest)
    ensures unit == Join(rest[..UnitWords(rest)]) && tokens == rest[UnitWords(rest)..]
  {
    if !IsSpoonPhrase(rest) && IsSingleUnit(rest) {
      assert rest[..1] == [rest[0]];
    }
  }

  lemma {:induction false} UnitStep(ws: seq<string>, rest: seq<string>, unit: string, tokens: seq<string>)
    requires IsWords(ws) && rest == ws[QuantityWords(ws)..]
    requires unit == Join(rest[..UnitWords(rest)]) && tokens == rest[UnitWords(rest)..]
    ensures IsWords(tokens)
    ensures tokens == ws[QuantityWords(ws) + UnitWords(rest)..]
  {
    WordsSuffix(ws, QuantityWords(ws) + UnitWords(rest));
  }

  lemma {:induction false} WordsSuffix(ws: seq<string>, k: nat)
    requires IsWords(ws) && k <= |ws|
    ensures IsWords(ws[k..]) && IsWords(ws[..k])
  {
    assert forall j :: 0 <= j < |ws| - k ==> ws[k..][j] == ws[k + j];
  }

  /** Splitting a word list at `k` and gluing the two joins gives back the join. */
  lemma {:induction false} JoinSplitAt(ws: seq<string>, k: nat)
    requires IsWords(ws) && k <= |ws|
    ensures Glue(Join(ws[..k]), Join(ws[k..])) == Join(ws)
  {
    WordsSuffix(ws, k);
    JoinAppend(ws[..k], ws[k..]);
    assert ws[..k] + ws[k..] == ws;
  }

  /**
   * No text is lost or reordered: the non-empty fields joined by single
   * spaces are the whitespace-normalised line.
   */
  lemma {:induction false} IngredientLossless(raw: string)
    ensures JoinFields(ParseIngredient(raw)) == Normalize(raw)
  {
    var ws := Words(raw);
    var q := QuantityWords(ws);
    var rest := ws[q..];
    var u := UnitWords(rest);
    WordsSuffix(ws, q);
    JoinSplitAt(rest, u);
    JoinSplitAt(ws, q);
  }

  /** Each field is normalised text: single inner spaces, none at either end. */
  lemma {:induction false} FieldsNormalized(raw: string)
    ensures var r := ParseIngredient(raw);
            IsNormalized(r.quantity) && IsNormalized(r.unit) && IsNormalized(r.name)
  {
    var ws := Words(raw);
    var q := QuantityWords(ws);
    var rest := ws[q..];
    var u := UnitWords(rest);
    WordsSuffix(ws, q);
    WordsSuffix(rest, u);
    JoinNormalized(ws[..q]);
    JoinNormalized(rest[..u]);
    JoinNormalized(rest[u..]);
  }

  /** The three fields are empty exactly when the line is empty or whitespace only. */
  lemma {:induction false} IngredientEmpty(raw: string)
    ensures ParseIngredient(raw) == Ingredient("", "", "") <==> forall i :: 0 <= i < |raw| ==> IsSpace(raw[i])
  {
    IngredientLossless(raw);
    WordsEmpty(raw);
    JoinEnds(Words(raw));
    if Words(raw) == [] {
      assert ParseIngredient(raw) == Ingredient("", "", "");
    }
  }

  /**
   * The quantity is the whole first word when that word matches the quantity
   * pattern, and empty otherwise.
   */
  lemma {:induction false} QuantityIsFirstWord(raw: string)
    ensures var q := ParseIngredient(raw).quantity;
            q != "" <==> Words(raw) != [] && IsQuantity(Words(raw)[0])
    ensures var q := ParseIngredient(raw).quantity;
            q != "" ==> q == Words(raw)[0] && IsQuantity(q) && NoSpace(q)
  {
    var ws := Words(raw);
    var q := ParseIngredient(raw).quantity;
    assert q == (if ws != [] && IsQuantity(ws[0]) then ws[0] else "") by {
      assert q == Join(ws[..QuantityWords(ws)]);
      if ws != [] {
        assert ws[..1] == [ws[0]];
      }
    }
    assert ws != [] ==> ws[0] != "" && NoSpace(ws[0]);
  }

  /**
   * The unit is empty, one word whose lower-case form is a listed unit, or
   * three words spelling a spoon unit; the spoon unit is preferred and takes
   * the three words verbatim.
   */
  lemma {:induction false} UnitShape(raw: string, rest: seq<string>)
    requires rest == Words(raw)[QuantityWords(Words(raw))..]
    ensures IsSpoonPhrase(rest) ==> ParseIngredient(raw).unit == rest[0] + " " + rest[1] + " " + rest[2]
    ensures !IsSpoonPhrase(rest) && IsSingleUnit(rest) ==> ParseIngredient(raw).unit == rest[0]
    ensures !IsSpoonPhrase(rest) && !IsSingleUnit(rest) ==> ParseIngredient(raw).unit == ""
  {
    if IsSpoonPhrase(rest) {
      JoinThree(rest[..3]);
    } else if IsSingleUnit(rest) {
      assert rest[..1] == [rest[0]];
    }
  }

  lemma {:induction false} JoinThree(ws: seq<string>)
    requires |ws| == 3
    ensures Join(ws) == ws[0] + " " + ws[1] + " " + ws[2]
  {
    assert ws[1..][1..] == [ws[2]];
    assert Join(ws[1..][1..]) == ws[2];
    assert Join(ws[1..]) == ws[1] + " " + ws[2];
    assert Join(ws) == ws[0] + " " + (ws[1] + " " + ws[2]);
    ConcatAssoc(ws[1], " ", ws[2]);
    ConcatAssoc(ws[0] + " ", ws[1], " " + ws[2]);
    ConcatAssoc(ws[0] + " " + ws[1], " ", ws[2]);
  }

  /** The name is the words left after the quantity and the unit. */
  lemma {:induction false} NameIsRest(raw: string)
    ensures var ws := Words(raw);
            var q := QuantityWords(ws);
            ParseIngredient(raw).name == Join(ws[q + UnitWords(ws[q..])..])
  {
    var ws := Words(raw);
    var q := QuantityWords(ws);
    assert ws[q..][UnitWords(ws[q..])..] == ws[q + UnitWords(ws[q..])..];
  }

  // ---------------------------------------------------------------------
  // Worked examples

  lemma {:induction false} WordsOfLine(raw: string, ws: seq<string>)
    requires IsWords(ws) && raw == Join(ws)
    ensures Words(raw) == ws
  {
    WordsJoin(ws);
  }

  /** A string without capitals is its own lower-case form. */
  lemma {:induction false} LowerFixed(s: string)
    requires forall i :: 0 <= i < |s| ==> Letters.LowerChar(s[i]) == s[i]
    ensures Letters.Lower(s) == s
  {
  }

  lemma {:induction false} GramsWords(raw: string)
    requires raw == "200 g farine"
    ensures Words(raw) == ["200", "g", "farine"]
  {
    var ws := ["200", "g", "farine"];
    assert Join(ws) == "200 " + Join(ws[1..]);
    assert Join(ws[1..]) == "g " + Join(ws[2..]);
    WordsOfLine(raw, ws);
  }

  /** "200 g farine" gives quantity "200", unit "g", name "farine". */
  lemma {:induction false} ExampleGrams(raw: string)
    requires raw == "200 g farine"
    ensures ParseIngredient(raw) == Ingredient("200", "g", "farine")
  {
    GramsWords(raw);
    var ws := ["200", "g", "farine"];
    assert Durations.AllDigits("200");
    assert IsQuantity(ws[0]);
    LowerFixed("g");
    assert ws[1..] == ["g", "farine"];
    assert IsSingleUnit(ws[1..]);
    assert ws[..1] == ["200"] && ws[1..][..1] == ["g"] && ws[1..][1..] == ["farine"];
  }

  predicate IsPlainChar(c: char) {
    '0' <= c <= '9' || 'a' <= c <= 'z' || '\U{00C0}' <= c <= '\U{00FF}'
  }

  /** Digits, small letters and Latin-1 letters are not whitespace. */
  lemma {:induction false} PlainWord(w: string)
    requires forall i :: 0 <= i < |w| ==> IsPlainChar(w[i])
    ensures NoSpace(w)
  {
  }

  lemma {:induction false} SpoonLineWords(ws: seq<string>)
    requires ws == ["2", "cuill\U{00E8}res", "\U{00E0}", "soupe", "sucre"]
    ensures IsWords(ws)
  {
    PlainWord(ws[0]);
    PlainWord(ws[1]);
    PlainWord(ws[2]);
    PlainWord(ws[3]);
    PlainWord(ws[4]);
  }

  /** The line as the join of its five words. */
  lemma {:induction false} SpoonLineChunks(raw: string)
    requires raw == "2 cuill\U{00E8}res \U{00E0} soupe sucre"
    ensures raw == "2" + " " + ("cuill\U{00E8}res" + " " + ("\U{00E0}" + " " + ("soupe" + " " + "sucre")))
  {
  }

  lemma {:induction false} SpoonLineJoin(ws: seq<string>)
    requires ws == ["2", "cuill\U{00E8}res", "\U{00E0}", "soupe", "sucre"]
    ensures Join(ws) == "2" + " " + ("cuill\U{00E8}res" + " " + ("\U{00E0}" + " " + ("soupe" + " " + "sucre")))
  {
    assert Join(ws[3..]) == "soupe" + " " + "sucre" by {
      assert ws[3..][1..] == ["sucre"];
    }
    assert Join(ws[2..]) == "\U{00E0}" + " " + Join(ws[3..]) by {
      assert ws[2..][1..] == ws[3..];
    }
    assert Join(ws[1..]) == "cuill\U{00E8}res" + " " + Join(ws[2..]) by {
      assert ws[1..][1..] == ws[2..];
    }
  }

  lemma {:induction false} SpoonWordsOfLine(raw: string)
    requires raw == "2 cuill\U{00E8}res \U{00E0} soupe sucre"
    ensures Words(raw) == ["2", "cuill\U{00E8}res", "\U{00E0}", "soupe", "sucre"]
  {
    var ws := ["2", "cuill\U{00E8}res", "\U{00E0}", "soupe", "sucre"];
    SpoonLineWords(ws);
    SpoonLineChunks(raw);
    SpoonLineJoin(ws);
    WordsOfLine(raw, ws);
  }

  lemma {:induction false} SpoonPhraseExample(rest: seq<string>)
    requires rest == ["cuill\U{00E8}res", "\U{00E0}", "soupe", "sucre"]
    ensures IsSpoonPhrase(rest)
  {
    LowerFixed(rest[0]);
    LowerFixed(rest[1]);
    LowerFixed(rest[2]);
  }

  lemma {:induction false} SpoonUnitText()
    ensures "cuill\U{00E8}res" + " " + "\U{00E0}" + " " + "soupe" == "cuill\U{00E8}res \U{00E0} soupe"
  {
  }

  /** "2 cuillères à soupe sucre" gives quantity "2", unit "cuillères à soupe", name "sucre". */
  lemma {:induction false} ExampleSpoon(raw: string)
    requires raw == "2 cuill\U{00E8}res \U{00E0} soupe sucre"
    ensures ParseIngredient(raw) == Ingredient("2", "cuill\U{00E8}res \U{00E0} soupe", "sucre")
  {
    SpoonWordsOfLine(raw);
    var ws := Words(raw);
    assert Durations.AllDigits(ws[0]);
    assert QuantityWords(ws) == 1;
    QuantityIsFirstWord(raw);
    var rest := ws[1..];
    SpoonPhraseExample(rest);
    UnitShape(raw, rest);
    SpoonUnitText();
    NameIsRest(raw);
    assert ws[4..] == ["sucre"];
  }
}
