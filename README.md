# remicette recipe service, in Dafny

remicette turns a recipe web page into a Markdown file in a content
repository. The API's `RecipesService` (apps/api/src/recipes/recipes.service.ts)
does this in five steps:

1. It fetches the page.
2. It asks a language model to extract a structured recipe as JSON, and
   recovers that JSON defensively from the model's output.
3. It normalises every field and renders a front-matter document.
4. It saves the document under a slug derived from the title.
5. Optionally, it commits and pushes the document with git, under a lock file.

This project models that service and proves properties of the model.

| file | models |
|---|---|
| `wrappers.dfy` | `Option`, `Result`, `Outcome` |
| `text.dfy` | `normalizeValue`: JavaScript's `\s` class, `replace(/\s+/g, ' ')`, `trim()`, `split(' ')`, `join(' ')` |
| `durations.dfy` | `normalizeNumberValue`: the four regular expressions as scanners, `parseFloat`, `Math.round`, `String(n)` |
| `letters.dfy` | `toLowerCase` and `normalize('NFD')` on ASCII and Latin-1 |
| `ingredients.dfy` | `parseIngredientString`, as a method over the token list |
| `slugs.dfy` | `slugify` and the file name chosen by `saveMarkdown` |
| `markdown.dfy` | `toMarkdown`: the normalised recipe and the document; plus a decoder that reads the document back |
| `extraction.dfy` | the JSON recovery in `summarize`: first `{` to last `}` |
| `service.dfy` | `summarize`, and a `RecipesService` class with `saveMarkdown`, `commitAndPushRecipe` and `createRecipe` |

The world outside the service is a `World` object. It holds the files on
disk, a log of effects in order (file written, lock taken, lock released,
git command run), and scripted answers for the steps that can fail. The
page fetch and the model run are parameters of `CreateRecipe`, and
`JSON.parse` is a parameter `parse`.

Two behaviours of the code that a reader may not expect:

- `normalizeNumberValue("1h30")` is `"60"`, not 90. The minutes pattern
  needs an `m` after the number, so the `30` is not read as minutes
  (`Durations.ExampleHourDigits`). `"1 h 30 min"` gives `"90"`.
- A title made only of whitespace is not replaced by `untitled-recipe`.
  Only the empty string is falsy. Its slug is whatever the whitespace
  hyphenates and trims to, which is `""`. The same holds for any non-empty
  title whose folded form has no letter or digit (`Slugs.PunctuationSlug`).

## Model

| member | source | states |
|---|---|---|
| Text.Normalize | apps/api/src/recipes/recipes.service.ts:183-185 | collapsing whitespace runs and trimming gives a normalised string with the same words, namely the words joined by single spaces |
| Text.NormalizeValue | apps/api/src/recipes/recipes.service.ts:181-188 | the normalised text of the value, with a missing value read as empty; the fallback exactly when that text is empty |
| Text.Trim | apps/api/src/recipes/recipes.service.ts:185 | `trim()` leaves no whitespace at either end of its result |
| Text.TrimSlice | apps/api/src/recipes/recipes.service.ts:185 | `trim()` keeps one contiguous slice of the text and removes only whitespace before and after it |
| Text.TrimEndSuffix | apps/api/src/recipes/recipes.service.ts:185 | everything the trailing trim removes is whitespace |
| Text.Collapse | apps/api/src/recipes/recipes.service.ts:184 | every whitespace run becomes one plain space: the result is no longer, its only whitespace is spaces, and it starts with whitespace exactly when the text does |
| Text.NormalizeIdempotent | apps/api/src/recipes/recipes.service.ts:181-188 | normalising twice is normalising once |
| Text.NormalizeFixesNormalized | apps/api/src/recipes/recipes.service.ts:181-188 | an already normalised string is left unchanged |
| Text.WordsEmpty | apps/api/src/recipes/recipes.service.ts:183-187 | a string has no words exactly when every character is whitespace, and it normalises to the empty string (so to the fallback) exactly when it has no words |
| Text.CollapseShape | apps/api/src/recipes/recipes.service.ts:184 | collapsing keeps the words joined by single spaces, plus at most one space at either end |
| Text.NormalizeIsJoinOfWords | apps/api/src/recipes/recipes.service.ts:183-185 | trim after collapse equals the words joined by single spaces |
| Text.WordsJoin | apps/api/src/recipes/recipes.service.ts:277 | words joined by single spaces have exactly those words, in order |
| Text.Join | apps/api/src/recipes/recipes.service.ts:277 | `join(' ')` gives the empty string only for no words or one empty word |
| Text.JoinNormalized | apps/api/src/recipes/recipes.service.ts:277 | words joined by single spaces form a normalised string |
| Text.SplitNormalized | apps/api/src/recipes/recipes.service.ts:229-235 | on normalised non-empty text, `split(' ')` yields exactly its words, with no empty token |
| Text.Split | apps/api/src/recipes/recipes.service.ts:229-235 | `split(' ')` yields at least one token, and no token contains a space |
| Text.SplitJoin | apps/api/src/recipes/recipes.service.ts:229-235 | joining the tokens of `split(' ')` with single spaces gives the text back |
| Durations.NormalizeNumberValue | apps/api/src/recipes/recipes.service.ts:190-226 | empty normalised text gives the fallback; every result is the fallback or a canonical decimal whole number |
| Durations.NumberOf | apps/api/src/recipes/recipes.service.ts:196-225 | the matched case gives the fallback or a canonical decimal whole number |
| Durations.FirstMatch | apps/api/src/recipes/recipes.service.ts:196-216 | a capture is a numeral that fits in the rest of the text |
| Durations.FirstMatchSpec | apps/api/src/recipes/recipes.service.ts:196-216 | the scanner finds the leftmost position where the pattern matches, and captures the numeral there |
| Durations.ScannerIsRegex | apps/api/src/recipes/recipes.service.ts:196-216 | at each position the scanner matches exactly when the regular expression does, and captures the same (greedy) numeral |
| Durations.NumeralGreedy | apps/api/src/recipes/recipes.service.ts:197 | no numeral starting at a position is longer than the one the scanner takes |
| Durations.NumeralUnique | apps/api/src/recipes/recipes.service.ts:197 | a numeral followed by a non-numeral character is the scanner's numeral |
| Durations.RangeCapture | apps/api/src/recipes/recipes.service.ts:196-199 | a range's first capture is a bare numeral, with no hour or minute marker and matched whole by the plain pattern |
| Durations.RangeKeepsFirstNumber | apps/api/src/recipes/recipes.service.ts:196-199 | for a range such as "10-15", the result is the rounded first number |
| Durations.MarkersGiveMinutes | apps/api/src/recipes/recipes.service.ts:201-214 | with an hour or minute marker, the result is round(hours * 60 + minutes), each part 0 when absent |
| Durations.MarkerMinutes | apps/api/src/recipes/recipes.service.ts:205-213 | the result is the whole number within one half of hours * 60 + minutes, and 0 when neither marker matched |
| Durations.DigitDecides | apps/api/src/recipes/recipes.service.ts:190-226 | text without a digit gives the fallback; text with a digit gives a decimal whole number |
| Durations.PlainRoundsFirstNumeral | apps/api/src/recipes/recipes.service.ts:215-225 | without a range, hour or minute match, the result is the rounded value of the first numeral |
| Durations.NoDigitNoMatch | apps/api/src/recipes/recipes.service.ts:196-216 | none of the four patterns matches text without a digit |
| Durations.MathRound | apps/api/src/recipes/recipes.service.ts:211-225 | `Math.round`, at lines 211 and 225, of a non-negative value is the whole number within one half of it |
| Durations.NumeralValue | apps/api/src/recipes/recipes.service.ts:206-220 | `parseFloat` (lines 206 and 220) after the comma is replaced by a point gives a non-negative value, the integer itself for digits only |
| Durations.NumeralValueDecimal | apps/api/src/recipes/recipes.service.ts:206-220 | a numeral with a decimal point or comma is worth its integer part plus its fraction digits over the matching power of ten |
| Durations.DecimalString | apps/api/src/recipes/recipes.service.ts:212-225 | `String(n)`, at lines 212 and 225, of a whole number is a canonical decimal whose value is n |
| Durations.DecimalStringOfValue | apps/api/src/recipes/recipes.service.ts:225 | printing the value of a canonical decimal string gives that string back |
| Durations.ExampleRange | apps/api/src/recipes/recipes.service.ts:196-199 | "10-15 minutes" normalises to "10" |
| Durations.ExampleHourRange | apps/api/src/recipes/recipes.service.ts:196-199 | "1-2 h" normalises to "1": the range wins and the hour marker is lost |
| Durations.ExampleHoursMinutes | apps/api/src/recipes/recipes.service.ts:201-214 | "1 h 30 min" normalises to "90" |
| Durations.ExampleHourDigits | apps/api/src/recipes/recipes.service.ts:201-214 | "1h30" normalises to "60": the 30 has no minute marker |
| Durations.ExampleServings | apps/api/src/recipes/recipes.service.ts:215-225 | "4 personnes" with fallback "1" normalises to "4" |
| Letters.LowerChar | apps/api/src/recipes/recipes.service.ts:243 | `toLowerCase` maps A-Z to a-z and leaves every other ASCII character alone (the Latin-1 capitals are lowered too; `Letters.LetterExamples` shows two) |
| Letters.Lower | apps/api/src/recipes/recipes.service.ts:325 | `toLowerCase` keeps the length, maps A-Z to a-z, leaves other ASCII alone and leaves no capital A-Z |
| Letters.LowerIdempotent | apps/api/src/recipes/recipes.service.ts:325 | lowering twice is lowering once |
| Letters.NfdAscii | apps/api/src/recipes/recipes.service.ts:326 | NFD leaves ASCII text unchanged |
| Letters.Nfd | apps/api/src/recipes/recipes.service.ts:326 | NFD at most doubles the length and never shortens |
| Letters.NfdDecomposed | apps/api/src/recipes/recipes.service.ts:326 | every character after NFD has no further decomposition |
| Letters.NfdIdempotent | apps/api/src/recipes/recipes.service.ts:326 | applying NFD twice is applying it once |
| Letters.LetterExamples | apps/api/src/recipes/recipes.service.ts:325-326 | É lowers to é, and é decomposes to e plus U+0301 |
| Ingredients.LowerAll | apps/api/src/recipes/recipes.service.ts:243 | each token is lowered on its own, and there are as many lowered tokens as tokens |
| Ingredients.ParseIngredientString | apps/api/src/recipes/recipes.service.ts:228-280 | the method that shifts and splices the token list computes `ParseIngredient`, the split of the words into quantity, unit and name |
| Ingredients.ParseIngredient | apps/api/src/recipes/recipes.service.ts:228-280 | the quantity is empty or a number or fraction |
| Ingredients.FieldsNormalized | apps/api/src/recipes/recipes.service.ts:228-280 | quantity, unit and name are each normalised text: no leading, trailing or doubled whitespace |
| Ingredients.IngredientLossless | apps/api/src/recipes/recipes.service.ts:228-280 | quantity, unit and name, each joined to the next by a space when non-empty, give back the normalised line: no word is lost or reordered |
| Ingredients.IngredientEmpty | apps/api/src/recipes/recipes.service.ts:229-232 | all three fields are empty exactly when the line is blank |
| Ingredients.QuantityIsFirstWord | apps/api/src/recipes/recipes.service.ts:234-241 | the quantity is non-empty exactly when the first word is a number or a fraction, and it is then that word |
| Ingredients.UnitShape | apps/api/src/recipes/recipes.service.ts:243-275 | the unit is the three-word spoon phrase, the one known single unit, or empty, in that order of precedence |
| Ingredients.NameIsRest | apps/api/src/recipes/recipes.service.ts:277 | the name is the remaining words after quantity and unit, joined by spaces |
| Ingredients.ExampleGrams | apps/api/src/recipes/recipes.service.ts:228-280 | "200 g farine" parses to quantity "200", unit "g", name "farine" |
| Ingredients.ExampleSpoon | apps/api/src/recipes/recipes.service.ts:243-253 | "2 cuillères à soupe sucre" parses to "2", "cuillères à soupe", "sucre" |
| Slugs.StripMarks | apps/api/src/recipes/recipes.service.ts:327 | no combining mark remains, and the text gets no longer |
| Slugs.StripMarksByChar | apps/api/src/recipes/recipes.service.ts:327 | removing marks works character by character: a mark is dropped and any other character kept in place |
| Slugs.OtherRun | apps/api/src/recipes/recipes.service.ts:328 | the run replaced by one hyphen is the maximal leading run outside `[a-z0-9]` |
| Slugs.Hyphenate | apps/api/src/recipes/recipes.service.ts:328 | the text gets no longer, and it starts with a hyphen exactly when its first character is not a-z or 0-9 |
| Slugs.HyphenateWords | apps/api/src/recipes/recipes.service.ts:328-329 | replacing runs and trimming hyphens gives the maximal runs of a-z and 0-9, joined by single hyphens |
| Slugs.DropHyphens | apps/api/src/recipes/recipes.service.ts:329 | only leading hyphens are removed, and all of them |
| Slugs.DropTrailingHyphens | apps/api/src/recipes/recipes.service.ts:329 | only trailing hyphens are removed, and all of them |
| Slugs.TrimHyphens | apps/api/src/recipes/recipes.service.ts:329 | the result is the slice of the text between its leading and trailing hyphens, with a hyphen at neither end |
| Slugs.Slugify | apps/api/src/recipes/recipes.service.ts:323-330 | the result is the maximal runs of a-z and 0-9 in the lowered, decomposed, mark-free title, joined by single hyphens; hence a slug with no hyphen at either end |
| Slugs.SlugFor | apps/api/src/recipes/recipes.service.ts:333 | the file's slug is always a slug |
| Slugs.MarkdownPath | apps/api/src/recipes/recipes.service.ts:340-344 | the path is the root, the content directory, the slug and `.md`, in that order |
| Slugs.SlugifySlug | apps/api/src/recipes/recipes.service.ts:323-330 | a slug is its own slug |
| Slugs.SlugifyIdempotent | apps/api/src/recipes/recipes.service.ts:323-330 | slugifying twice is slugifying once |
| Slugs.SlugKeepsAlnums | apps/api/src/recipes/recipes.service.ts:325-329 | the slug keeps, in order, every letter and digit of the lowered, decomposed, mark-free title, and no other |
| Slugs.SlugEmpty | apps/api/src/recipes/recipes.service.ts:328-329 | the slug is empty exactly when the folded title has no letter or digit |
| Slugs.UntitledSlug | apps/api/src/recipes/recipes.service.ts:333 | a missing or empty title gives "untitled-recipe" |
| Slugs.PunctuationSlug | apps/api/src/recipes/recipes.service.ts:333 | a non-empty title whose folded form has no letter or digit gives the empty slug, not "untitled-recipe" |
| Slugs.FoldAscii | apps/api/src/recipes/recipes.service.ts:325-327 | lowering, decomposing and stripping marks leave lower-case ASCII unchanged |
| Slugs.CremeSlug | apps/api/src/recipes/recipes.service.ts:323-330 | "Crème Brûlée" gives "creme-brulee" |
| Markdown.NormalizeIngredients | apps/api/src/recipes/recipes.service.ts:282-296 | a non-array gives no ingredients; an array gives one ingredient per entry, in order, each normalised by its own shape |
| Markdown.NormalizeEntry | apps/api/src/recipes/recipes.service.ts:285-294 | a string entry is parsed as an ingredient line, a non-object gives three empty fields, and every field of the result is normalised text |
| Markdown.NormalizeRecipe | apps/api/src/recipes/recipes.service.ts:282-319 | every normalised field fits on one line; times are "0" or a canonical whole number, servings "1" or a canonical whole number; there is one ingredient per array entry and none otherwise |
| Markdown.Render | apps/api/src/recipes/recipes.service.ts:298-320 | the document is the header lines, the ingredient block, the closing `---`, a blank line, the body and a newline; a recipe whose fields fit on one line each reads back from it unchanged |
| Markdown.ToMarkdown | apps/api/src/recipes/recipes.service.ts:180-321 | the document of any model output reads back as exactly the normalised recipe: every field in its fixed place, no field lost |
| Markdown.NumberFallbacks | apps/api/src/recipes/recipes.service.ts:312-315 | blank or missing times become "0" and blank or missing servings "1" |
| Markdown.EmptyBlock | apps/api/src/recipes/recipes.service.ts:298-305 | the block reads `ingredients: []` exactly when the value is not an array or the array is empty |
| Extraction.IndexOf | apps/api/src/recipes/recipes.service.ts:156 | -1 exactly when the character is absent; otherwise its first position |
| Extraction.RawText | apps/api/src/recipes/recipes.service.ts:148-153 | a string output is kept, an array output starts with its first fragment, and any other output is its JSON text |
| Extraction.ConcatKeepsFragments | apps/api/src/recipes/recipes.service.ts:149 | `join('')` keeps each fragment whole, between the fragments before it and those after it |
| Extraction.LastIndexOf | apps/api/src/recipes/recipes.service.ts:157 | -1 exactly when the character is absent; otherwise its last position |
| Extraction.JsonSpan | apps/api/src/recipes/recipes.service.ts:156-166 | fails, with the "No JSON detected" message, exactly when a `{` or a `}` is missing |
| Extraction.SpanBounds | apps/api/src/recipes/recipes.service.ts:156-166 | the span runs from the first `{` to the last `}`, inclusive, and is empty when that `}` comes first |
| Extraction.SpanIsBraced | apps/api/src/recipes/recipes.service.ts:166 | a span is empty, or starts with `{` and ends with `}` |
| Extraction.EmbeddedObject | apps/api/src/recipes/recipes.service.ts:149-166 | an object in chatter with no `{` before it and no `}` after it is recovered exactly |
| Extraction.Recover | apps/api/src/recipes/recipes.service.ts:156-177 | no brace pair fails with "No JSON detected"; otherwise the parser's verdict on the span decides, its error prefixed "Failed to parse Replicate JSON"; success needs both braces |
| Service.SummarizeEmbedded | apps/api/src/recipes/recipes.service.ts:149-169 | an object embedded in chatter is parsed as it is, whether the output is a string, fragments or another value |
| Service.CommitSkipped | apps/api/src/recipes/recipes.service.ts:350-358 | with no repository root, or auto-commit not exactly "true", nothing happens and the run succeeds |
| Service.LockBusy | apps/api/src/recipes/recipes.service.ts:360-364 | an existing lock file makes the run fail at once, with no git command and the lock left in place |
| Service.LockBracketsGit | apps/api/src/recipes/recipes.service.ts:360-421 | a run does something exactly when it gets the lock; it takes the lock first and releases it last, and in between runs rev-parse, add, status, commit and push in that order, stopping early |
| Service.BlankStatusStops | apps/api/src/recipes/recipes.service.ts:374-385 | a status of only whitespace ends the run successfully before commit and push |
| Service.FullRun | apps/api/src/recipes/recipes.service.ts:363-408 | when nothing fails and status reports a change, all five commands run under the lock, with the recipe's commit message |
| Service.SafeTitle | apps/api/src/recipes/recipes.service.ts:387-389 | a missing or empty title gives "Untitled recipe"; any other title is normalised text with the same words |
| Service.CommitMessage | apps/api/src/recipes/recipes.service.ts:390 | the message is the prefix "chore: 🤖 add recipe: " followed by the safe title |
| Service.GitFailure | apps/api/src/recipes/recipes.service.ts:409-415 | the message starts with "⚠️ Failed to push recipe to git: " and continues with the error's message, or "Unknown git error" for a non-error |
| Service.Internal | apps/api/src/recipes/recipes.service.ts:56-66 | any thrown value becomes a 500, with the error's message or "Unknown error" |
| Service.CommitOutcome | apps/api/src/recipes/recipes.service.ts:349-422 | the run succeeds exactly when it is switched off, or gets the lock and every command it runs succeeds; every failure message starts with "Failed to push recipe to git" |
| Service.Summarize | apps/api/src/recipes/recipes.service.ts:126-177 | without a token it fails with "Replicate configuration missing"; a failed model run passes its error on; otherwise it succeeds exactly when recovery does, with recovery's value or error |
| Service.CommitPlan | apps/api/src/recipes/recipes.service.ts:349-422 | switched off, nothing happens; a commit runs only after rev-parse, add and status succeed and status prints something; a push runs only after a successful commit |
| Service.RunsOnlyPassed | apps/api/src/recipes/recipes.service.ts:363-408 | in the logged run, the commit appears only when the three earlier commands passed and status was not blank, and the push only after a passed commit |
| Service.World.OpenExclusive | apps/api/src/recipes/recipes.service.ts:364 | opening with `wx` fails with EEXIST on an existing file and otherwise creates it |
| Service.World.WriteFile | apps/api/src/recipes/recipes.service.ts:345 | a scripted failure is returned with nothing changed; otherwise the file holds the data and the write is logged |
| Service.World.Release | apps/api/src/recipes/recipes.service.ts:416-420 | the lock file is removed, whether or not it existed, and the release is logged |
| Service.World.Git | apps/api/src/recipes/recipes.service.ts:365-408 | the invocation is logged, its answer is the scripted one, and only the status query prints anything |
| Service.RecipesService.SaveMarkdown | apps/api/src/recipes/recipes.service.ts:332-346 | a missing root fails with "Missing repo root path"; otherwise the document is written at `<root>/apps/web/content/<slug>.md` and the slug and path are returned |
| Service.RecipesService.CommitAndPushRecipe | apps/api/src/recipes/recipes.service.ts:349-422 | the effects and outcome are those of `CommitPlan`; the files on disk are unchanged afterwards, so the lock is removed on every exit of a run that took it and never otherwise |
| Service.RecipesService.RunGit | apps/api/src/recipes/recipes.service.ts:363-408 | the git commands run in order up to the first failure, or up to status when it prints only whitespace |
| Service.RecipesService.Publish | apps/api/src/recipes/recipes.service.ts:392-408 | push runs only after a successful commit |
| Service.RecipesService.CreateRecipe | apps/api/src/recipes/recipes.service.ts:35-67 | an empty URL gives 400 before any effect; fetch, summarize, render, save and commit run in order; any failure becomes a 500 with the thrown message, or "Unknown error"; the document is saved before the commit, stays saved when the commit fails, and the raw title names both the file and the commit |

## Left out

- `parseHTML`: the DOM library and the page fetch are not modelled. The fetch outcome is a parameter, and the page text only feeds the prompt.
- The prompt and the language model: the model run's result or thrown value is a parameter.
- `JSON.parse` and `JSON.stringify` are parameters or opaque text. That `JSON.parse("")` fails, when the last `}` precedes the first `{`, is the parser's own behaviour and is not stated.
- Model outputs are a string, an array of string fragments, or a value whose `JSON.stringify` text is a string. An `undefined` output is not modelled: `JSON.stringify(undefined)` is `undefined`, so `raw.indexOf` throws a `TypeError` and `createRecipe` answers 500 with the engine's message. Non-string array fragments are not modelled either: `join('')` renders `null` and `undefined` as "" and an object as "[object Object]".
- Non-string values of any kind, in recipe fields and in ingredient objects, are not modelled: numbers and booleans (`{"quantity": 200}` gives "200" through `String`), arrays (`String(["a","b"])` is "a,b") and objects. Each such field is a string or missing. Missing fields and `null` are `None`.
- `path.join` normalisation (`..`, doubled or trailing separators) is not modelled. Paths are joined with one `/`, which agrees for a root without a trailing slash.
- The file system and git are the `World` object with scripted failures. `lockHandle.close()` is taken to succeed, and a failing `unlink` is ignored as in the code.
- Concurrency: two requests interleaving between awaits are not modelled. The lock is modelled as a file that either exists or does not when a run starts.
- The git subprocess environment variables (author, committer, SSH command) are not modelled.
- Strings are sequences of Unicode scalar values, not UTF-16 code units. This matters only for the length of the emoji in the commit message.
- `toLowerCase` and `normalize('NFD')` are tabulated for ASCII and Latin-1 plus Ÿ. Other characters are left unchanged.
- `Durations.NormalizeNumberValue`: `parseFloat` and `Math.round` are taken on exact rationals. The `Number.isNaN` branches cannot be reached for matched numerals and are not modelled. Floating-point rounding of very long numerals is not modelled.
- `Service.World.OpenExclusive`: the EEXIST message is Node's wording. Other open failures (for example, no `.git` directory) are one scripted error.
- The byte-exact document for a sample recipe is not stated as a lemma. The round trip through `Markdown.Decode` states the layout instead.
- The controller, the application bootstrap and the web front end are not part of this model.
