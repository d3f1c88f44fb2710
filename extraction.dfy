/**
 * The defensive JSON recovery at the end of `summarize`
 * (recipes.service.ts): the model's output is flattened to text, the span
 * from the first `{` to the last `}` is cut out and handed to the JSON
 * parser. The parser is a parameter: any partial function from text to a
 * value or an error message.
 */
module Extraction {
  import opened Wrappers

  /**
   * What the model run returns: a string, an array of string fragments, or
   * any other value, given here by its `JSON.stringify` text.
   */
  datatype ModelOutput = Text(text: string) | Fragments(parts: seq<string>) | Value(json: string)

  /** `parts.join('')` */
  function Concat(parts: seq<string>): string {
    if parts == [] then "" else parts[0] + Concat(parts[1..])
  }

  /**
   * The output as one string: a string as it is, an array with its
   * fragments joined with no separator, anything else as its JSON text.
   */
  function RawText(output: ModelOutput): (r: string)
    ensures output.Text? ==> r == output.text
    ensures output.Value? ==> r == output.json
    ensures output.Fragments? && output.parts != [] ==> output.parts[0] <= r
  {
    match output
    case Fragments(parts) =>
      if parts == [] then "" else
        assert (parts[0] + Concat(parts[1..]))[..|parts[0]|] == parts[0];
        Concat(parts)
    case Text(text) => text
    case Value(json) => json
  }

  /** Joining keeps every fragment whole, in its place between those before and after it. */
  lemma {:induction false} ConcatKeepsFragments(parts: seq<string>, i: nat)
    requires i < |parts|
    ensures Concat(parts) == Concat(parts[..i]) + parts[i] + Concat(parts[i + 1..])
    decreases i
  {
    if i > 0 {
      ConcatKeepsFragments(parts[1..], i - 1);
      assert parts[1..][..i - 1] == parts[1..i];
      assert parts[1..][i - 1 + 1..] == parts[i + 1..];
      assert parts[..i] == [parts[0]] + parts[1..i];
      assert Concat(parts[..i]) == parts[0] + Concat(parts[1..i]);
    } else {
      assert parts[..0] == [];
      assert parts[1..] == parts[i + 1..];
    }
  }

  /** `s.indexOf(c)` */
  function IndexOf(s: string, c: char): (r: int)
    ensures -1 <= r < |s|
    ensures r == -1 <==> c !in s
    ensures r >= 0 ==> s[r] == c && c !in s[..r]
  {
    if s == [] then -1
    else if s[0] == c then 0
    else
      var k := IndexOf(s[1..], c);
      assert s == [s[0]] + s[1..];
      assert k >= 0 ==> s[..k + 1] == [s[0]] + s[1..][..k];
      if k == -1 then -1 else k + 1
  }

  /** `s.lastIndexOf(c)` */
  function LastIndexOf(s: string, c: char): (r: int)
    ensures -1 <= r < |s|
    ensures r == -1 <==> c !in s
    ensures r >= 0 ==> s[r] == c && c !in s[r + 1..]
  {
    if s == [] then -1
    else if s[|s| - 1] == c then |s| - 1
    else
      var init := s[..|s| - 1];
      var k := LastIndexOf(init, c);
      assert s == init + [s[|s| - 1]];
      assert k >= 0 ==> s[k + 1..] == init[k + 1..] + [s[|s| - 1]];
      k
  }

  /** `s.slice(start, end)` for `0 <= start` and `end <= |s|`: empty when `end <= start`. */
  function Slice(s: string, start: nat, end: nat): string
    requires start <= |s| && end <= |s|
  {
    if start < end then s[start..end] else ""
  }

  const NoJson := "⚠️ No JSON detected from Replicate"
  const ParseFailed := "⚠️ Failed to parse Replicate JSON: "

  /** The text handed to the parser, or the error when a brace is missing. */
  function JsonSpan(raw: string): (r: Result<string, string>)
    ensures r.Failure? <==> '{' !in raw || '}' !in raw
    ensures r.Failure? ==> r.error == NoJson
  {
    var start := IndexOf(raw, '{');
    var end := LastIndexOf(raw, '}');
    if start == -1 || end == -1 then Failure(NoJson)
    else Success(Slice(raw, start, end + 1))
  }

  /**
   * The recovery: the span parsed, or one of the two error messages. A missing
   * brace gives the no-JSON message; otherwise the parser's verdict on the
   * span decides, a rejection reported with its message prefixed.
   */
  function Recover<T>(raw: string, parse: string -> Result<T, string>): (r: Result<T, string>)
    ensures JsonSpan(raw).Failure? ==> r == Failure(NoJson)
    ensures JsonSpan(raw).Success? && parse(JsonSpan(raw).value).Success? ==>
              r == parse(JsonSpan(raw).value)
    ensures JsonSpan(raw).Success? && parse(JsonSpan(raw).value).Failure? ==>
              r == Failure(ParseFailed + parse(JsonSpan(raw).value).error)
    ensures r.Success? ==> '{' in raw && '}' in raw
  {
    match JsonSpan(raw)
    case Failure(e) => Failure(e)
    case Success(span) =>
      match parse(span)
      case Success(v) => Success(v)
      case Failure(msg) => Failure(ParseFailed + msg)
  }

  // ---------------------------------------------------------------------
  // Lemmas

  /**
   * With both braces present the parser gets the text from the first `{` to
   * the last `}`, both included, or the empty text when that `}` comes first.
   */
  lemma {:induction false} SpanBounds(raw: string)
    requires '{' in raw && '}' in raw
    ensures var a := IndexOf(raw, '{');
            var b := LastIndexOf(raw, '}');
            && 0 <= a && 0 <= b
            && '{' !in raw[..a] && '}' !in raw[b + 1..]
            && JsonSpan(raw) == Success(if a <= b then raw[a..b + 1] else "")
  {
  }

  /** A recovered span is empty, or starts with `{` and ends with `}`. */
  lemma {:induction false} SpanIsBraced(raw: string)
    requires JsonSpan(raw).Success?
    ensures var span := JsonSpan(raw).value;
            span == "" || (span[0] == '{' && span[|span| - 1] == '}')
  {
    var a := IndexOf(raw, '{');
    var b := LastIndexOf(raw, '}');
    if a <= b {
      assert raw[a..b + 1][0] == raw[a];
      assert raw[a..b + 1][b - a] == raw[b];
    }
  }

  /**
   * An object embedded in chatter is recovered exactly, provided the text
   * before it has no `{` and the text after it has no `}`.
   */
  lemma {:induction false} EmbeddedObject(pre: string, obj: string, post: string)
    requires '{' !in pre && '}' !in post
    requires obj != [] && obj[0] == '{' && obj[|obj| - 1] == '}'
    ensures JsonSpan(pre + obj + post) == Success(obj)
  {
    var raw := pre + obj + post;
    var a := IndexOf(raw, '{');
    var b := LastIndexOf(raw, '}');
    assert raw[|pre|] == '{' && raw[|pre| + |obj| - 1] == '}';
    assert raw[..|pre|] == pre;
    assert raw[|pre| + |obj|..] == post;
    assert raw[|pre|..|pre| + |obj|] == obj;
  }
}
