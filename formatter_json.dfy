/** The JSON serialiser (FormatJSON in cmd/quotes/formatter.go): the layout that
    `json.MarshalIndent(quotes, "", "  ")` gives a list of quotes, with string
    escaping left abstract, and a decoder of that layout for the round trip. */
module FormatterJson {
  import opened Results
  import opened Types

  // ------------------------------------------------------ string literals

  /** A JSON string-literal body whose closing quote a scanner can find
      (section 7 of RFC 8259): every `"` and every `\` in it is part of a
      backslash escape. */
  predicate LiteralBody(e: string)
    decreases |e|
  {
    if e == [] then true
    else if e[0] == '\\' then |e| >= 2 && LiteralBody(e[2..])
    else e[0] != '"' && LiteralBody(e[1..])
  }

  /** The offset of the quote that closes a string literal whose body starts at
      the beginning of `t`, skipping backslash escapes. */
  function LiteralEnd(t: string): (r: Option<nat>)
    ensures r.Some? ==> r.value < |t| && t[r.value] == '"'
    decreases |t|
  {
    if t == [] then None
    else if t[0] == '"' then Some(0)
    else if t[0] == '\\' then
      if |t| < 2 then None
      else match LiteralEnd(t[2..])
        case None => None
        case Some(n) => Some(n + 2)
    else match LiteralEnd(t[1..])
      case None => None
      case Some(n) => Some(n + 1)
  }

  /** The scanner stops exactly at the quote that follows a well-formed body. */
  lemma {:induction false} LiteralEndAfterBody(e: string, rest: string)
    requires LiteralBody(e) && rest != [] && rest[0] == '"'
    ensures LiteralEnd(e + rest) == Some(|e|)
    decreases |e|
  {
    if e == [] {
      assert e + rest == rest;
    } else if e[0] == '\\' {
      assert (e + rest)[2..] == e[2..] + rest;
      LiteralEndAfterBody(e[2..], rest);
    } else {
      assert (e + rest)[1..] == e[1..] + rest;
      LiteralEndAfterBody(e[1..], rest);
    }
  }

  /** What the round trip needs of `encoding/json`'s string escaping: escaped
      text is a well-formed literal body and unescaping gives the text back. */
  ghost predicate EscaperValid(escape: string -> string, unescape: string -> string) {
    forall s :: LiteralBody(escape(s)) && unescape(escape(s)) == s
  }

  // ---------------------------------------------------------------- layout

  /** The fixed text around the two fields of one object: `open` up to the
      Text value's opening quote, `separator` from its closing quote to the
      Author value's opening quote, `close` from there to the closing brace. */
  datatype ObjectLayout = ObjectLayout(open: string, separator: string, close: string)

  /** One quote at nesting depth one: fields `Text` and `Author` (Go's field
      names), each on its own line at depth two, a space after each colon. */
  const INDENTED: ObjectLayout :=
    ObjectLayout("  {\n    \"Text\": \"", "\",\n    \"Author\": \"", "\"\n  }")

  /** The layouts a decoder can read back: each field value is followed by a
      closing quote. */
  predicate QuoteDelimited(l: ObjectLayout) {
    l.separator != [] && l.separator[0] == '"' && l.close != [] && l.close[0] == '"'
  }

  function JsonObject(escape: string -> string, l: ObjectLayout, q: Quote): string {
    l.open + escape(q.text) + l.separator + escape(q.author) + l.close
  }

  /** The objects separated by `",\n"`, then the closing line `"\n]"`. */
  function JsonElements(escape: string -> string, l: ObjectLayout, qs: seq<Quote>): string
    requires qs != []
    decreases |qs|
  {
    JsonObject(escape, l, qs[0]) + (if |qs| == 1 then "\n]" else ",\n" + JsonElements(escape, l, qs[1..]))
  }

  /** FormatJSON: a nil or empty list is `[]`; otherwise an indented array that
      opens with `"[\n"` and closes with `"\n]"`, with no trailing newline. */
  function FormatJSON(escape: string -> string, quotes: seq<Quote>): (r: string)
    ensures quotes == [] <==> r == "[]"
    ensures quotes != [] ==> |r| >= 4 && r[..2] == "[\n" && r[|r| - 2..] == "\n]"
  {
    if quotes == [] then "[]"
    else
      var elements := JsonElements(escape, INDENTED, quotes);
      JsonElementsEnd(escape, INDENTED, quotes);
      assert ("[\n" + elements)[|elements|..] == elements[|elements| - 2..];
      "[\n" + elements
  }

  /** The test suite's quote as one object, for an escaper that leaves plain
      words alone: two-space indentation per level, the field names `Text` and
      `Author`, a space after each colon. */
  lemma JsonObjectExample(escape: string -> string)
    requires escape("Be") == "Be" && escape("Gandhi") == "Gandhi"
    ensures JsonObject(escape, INDENTED, Quote("Be", "Gandhi"))
         == "  {\n    \"Text\": \"Be\",\n    \"Author\": \"Gandhi\"\n  }"
  {
    var s1 := INDENTED.open + "Be";
    assert s1 == "  {\n    \"Text\": \"Be";
    var s2 := s1 + INDENTED.separator;
    assert s2 == "  {\n    \"Text\": \"Be\",\n    \"Author\": \"";
    var s3 := s2 + "Gandhi";
    assert s3 == "  {\n    \"Text\": \"Be\",\n    \"Author\": \"Gandhi";
    assert s3 + INDENTED.close == "  {\n    \"Text\": \"Be\",\n    \"Author\": \"Gandhi\"\n  }";
  }

  /** The one-quote list: the object between `"[\n"` and `"\n]"`, with no
      trailing newline. */
  lemma FormatJSONSingle(escape: string -> string, q: Quote)
    ensures FormatJSON(escape, [q]) == "[\n" + JsonObject(escape, INDENTED, q) + "\n]"
  {
  }

  lemma {:induction false} JsonElementsEnd(escape: string -> string, l: ObjectLayout, qs: seq<Quote>)
    requires qs != []
    ensures |JsonElements(escape, l, qs)| >= 2
    ensures JsonElements(escape, l, qs)[|JsonElements(escape, l, qs)| - 2..] == "\n]"
    decreases |qs|
  {
    if |qs| > 1 {
      JsonElementsEnd(escape, l, qs[1..]);
    }
  }

  // --------------------------------------------------------------- decoder

  predicate StartsWith(t: string, p: string) {
    |p| <= |t| && t[..|p|] == p
  }

  /** Reads `lead` and then a literal body up to its closing quote: the
      unescaped text, and the input from that closing quote on. */
  function DecodeField(unescape: string -> string, lead: string, t: string): (r: Option<(string, string)>)
    ensures r.Some? ==> |lead| + |r.value.1| <= |t|
  {
    if !StartsWith(t, lead) then None
    else
      var body := t[|lead|..];
      match LiteralEnd(body)
      case None => None
      case Some(n) => Some((unescape(body[..n]), body[n..]))
  }

  /** Reads one object laid out as `l`: the quote and the input after it. */
  function DecodeObject(unescape: string -> string, l: ObjectLayout, t: string): (r: Option<(Quote, string)>)
    ensures r.Some? ==> |r.value.1| <= |t|
  {
    match DecodeField(unescape, l.open, t)
    case None => None
    case Some((text, afterText)) =>
      match DecodeField(unescape, l.separator, afterText)
      case None => None
      case Some((author, afterAuthor)) =>
        if !StartsWith(afterAuthor, l.close) then None
        else Some((Quote(text, author), afterAuthor[|l.close|..]))
  }

  /** Reads objects up to the closing `"\n]"`, which must end the input. */
  function DecodeElements(unescape: string -> string, l: ObjectLayout, t: string): Option<seq<Quote>>
    decreases |t|
  {
    match DecodeObject(unescape, l, t)
    case None => None
    case Some((q, rest)) =>
      if rest == "\n]" then Some([q])
      else if StartsWith(rest, ",\n") then
        match DecodeElements(unescape, l, rest[2..])
        case None => None
        case Some(qs) => Some([q] + qs)
      else None
  }

  /** Decodes text in the layout FormatJSON writes. */
  function DecodeJSON(unescape: string -> string, s: string): Option<seq<Quote>> {
    if s == "[]" then Some([])
    else if StartsWith(s, "[\n") then DecodeElements(unescape, INDENTED, s[2..])
    else None
  }

  // ------------------------------------------------------------ round trip

  lemma SplitAt(a: string, b: string)
    ensures (a + b)[..|a|] == a && (a + b)[|a|..] == b
  {
  }

  /** A field after `lead` whose body is well formed decodes to the unescaped
      body, and the decoder resumes at the quote that closes it. */
  lemma DecodeFieldAt(unescape: string -> string, lead: string, t: string, body: string, after: string)
    requires LiteralBody(body) && after != [] && after[0] == '"' && t == lead + (body + after)
    ensures DecodeField(unescape, lead, t) == Some((unescape(body), after))
  {
    SplitAt(lead, body + after);
    LiteralEndAfterBody(body, after);
    SplitAt(body, after);
  }

  /** Both fields of an object in a quote-delimited layout decode. */
  lemma DecodeObjectFields(unescape: string -> string, l: ObjectLayout, t: string, e1: string, e2: string,
                           afterText: string, afterAuthor: string, rest: string)
    requires QuoteDelimited(l) && LiteralBody(e1) && LiteralBody(e2)
    requires afterAuthor == l.close + rest
    requires afterText == l.separator + (e2 + afterAuthor)
    requires t == l.open + (e1 + afterText)
    ensures DecodeField(unescape, l.open, t) == Some((unescape(e1), afterText))
    ensures DecodeField(unescape, l.separator, afterText) == Some((unescape(e2), afterAuthor))
  {
    DecodeFieldAt(unescape, l.open, t, e1, afterText);
    DecodeFieldAt(unescape, l.separator, afterText, e2, afterAuthor);
  }

  /** DecodeObject succeeds when both fields do and the closing text follows. */
  lemma DecodeObjectSteps(unescape: string -> string, l: ObjectLayout, t: string, text: string, afterText: string,
                          author: string, afterAuthor: string, rest: string)
    requires DecodeField(unescape, l.open, t) == Some((text, afterText))
    requires DecodeField(unescape, l.separator, afterText) == Some((author, afterAuthor))
    requires afterAuthor == l.close + rest
    ensures DecodeObject(unescape, l, t) == Some((Quote(text, author), rest))
  {
    SplitAt(l.close, rest);
  }

  /** Two well-formed literal bodies in the layout decode to their texts. */
  lemma DecodeObjectOfBodies(unescape: string -> string, l: ObjectLayout, t: string, e1: string, e2: string, rest: string)
    requires QuoteDelimited(l) && LiteralBody(e1) && LiteralBody(e2)
    requires t == l.open + (e1 + (l.separator + (e2 + (l.close + rest))))
    ensures DecodeObject(unescape, l, t) == Some((Quote(unescape(e1), unescape(e2)), rest))
  {
    var afterAuthor := l.close + rest;
    var afterText := l.separator + (e2 + afterAuthor);
    DecodeObjectFields(unescape, l, t, e1, e2, afterText, afterAuthor, rest);
    DecodeObjectSteps(unescape, l, t, unescape(e1), afterText, unescape(e2), afterAuthor, rest);
  }

  /** An object followed by anything decodes to its quote, and the decoder
      resumes where the object ends. */
  lemma DecodeObjectOf(escape: string -> string, unescape: string -> string, l: ObjectLayout, q: Quote, rest: string)
    requires EscaperValid(escape, unescape) && QuoteDelimited(l)
    ensures DecodeObject(unescape, l, JsonObject(escape, l, q) + rest) == Some((q, rest))
  {
    var e1, e2 := escape(q.text), escape(q.author);
    assert LiteralBody(e1) && unescape(e1) == q.text;
    assert LiteralBody(e2) && unescape(e2) == q.author;
    var t := JsonObject(escape, l, q) + rest;
    assert t == l.open + (e1 + (l.separator + (e2 + (l.close + rest))));
    DecodeObjectOfBodies(unescape, l, t, e1, e2, rest);
  }

  /** DecodeElements reads an object and then either the end of the list or a
      separator and more elements. */
  lemma DecodeElementsSteps(unescape: string -> string, l: ObjectLayout, t: string, q: Quote, rest: string, more: string, qs: seq<Quote>)
    requires DecodeObject(unescape, l, t) == Some((q, rest))
    requires rest == "\n]" || (rest == ",\n" + more && DecodeElements(unescape, l, more) == Some(qs))
    ensures DecodeElements(unescape, l, t) == Some(if rest == "\n]" then [q] else [q] + qs)
  {
    if rest != "\n]" {
      SplitAt(",\n", more);
    }
  }

  /** An object followed by the closing line or by the separator and a list
      that decodes. */
  lemma DecodeElementsHead(escape: string -> string, unescape: string -> string, l: ObjectLayout, t: string, q: Quote,
                           tail: string, more: string, qs: seq<Quote>)
    requires EscaperValid(escape, unescape) && QuoteDelimited(l) && t == JsonObject(escape, l, q) + tail
    requires tail == "\n]" || (tail == ",\n" + more && DecodeElements(unescape, l, more) == Some(qs))
    ensures DecodeElements(unescape, l, t) == Some(if tail == "\n]" then [q] else [q] + qs)
  {
    DecodeObjectOf(escape, unescape, l, q, tail);
    DecodeElementsSteps(unescape, l, t, q, tail, more, qs);
  }

  /** A one-element list decodes. */
  lemma DecodeElementsLast(escape: string -> string, unescape: string -> string, l: ObjectLayout, qs: seq<Quote>)
    requires EscaperValid(escape, unescape) && QuoteDelimited(l) && |qs| == 1
    ensures DecodeElements(unescape, l, JsonElements(escape, l, qs)) == Some(qs)
  {
    DecodeElementsHead(escape, unescape, l, JsonElements(escape, l, qs), qs[0], "\n]", "", []);
    assert qs == [qs[0]];
  }

  /** A longer list decodes if its tail past the first object does. */
  lemma DecodeElementsCons(escape: string -> string, unescape: string -> string, l: ObjectLayout, qs: seq<Quote>)
    requires EscaperValid(escape, unescape) && QuoteDelimited(l) && |qs| > 1
    requires DecodeElements(unescape, l, JsonElements(escape, l, qs[1..])) == Some(qs[1..])
    ensures DecodeElements(unescape, l, JsonElements(escape, l, qs)) == Some(qs)
  {
    var more := JsonElements(escape, l, qs[1..]);
    DecodeElementsHead(escape, unescape, l, JsonElements(escape, l, qs), qs[0], ",\n" + more, more, qs[1..]);
    assert [qs[0]] + qs[1..] == qs;
  }

  lemma {:induction false} DecodeElementsOf(escape: string -> string, unescape: string -> string, l: ObjectLayout, qs: seq<Quote>)
    requires EscaperValid(escape, unescape) && QuoteDelimited(l) && qs != []
    ensures DecodeElements(unescape, l, JsonElements(escape, l, qs)) == Some(qs)
    decreases |qs|
  {
    if |qs| == 1 {
      DecodeElementsLast(escape, unescape, l, qs);
    } else {
      DecodeElementsOf(escape, unescape, l, qs[1..]);
      DecodeElementsCons(escape, unescape, l, qs);
    }
  }

  /** Decoding the output of FormatJSON gives back the quotes: the same length,
      the same order and the same text and author in each. */
  lemma JsonRoundTrip(escape: string -> string, unescape: string -> string, quotes: seq<Quote>)
    requires EscaperValid(escape, unescape)
    ensures DecodeJSON(unescape, FormatJSON(escape, quotes)) == Some(quotes)
  {
    if quotes != [] {
      var s := FormatJSON(escape, quotes);
      assert StartsWith(s, "[\n") && s[2..] == JsonElements(escape, INDENTED, quotes);
      DecodeElementsOf(escape, unescape, INDENTED, quotes);
    }
  }

  // ------------------------------------------- a witness for the hypothesis

  /** A minimal escaper: a backslash before every `"` and `\`. It is not Go's
      escaper; it shows that EscaperValid can be met. */
  function BackslashEscape(s: string): string
    decreases |s|
  {
    if s == [] then ""
    else (if s[0] == '"' || s[0] == '\\' then ['\\', s[0]] else [s[0]]) + BackslashEscape(s[1..])
  }

  function BackslashUnescape(e: string): string
    decreases |e|
  {
    if e == [] then ""
    else if e[0] == '\\' && |e| >= 2 then [e[1]] + BackslashUnescape(e[2..])
    else [e[0]] + BackslashUnescape(e[1..])
  }

  lemma {:induction false} BackslashRoundTrip(s: string)
    ensures LiteralBody(BackslashEscape(s)) && BackslashUnescape(BackslashEscape(s)) == s
    decreases |s|
  {
    if s != [] {
      BackslashRoundTrip(s[1..]);
      var e := BackslashEscape(s);
      var rest := BackslashEscape(s[1..]);
      if s[0] == '"' || s[0] == '\\' {
        assert e == ['\\', s[0]] + rest && e[2..] == rest;
      } else {
        assert e == [s[0]] + rest && e[1..] == rest;
      }
      assert s == [s[0]] + s[1..];
    }
  }

  lemma BackslashEscaperValid()
    ensures EscaperValid(BackslashEscape, BackslashUnescape)
  {
    forall s: string
      ensures LiteralBody(BackslashEscape(s)) && BackslashUnescape(BackslashEscape(s)) == s
    {
      BackslashRoundTrip(s);
    }
  }
}
