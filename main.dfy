/** The command's logic (runQuotes and isValidFormat in cmd/quotes/main.go):
    flag validation, seed derivation, the selection loop and the dispatch to a
    formatter. Flag parsing, the clock and the loader's I/O are inputs. */
module Command {
  import opened Results
  import opened GoInt
  import opened Strings
  import opened Types
  import Decimal
  import Formatter
  import FormatterJson
  import Loader

  // ------------------------------------------------------------ validation

  /** The formats the `--format` flag accepts, compared byte for byte: only
      the three lower-case names pass. */
  predicate IsValidFormat(format: string): (valid: bool)
    ensures valid ==> 4 <= |format| <= 8 && forall i :: 0 <= i < |format| ==> 'a' <= format[i] <= 'z'
  {
    format == "text" || format == "json" || format == "markdown"
  }

  /** The three names pass; other formats, names in another case and the
      empty string are rejected. */
  lemma IsValidFormatCases()
    ensures IsValidFormat("text") && IsValidFormat("json") && IsValidFormat("markdown")
    ensures !IsValidFormat("xml") && !IsValidFormat("yaml") && !IsValidFormat("csv") && !IsValidFormat("html")
    ensures !IsValidFormat("") && !IsValidFormat("Text") && !IsValidFormat("JSON") && !IsValidFormat("Markdown")
  {
  }

  const MIN_COUNT: Int64 := 1
  const MAX_COUNT: Int64 := 100

  /** The two errors runQuotes returns before printing anything. */
  datatype CliError = InvalidFormat(format: string) | InvalidCount(count: Int64) {
    /** The text `fmt.Errorf` builds. */
    function Message(): (m: string)
      ensures InvalidFormat? ==> var names := " (must be one of: text, json, markdown)";
                |m| >= |names| && m[|m| - |names|..] == names
      ensures InvalidCount? ==> OccursAt(m, "count must be 1-100, got ", 0) && |m| > |"count must be 1-100, got "|
      ensures InvalidCount? ==> m[|"count must be 1-100, got "|..] == Decimal.FromInt(count as int)
    {
      match this
      case InvalidFormat(f) => "invalid format: " + f + " (must be one of: text, json, markdown)"
      case InvalidCount(c) => "count must be 1-100, got " + Decimal.FromInt(c as int)
    }
  }

  /** An invalid format is reported with "invalid format" and names the
      format; an invalid count message ends in the count written in decimal. */
  lemma MessageContents(e: CliError)
    ensures e.InvalidFormat? ==>
              OccursAt(e.Message(), "invalid format", 0) && OccursAt(e.Message(), e.format, |"invalid format: "|)
    ensures e.InvalidCount? ==> OccursAt(e.Message(), "count must be 1-100", 0)
    ensures e.InvalidCount? && e.count >= 0 ==>
              var digits := e.Message()[|"count must be 1-100, got "|..];
              Decimal.AllDigits(digits) && Decimal.ToNat(digits) == e.count as int
    ensures e.InvalidCount? && e.count < 0 ==>
              var digits := e.Message()[|"count must be 1-100, got -"|..];
              Decimal.AllDigits(digits) && Decimal.ToNat(digits) == -(e.count as int)
    ensures e.InvalidCount? && e.count < 0 ==> e.Message()[|"count must be 1-100, got "|] == '-'
    ensures e.InvalidCount? && e.count != 0 ==>
              e.Message()[|"count must be 1-100, got "| + (if e.count < 0 then 1 else 0)] != '0'
    ensures e.InvalidCount? && e.count == 0 ==> e.Message() == "count must be 1-100, got 0"
  {
    match e
    case InvalidFormat(f) =>
      var m := e.Message();
      assert m == "invalid format: " + f + " (must be one of: text, json, markdown)";
      assert m[..|"invalid format"|] == "invalid format";
      assert m[|"invalid format: "|..|"invalid format: "| + |f|] == f;
    case InvalidCount(c) =>
      var prefix := "count must be 1-100, got ";
      var m := e.Message();
      var d := Decimal.FromInt(c as int);
      assert m == prefix + d;
      assert m[..|"count must be 1-100"|] == "count must be 1-100";
      assert m[|prefix|..] == d;
      if c < 0 {
        assert m[|prefix| + 1..] == d[1..];
      }
  }

  /** The format is checked first, then the inclusive count range [1, 100]. */
  function Validate(format: string, count: Int64): (r: Option<CliError>)
    ensures r.None? <==> IsValidFormat(format) && MIN_COUNT <= count <= MAX_COUNT
    ensures !IsValidFormat(format) ==> r == Some(InvalidFormat(format))
    ensures IsValidFormat(format) && r.Some? ==> r == Some(InvalidCount(count))
  {
    if !IsValidFormat(format) then Some(InvalidFormat(format))
    else if count < MIN_COUNT || count > MAX_COUNT then Some(InvalidCount(count))
    else None
  }

  // ------------------------------------------------------------- selection

  /** A seed of 0 means "use the clock". */
  function BaseSeed(seed: Int64, now: Int64): (base: Int64)
    ensures base == seed || base == now
    ensures seed != 0 ==> base == seed
    ensures base == 0 ==> seed == 0 && now == 0
  {
    if seed == 0 then now else seed
  }

  /** The first `n` selections, the i-th drawn with the seed `base + i` in
      int64 arithmetic; the error SelectRandom may return is dropped. */
  function Selections(intn: Generator, store: seq<Quote>, base: Int64, n: nat): (r: seq<Quote>)
    requires n <= TWO_63
    ensures |r| == n
    ensures forall i :: 0 <= i < n ==> r[i] == SelectRandom(intn, store, WrapAdd(base, i as Int64)).quote
    decreases n
  {
    if n == 0 then []
    else Selections(intn, store, base, n - 1) + [SelectRandom(intn, store, WrapAdd(base, (n - 1) as Int64)).quote]
  }

  /** The selection loop: `count` appends, one per seed `base + i`. */
  method SelectQuotes(intn: Generator, store: seq<Quote>, base: Int64, count: Int64) returns (selected: seq<Quote>)
    requires count >= 0
    ensures selected == Selections(intn, store, base, count as nat)
  {
    selected := [];
    var i: Int64 := 0;
    while i < count
      invariant 0 <= i <= count
      invariant selected == Selections(intn, store, base, i as nat)
      decreases count as int - i as int
    {
      var s := SelectRandom(intn, store, WrapAdd(base, i));
      selected := selected + [s.quote];
      i := i + 1;
    }
  }

  /** With a non-empty store every selection comes from it and the discarded
      error is always nil. */
  lemma SelectionsFromStore(intn: Generator, store: seq<Quote>, base: Int64, n: nat)
    requires n <= TWO_63 && store != []
    ensures forall seed: Int64 :: SelectRandom(intn, store, seed).err.None?
    ensures forall q :: q in Selections(intn, store, base, n) ==> q in store
  {
    var r := Selections(intn, store, base, n);
    forall q | q in r
      ensures q in store
    {
      var i :| 0 <= i < |r| && r[i] == q;
      assert SelectRandom(intn, store, WrapAdd(base, i as Int64)).quote in store;
    }
  }

  /** With an empty store every selection is the zero quote. */
  lemma SelectionsEmptyStore(intn: Generator, base: Int64, n: nat)
    requires n <= TWO_63
    ensures Selections(intn, [], base, n) == seq(n, _ => ZERO_QUOTE)
  {
    var r := Selections(intn, [], base, n);
    assert forall i :: 0 <= i < n ==> r[i] == ZERO_QUOTE;
  }

  // -------------------------------------------------------------- dispatch

  /** `"json"` and `"markdown"` pick their formatter; anything else is text. */
  function Render(format: string, escape: string -> string, selected: seq<Quote>): (r: string)
    ensures format != "json" && format != "markdown" ==> r == Formatter.TextOf(selected)
    ensures format == "json" ==> |r| >= 2 && r[0] == '['
    ensures format == "markdown" && selected != [] ==> |r| > 0 && r[0] == '>'
    ensures r == "" <==> selected == [] && format != "json"
  {
    if format == "json" then FormatterJson.FormatJSON(escape, selected)
    else if format == "markdown" then
      var blocks := Formatter.MarkdownBlocks(selected);
      assert selected != [] ==> Concat(blocks) == blocks[0] + Concat(blocks[1..]);
      Formatter.MarkdownOf(selected)
    else
      var entries := Formatter.TextEntries(selected, |selected| > 1);
      assert selected != [] ==> Concat(entries) == entries[0] + Concat(entries[1..]);
      Formatter.TextOf(selected)
  }

  /** runQuotes as a value: the error, or the text it prints. */
  function Run(format: string, count: Int64, seed: Int64, now: Int64, store: seq<Quote>,
               intn: Generator, escape: string -> string): (r: Result<string, CliError>)
    ensures r.Err? <==> Validate(format, count).Some?
    ensures r.Err? ==> r.error == Validate(format, count).value
  {
    match Validate(format, count)
    case Some(e) => Err(e)
    case None => Ok(Render(format, escape, Selections(intn, store, BaseSeed(seed, now), count as nat)))
  }

  /** An invalid format is reported whatever the count; counts 1 and 100 pass,
      0, 101 and -1 do not. */
  lemma RunValidation(count: Int64, seed: Int64, now: Int64, store: seq<Quote>, intn: Generator, escape: string -> string)
    ensures forall f :: !IsValidFormat(f) ==> Run(f, count, seed, now, store, intn, escape) == Err(InvalidFormat(f))
    ensures Run("text", 1, seed, now, store, intn, escape).Ok? && Run("text", 100, seed, now, store, intn, escape).Ok?
    ensures Run("text", 0, seed, now, store, intn, escape) == Err(InvalidCount(0))
    ensures Run("json", 101, seed, now, store, intn, escape) == Err(InvalidCount(101))
    ensures Run("markdown", -1, seed, now, store, intn, escape) == Err(InvalidCount(-1))
  {
  }

  /** A non-zero seed is used as given, so the clock does not matter; a zero
      seed behaves as if the clock's value had been passed as the seed. */
  lemma RunSeed(format: string, count: Int64, seed: Int64, now: Int64, later: Int64, store: seq<Quote>,
                intn: Generator, escape: string -> string)
    ensures seed != 0 ==>
              Run(format, count, seed, now, store, intn, escape) == Run(format, count, seed, later, store, intn, escape)
    ensures now != 0 ==>
              Run(format, count, 0, now, store, intn, escape) == Run(format, count, now, later, store, intn, escape)
  {
  }

  /** The JSON output reads back as exactly `count` quotes, the i-th being the
      one SelectRandom draws with seed `base + i`, each one from the store when
      the store is non-empty. */
  lemma RunJson(count: Int64, seed: Int64, now: Int64, store: seq<Quote>, intn: Generator,
                escape: string -> string, unescape: string -> string)
    requires FormatterJson.EscaperValid(escape, unescape) && MIN_COUNT <= count <= MAX_COUNT
    ensures Run("json", count, seed, now, store, intn, escape).Ok?
    ensures var decoded := FormatterJson.DecodeJSON(unescape, Run("json", count, seed, now, store, intn, escape).value);
            decoded.Some? && |decoded.value| == count as int
            && (forall i :: 0 <= i < count as int ==>
                  decoded.value[i] == SelectRandom(intn, store, WrapAdd(BaseSeed(seed, now), i as Int64)).quote)
            && (store != [] ==> forall q :: q in decoded.value ==> q in store)
  {
    var selected := Selections(intn, store, BaseSeed(seed, now), count as nat);
    FormatterJson.JsonRoundTrip(escape, unescape, selected);
    if store != [] {
      SelectionsFromStore(intn, store, BaseSeed(seed, now), count as nat);
    }
  }

  /** One quote in text format from a one-quote store: the quote, its
      attribution and no ordinal, whatever the seed. */
  lemma RunSingleText(q: Quote, seed: Int64, now: Int64, intn: Generator, escape: string -> string)
    ensures Run("text", 1, seed, now, [q], intn, escape) == Ok(q.text + "\n   - " + q.author + "\n")
  {
    var selected := Selections(intn, [q], BaseSeed(seed, now), 1);
    assert selected == [q];
    Formatter.TextOfSingle(q);
  }

  /** Text output is one entry per selection, in order, each numbered exactly
      when more than one quote is asked for. */
  lemma RunText(count: Int64, seed: Int64, now: Int64, store: seq<Quote>, intn: Generator, escape: string -> string)
    requires MIN_COUNT <= count <= MAX_COUNT
    ensures Run("text", count, seed, now, store, intn, escape)
         == Ok(Concat(seq(count as int, (i: int) requires 0 <= i < count as int =>
                  Formatter.TextEntry(i, SelectRandom(intn, store, WrapAdd(BaseSeed(seed, now), i as Int64)).quote,
                                      count > 1))))
  {
    var selected := Selections(intn, store, BaseSeed(seed, now), count as nat);
    assert Formatter.TextEntries(selected, count > 1)
        == seq(count as int, (i: int) requires 0 <= i < count as int =>
             Formatter.TextEntry(i, SelectRandom(intn, store, WrapAdd(BaseSeed(seed, now), i as Int64)).quote,
                                 count > 1));
  }

  /** Markdown output is one block per selection, in order. */
  lemma RunMarkdown(count: Int64, seed: Int64, now: Int64, store: seq<Quote>, intn: Generator, escape: string -> string)
    requires MIN_COUNT <= count <= MAX_COUNT
    ensures Run("markdown", count, seed, now, store, intn, escape)
         == Ok(Concat(seq(count as int, (i: int) requires 0 <= i < count as int =>
                  Formatter.MarkdownBlock(SelectRandom(intn, store, WrapAdd(BaseSeed(seed, now), i as Int64)).quote))))
  {
    var selected := Selections(intn, store, BaseSeed(seed, now), count as nat);
    assert Formatter.MarkdownBlocks(selected)
        == seq(count as int, (i: int) requires 0 <= i < count as int =>
             Formatter.MarkdownBlock(SelectRandom(intn, store, WrapAdd(BaseSeed(seed, now), i as Int64)).quote));
  }

  // ------------------------------------------------------------ the command

  /** The package-level flag variables `format`, `count` and `seed`. */
  class Flags {
    var format: string
    var count: Int64
    var seed: Int64

    /** The flag defaults: text, one quote, seed 0. */
    constructor ()
      ensures format == "text" && count == 1 && seed == 0
    {
      format := "text";
      count := 1;
      seed := 0;
    }

    /** runQuotes: validates the flags, loads the store, replaces a zero seed
        by the clock (in the flag variable itself), selects and formats.
        `output` is what is printed: nothing when an error is returned. */
    method RunQuotes(now: Int64, home: Loader.HomeLookup, readFile: string -> Loader.ReadOutcome,
                     unmarshal: seq<bv8> -> Loader.ParseOutcome, defaults: seq<Quote>,
                     intn: Generator, escape: string -> string)
      returns (output: string, err: Option<CliError>)
      modifies this
      ensures format == old(format) && count == old(count)
      ensures var r := Run(old(format), old(count), old(seed), now,
                           Loader.LoadQuotes(home, readFile, unmarshal, defaults), intn, escape);
              (r.Ok? ==> err.None? && output == r.value) && (r.Err? ==> err == Some(r.error) && output == "")
      ensures seed == if Validate(old(format), old(count)).None? then BaseSeed(old(seed), now) else old(seed)
    {
      if !IsValidFormat(format) {
        return "", Some(InvalidFormat(format));
      }
      if count < 1 || count > 100 {
        return "", Some(InvalidCount(count));
      }
      var quotes := Loader.LoadQuotes(home, readFile, unmarshal, defaults);
      if seed == 0 {
        seed := now;
      }
      var selected := SelectQuotes(intn, quotes, seed, count);
      if format == "json" {
        output := FormatterJson.FormatJSON(escape, selected);
      } else if format == "markdown" {
        output := Formatter.FormatMarkdown(selected);
      } else {
        output := Formatter.FormatText(selected);
      }
      err := None;
    }
  }
}
