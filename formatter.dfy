/** The plain-text and Markdown serialisers (cmd/quotes/formatter.go). Each
    formatter is a method whose loop appends to a builder, specified by a
    function that joins one piece of text per quote. */
module Formatter {
  import opened Types
  import opened Strings
  import Decimal

  const EM_DASH: char := '\U{2014}'

  // ---------------------------------------------------------------- text

  /** `"%s\n   - %s\n"` of text and author. */
  function Attribution(q: Quote): string {
    q.text + "\n   - " + q.author + "\n"
  }

  /** `"%d. "` of a 1-based position. */
  function Ordinal(n: nat): string {
    Decimal.FromNat(n) + ". "
  }

  /** What iteration `i` writes: the ordinal `i + 1` only when numbering is on. */
  function TextEntry(i: nat, q: Quote, numbered: bool): string {
    (if numbered then Ordinal(i + 1) else "") + Attribution(q)
  }

  function TextEntries(qs: seq<Quote>, numbered: bool): seq<string> {
    seq(|qs|, i requires 0 <= i < |qs| => TextEntry(i, qs[i], numbered))
  }

  /** The text rendering: entries in order, numbered exactly when there is more
      than one quote. */
  function TextOf(qs: seq<Quote>): string {
    Concat(TextEntries(qs, |qs| > 1))
  }

  method FormatText(quotes: seq<Quote>) returns (s: string)
    ensures s == TextOf(quotes)
  {
    ghost var entries := TextEntries(quotes, |quotes| > 1);
    s := "";
    for i := 0 to |quotes|
      invariant s == Concat(entries[..i])
    {
      if |quotes| > 1 {
        s := s + Ordinal(i + 1);
      }
      s := s + Attribution(quotes[i]);
      assert entries[..i + 1] == entries[..i] + [entries[i]];
      ConcatSnoc(entries[..i], entries[i]);
    }
    assert entries[..|quotes|] == entries;
  }

  lemma TextOfEmpty()
    ensures TextOf([]) == ""
  {
  }

  /** One quote: no ordinal, just the text, the indented dash line and the author. */
  lemma TextOfSingle(q: Quote)
    ensures TextOf([q]) == q.text + "\n   - " + q.author + "\n"
  {
    assert TextEntries([q], false)[0] == Attribution(q);
    assert TextEntries([q], false) == [Attribution(q)];
    assert Concat([Attribution(q)]) == Attribution(q) + Concat([]);
  }

  /** More than one quote: entry `i` is `"<i+1>. "`, the text, `"\n   - "`, the
      author and a newline, placed right after the entries before it. */
  lemma TextOfPlural(qs: seq<Quote>, i: nat)
    requires 1 < |qs| && i < |qs|
    ensures OccursAt(TextOf(qs), Decimal.FromNat(i + 1) + ". " + qs[i].text + "\n   - " + qs[i].author + "\n",
                     |Concat(TextEntries(qs, true)[..i])|)
  {
    var entries := TextEntries(qs, true);
    ConcatPieceAt(entries, i);
    assert entries[i] == Decimal.FromNat(i + 1) + ". " + qs[i].text + "\n   - " + qs[i].author + "\n";
  }

  /** Within one entry, the text follows the prefix and the author follows
      the text and `"\n   - "`. */
  lemma TextEntryVerbatim(i: nat, q: Quote, numbered: bool)
    ensures var p := if numbered then |Ordinal(i + 1)| else 0;
            OccursAt(TextEntry(i, q, numbered), q.text, p)
            && OccursAt(TextEntry(i, q, numbered), q.author, p + |q.text| + 6)
  {
    var p := if numbered then Ordinal(i + 1) else "";
    assert TextEntry(i, q, numbered) == p + q.text + ("\n   - " + q.author + "\n");
    OccursMiddle(p, q.text, "\n   - " + q.author + "\n");
    assert TextEntry(i, q, numbered) == (p + q.text + "\n   - ") + q.author + "\n";
    OccursMiddle(p + q.text + "\n   - ", q.author, "\n");
  }

  /** The text and author of every quote are copied verbatim (no escaping),
      inside the entry that follows the entries of the quotes before it. */
  lemma TextOfVerbatim(qs: seq<Quote>, i: nat)
    requires i < |qs|
    ensures var k := |Concat(TextEntries(qs, |qs| > 1)[..i])| + (if |qs| > 1 then |Ordinal(i + 1)| else 0);
            OccursAt(TextOf(qs), qs[i].text, k) && OccursAt(TextOf(qs), qs[i].author, k + |qs[i].text| + 6)
  {
    var entries := TextEntries(qs, |qs| > 1);
    ConcatPieceAt(entries, i);
    var k := |Concat(entries[..i])|;
    var p := if |qs| > 1 then |Ordinal(i + 1)| else 0;
    TextEntryVerbatim(i, qs[i], |qs| > 1);
    OccursNested(TextOf(qs), entries[i], k, qs[i].text, p);
    OccursNested(TextOf(qs), entries[i], k, qs[i].author, p + |qs[i].text| + 6);
  }

  lemma OrdinalOneTwo()
    ensures Ordinal(1) == "1. " && Ordinal(2) == "2. "
  {
    assert Decimal.FromNat(1) == "1";
    assert Decimal.FromNat(2) == "2";
  }

  lemma TextEntriesTwoExample()
    ensures TextEntries([Quote("Be", "Gandhi"), Quote("Code", "Unknown")], true)
         == ["1. Be\n   - Gandhi\n", "2. Code\n   - Unknown\n"]
  {
    var qs := [Quote("Be", "Gandhi"), Quote("Code", "Unknown")];
    OrdinalOneTwo();
    assert TextEntry(0, qs[0], true) == "1. Be\n   - Gandhi\n";
    assert TextEntry(1, qs[1], true) == "2. Code\n   - Unknown\n";
  }

  /** The two-quote case pinned by the test suite. */
  lemma TextOfTwoExample()
    ensures TextOf([Quote("Be", "Gandhi"), Quote("Code", "Unknown")])
         == "1. Be\n   - Gandhi\n2. Code\n   - Unknown\n"
  {
    var e0, e1 := "1. Be\n   - Gandhi\n", "2. Code\n   - Unknown\n";
    TextEntriesTwoExample();
    assert Concat([e0, e1]) == e0 + Concat([e1]);
    assert Concat([e1]) == e1 + Concat([]);
  }

  // ------------------------------------------------------------ markdown

  /** `"> %s\n\n— %s\n\n"` of text and author, with an em dash (U+2014). */
  function MarkdownBlock(q: Quote): string {
    "> " + q.text + "\n\n" + [EM_DASH] + " " + q.author + "\n\n"
  }

  function MarkdownBlocks(qs: seq<Quote>): seq<string> {
    seq(|qs|, i requires 0 <= i < |qs| => MarkdownBlock(qs[i]))
  }

  /** The Markdown rendering: one block quote per quote, in order. */
  function MarkdownOf(qs: seq<Quote>): string {
    Concat(MarkdownBlocks(qs))
  }

  method FormatMarkdown(quotes: seq<Quote>) returns (s: string)
    ensures s == MarkdownOf(quotes)
  {
    ghost var blocks := MarkdownBlocks(quotes);
    s := "";
    for i := 0 to |quotes|
      invariant s == Concat(blocks[..i])
    {
      s := s + MarkdownBlock(quotes[i]);
      assert blocks[..i + 1] == blocks[..i] + [blocks[i]];
      ConcatSnoc(blocks[..i], blocks[i]);
    }
    assert blocks[..|quotes|] == blocks;
  }

  lemma MarkdownOfEmpty()
    ensures MarkdownOf([]) == ""
  {
  }

  lemma MarkdownOfSingle(q: Quote)
    ensures MarkdownOf([q]) == "> " + q.text + "\n\n\U{2014} " + q.author + "\n\n"
  {
    assert MarkdownBlocks([q]) == [MarkdownBlock(q)];
    assert Concat([MarkdownBlock(q)]) == MarkdownBlock(q) + Concat([]);
  }

  /** Rendering a concatenation renders the parts one after the other. */
  lemma MarkdownOfAppend(a: seq<Quote>, b: seq<Quote>)
    ensures MarkdownOf(a + b) == MarkdownOf(a) + MarkdownOf(b)
  {
    assert MarkdownBlocks(a + b) == MarkdownBlocks(a) + MarkdownBlocks(b);
    ConcatAppend(MarkdownBlocks(a), MarkdownBlocks(b));
  }

  /** The text and author of quote `i` are copied verbatim, after `"> "` and
      after `"\n\n— "` of its block, which follows the blocks of the quotes before it. */
  lemma MarkdownOfVerbatim(qs: seq<Quote>, i: nat)
    requires i < |qs|
    ensures var k := |MarkdownOf(qs[..i])|;
            OccursAt(MarkdownOf(qs), qs[i].text, k + 2)
            && OccursAt(MarkdownOf(qs), qs[i].author, k + 2 + |qs[i].text| + 4)
  {
    assert qs == qs[..i] + ([qs[i]] + qs[i + 1..]);
    MarkdownOfAppend(qs[..i], [qs[i]] + qs[i + 1..]);
    MarkdownOfAppend([qs[i]], qs[i + 1..]);
    MarkdownOfSingle(qs[i]);
    var k := |MarkdownOf(qs[..i])|;
    var t := qs[i].text;
    var a := qs[i].author;
    var b := MarkdownBlock(qs[i]);
    assert MarkdownOf(qs) == MarkdownOf(qs[..i]) + b + MarkdownOf(qs[i + 1..]);
    OccursMiddle(MarkdownOf(qs[..i]), b, MarkdownOf(qs[i + 1..]));
    assert b == "> " + t + ("\n\n\U{2014} " + a + "\n\n");
    OccursMiddle("> ", t, "\n\n\U{2014} " + a + "\n\n");
    assert b == ("> " + t + "\n\n\U{2014} ") + a + "\n\n";
    OccursMiddle("> " + t + "\n\n\U{2014} ", a, "\n\n");
    OccursNested(MarkdownOf(qs), b, k, t, 2);
    OccursNested(MarkdownOf(qs), b, k, a, 2 + |t| + 4);
  }

  /** The multi-quote case pinned by the test suite. */
  lemma MarkdownOfTwoExample()
    ensures MarkdownOf([Quote("Be", "Gandhi"), Quote("Code", "Unknown")])
         == "> Be\n\n\U{2014} Gandhi\n\n> Code\n\n\U{2014} Unknown\n\n"
  {
    var qs := [Quote("Be", "Gandhi"), Quote("Code", "Unknown")];
    var b0, b1 := MarkdownBlock(qs[0]), MarkdownBlock(qs[1]);
    assert MarkdownBlocks(qs) == [b0, b1];
    assert Concat([b0, b1]) == b0 + Concat([b1]);
    assert Concat([b1]) == b1 + Concat([]);
  }
}
