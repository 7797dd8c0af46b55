# quotes — a Dafny model of the core of a random-quote CLI

`quotes` is a small Go command-line tool that prints randomly chosen inspiring
quotes as plain text, Markdown or indented JSON. This project models its core
and proves properties of that model:

- **Formatters** (`cmd/quotes/formatter.go`). `FormatText` and `FormatMarkdown`
  are methods whose loops append to a builder, the way `strings.Builder` is
  used. Each is specified by a function that concatenates one piece per quote
  (`Formatter.TextOf`, `Formatter.MarkdownOf`). `FormatJSON` is the layout that
  `json.MarshalIndent(quotes, "", "  ")` produces (`FormatterJson`). String
  escaping is an abstract `escape` function. A decoder for that layout, with
  an abstract `unescape`, gives the round trip.
- **Selection** (`cmd/quotes/types.go`). `Quote`, `ErrNoQuotes` and
  `SelectRandom` are in module `Types`. The seeded generator
  `rand.New(rand.NewSource(seed)).Intn(n)` is an uninterpreted `Generator`:
  any function of `(seed, n)` whose result lies in `[0, n)`.
- **Command** (`cmd/quotes/main.go`, module `Command`). This covers:
  - `isValidFormat`;
  - flag validation (format first, then count in [1, 100]);
  - replacing a zero seed with the clock;
  - the selection loop with seeds `base + i` in wrapping int64 arithmetic;
  - dispatch to a formatter.

  `Command.Run` is runQuotes as a pure function returning
  `Result<string, CliError>`. `Command.SelectQuotes` is the counted loop.
  `Command.Flags` holds the package-level flag variables, and its `RunQuotes`
  method overwrites `seed` the way the Go code does.
- **Loader** (`cmd/quotes/loader.go`, module `Loader`). This is the fallback
  decision of `LoadQuotes` over the outcomes of three steps, which are inputs:
  the home directory lookup, the file read and the JSON decoding.

Supporting modules:

- `GoInt`: the int64 range and wrap-around addition.
- `Decimal`: Go's `%d`.
- `Strings`: concatenation of pieces and substring occurrence.
- `Results`: `Option` and `Result`.

## Model

| member | source | states |
|---|---|---|
| GoInt.WrapAdd | cmd/quotes/main.go:68 | `seed + int64(i)` is the exact sum shifted by at most one multiple of 2^64; it equals the sum when the sum fits, and its sign flips on overflow and on underflow |
| GoInt.WrapAddUnique | cmd/quotes/main.go:68 | any int64 that differs from the exact sum by -1, 0 or 1 times 2^64 is the wrapped sum |
| GoInt.WrapAddOverflow | cmd/quotes/main.go:68 | the largest int64 plus one wraps to the smallest |
| Decimal.FromNat | cmd/quotes/formatter.go:17 | `%d` of a natural number is a non-empty string of digits with no leading zero; it is one digit exactly when the number is below 10 |
| Decimal.ToNatFromNat | cmd/quotes/formatter.go:17 | reading the written digits back gives the number |
| Decimal.FromInt | cmd/quotes/main.go:53 | `%d` of an integer: a minus sign exactly for negative values, followed by digits that read back as the magnitude, with no leading zero for any non-zero value, and exactly `0` for zero |
| Types.ChosenIndex | cmd/quotes/types.go:24-26 | the drawn index lies in `[0, n)` and depends only on the seed and the list length |
| Types.SelectRandom | cmd/quotes/types.go:19-29 | an error exactly when the list is empty; on an empty list the zero quote with ErrNoQuotes, for every seed; otherwise an element of the list |
| Types.SelectRandomSingleton | cmd/quotes/types.go:26-28 | on a one-element list that element is returned with no error, whatever the seed |
| Types.SelectRandomIndexOblivious | cmd/quotes/types.go:24-28 | two lists of equal length get the same position for the same seed, so the choice ignores the quotes' contents |
| Formatter.FormatText | cmd/quotes/formatter.go:12-23 | the builder loop writes exactly `TextOf(quotes)`: one entry per quote in order, with an ordinal only when there is more than one quote |
| Formatter.TextOfEmpty | cmd/quotes/formatter.go:12-23 | no quotes give the empty string |
| Formatter.TextOfSingle | cmd/quotes/formatter.go:16-19 | one quote gives `Text + "\n   - " + Author + "\n"` with no ordinal |
| Formatter.TextOfPlural | cmd/quotes/formatter.go:15-20 | with more than one quote, entry i is `"<i+1>. " + Text + "\n   - " + Author + "\n"` and starts right after the entries before it |
| Formatter.TextEntryVerbatim | cmd/quotes/formatter.go:19 | within one entry the text follows the prefix unchanged, and the author follows the text and `"\n   - "` |
| Formatter.TextOfVerbatim | cmd/quotes/formatter.go:19 | every quote's text and author occur unescaped in the output, at the offsets of that quote's entry |
| Formatter.OrdinalOneTwo | cmd/quotes/formatter.go:17 | the first two ordinals are `"1. "` and `"2. "` |
| Formatter.TextEntriesTwoExample | cmd/quotes/formatter.go:15-20 | the two numbered entries of the two-quote example list |
| Formatter.TextOfTwoExample | cmd/quotes/formatter_test.go:20-27 | the two-quote example renders as `"1. Be\n   - Gandhi\n2. Code\n   - Unknown\n"` |
| Formatter.FormatMarkdown | cmd/quotes/formatter.go:45-53 | the builder loop writes exactly `MarkdownOf(quotes)`: one `"> Text\n\n— Author\n\n"` block per quote, in order |
| Formatter.MarkdownOfEmpty | cmd/quotes/formatter.go:45-53 | no quotes give the empty string |
| Formatter.MarkdownOfSingle | cmd/quotes/formatter.go:49 | one quote gives `"> " + Text + "\n\n— " + Author + "\n\n"`, with U+2014 as the dash |
| Formatter.MarkdownOfAppend | cmd/quotes/formatter.go:48-52 | rendering `a + b` gives the rendering of `a` followed by that of `b` |
| Formatter.MarkdownOfVerbatim | cmd/quotes/formatter.go:49 | quote i's text and author occur unescaped inside its block, which follows the blocks of the quotes before it |
| Formatter.MarkdownOfTwoExample | cmd/quotes/formatter_test.go:146-152 | the two-quote example renders as two blocks, in order |
| FormatterJson.LiteralEndAfterBody | cmd/quotes/formatter.go:33 | a scanner for the closing quote of a JSON string stops right after a well-formed literal body |
| FormatterJson.FormatJSON | cmd/quotes/formatter.go:27-41 | a nil or empty list gives exactly `[]`; any other list gives an array that opens with `"[\n"` and ends with `"\n]"` |
| FormatterJson.JsonObjectExample | cmd/quotes/formatter_test.go:77-78 | for an escaper that leaves `Be` and `Gandhi` unchanged, the test's quote marshals to `"  {\n    \"Text\": \"Be\",\n    \"Author\": \"Gandhi\"\n  }"`: two spaces of indent per level, fields `Text` then `Author`, a space after each colon |
| FormatterJson.FormatJSONSingle | cmd/quotes/formatter.go:33-40 | a one-quote list is its object between `"[\n"` and `"\n]"`, with no trailing newline |
| FormatterJson.JsonElementsEnd | cmd/quotes/formatter.go:33 | the indented element list ends with the closing line `"\n]"` |
| FormatterJson.DecodeFieldAt | cmd/quotes/formatter.go:33 | a field whose escaped value is a well-formed body decodes to the unescaped value, and decoding resumes at the closing quote |
| FormatterJson.DecodeObjectOf | cmd/quotes/formatter.go:33 | one marshalled object followed by any text decodes to its quote, and decoding resumes where the object ends |
| FormatterJson.DecodeElementsOf | cmd/quotes/formatter.go:33 | the marshalled element list decodes to the same quotes in the same order |
| FormatterJson.JsonRoundTrip | cmd/quotes/formatter.go:27-40 | decoding FormatJSON's output gives back the list, with the same length, order, text and author, whenever `unescape` inverts `escape` |
| FormatterJson.BackslashEscaperValid | cmd/quotes/formatter.go:33 | the round trip's hypothesis on the escaper can be met: a backslash escaper satisfies it |
| Loader.OverridePath | cmd/quotes/loader.go:20 | the override path is the home directory followed directly by `.quotes.json`, with at most one `/` between them, so the file sits in the home directory itself; for a non-empty directory the name is preceded by a `/` |
| Loader.LoadQuotes | cmd/quotes/loader.go:12-36 | the defaults in each of these cases: the home lookup fails, the read fails, decoding fails, or the decoded list is empty; otherwise the decoded list unchanged; so the result is always either the defaults or the non-empty list decoded from the file at the override path |
| Loader.LoadQuotesNeverEmpty | cmd/quotes/loader.go:9-12 | the result is never empty when the built-in list is non-empty |
| Command.IsValidFormat | cmd/quotes/main.go:35-42 | a format that passes is a lower-case word of four to eight letters: the switch compares exactly, with no case folding or trimming |
| Command.IsValidFormatCases | cmd/quotes/main_test.go:254-271 | `text`, `json` and `markdown` pass; `xml`, `yaml`, `csv`, `html` and the empty string are rejected, and so are the capitalised `Text`, `JSON` and `Markdown` because the match is exact |
| Command.CliError.Message | cmd/quotes/main.go:47-53 | the format error ends with the list of accepted names, ` (must be one of: text, json, markdown)`; the count error is `count must be 1-100, got ` followed by `%d` of the count (`Decimal.FromInt`) |
| Command.MessageContents | cmd/quotes/main.go:47-54 | the format error begins with "invalid format" and names the format; the count error begins with "count must be 1-100" and ends with the count in decimal: a minus sign exactly for a negative count, digits that read back as its magnitude, no leading zero, and `0` for zero |
| Command.Validate | cmd/quotes/main.go:47-54 | the flags pass exactly when the format is valid and 1 <= count <= 100; an invalid format is reported even when the count is also invalid |
| Command.BaseSeed | cmd/quotes/main.go:60-62 | the base seed is the given seed or the clock; a non-zero seed is kept; it is zero only when both the seed and the clock are zero |
| Command.Selections | cmd/quotes/main.go:65-70 | exactly n quotes, where the i-th is what SelectRandom returns for seed `base + i` with int64 wrap-around |
| Command.SelectQuotes | cmd/quotes/main.go:65-70 | for a non-negative count (a negative one makes Go's `make` panic, and validation never lets one through) the counted append loop builds exactly `Selections(base, count)` |
| Command.SelectionsFromStore | cmd/quotes/main.go:68 | with a non-empty store the discarded error is nil for every seed, and every selected quote is in the store |
| Command.SelectionsEmptyStore | cmd/quotes/main.go:68 | with an empty store every selection is the zero quote |
| Command.Render | cmd/quotes/main.go:73-81 | any format other than `json` and `markdown` renders as text; JSON output starts with `[`, and non-empty Markdown output with `>`; the output is empty exactly when nothing was selected and the format is not JSON, which gives `[]` |
| Command.Run | cmd/quotes/main.go:45-85 | an error exactly when validation fails, and then the validation error |
| Command.RunValidation | cmd/quotes/main.go:47-54 | an invalid format is reported whatever the count; counts 1 and 100 pass; 0, 101 and -1 give the count error |
| Command.RunSeed | cmd/quotes/main.go:60-62 | a non-zero seed makes the output independent of the clock; a zero seed acts as if the clock's value had been given as the seed |
| Command.RunJson | cmd/quotes/main.go:65-83 | JSON output decodes to exactly `count` quotes; the i-th is SelectRandom's pick for seed `base + i`, and each comes from the store when the store is non-empty |
| Command.RunSingleText | cmd/quotes/main.go:65-80 | with a one-quote store and count 1, text output is that quote and its attribution, whatever the seed |
| Command.RunText | cmd/quotes/main.go:65-80 | text output is one entry per selection, the i-th for seed `base + i`, in order, numbered exactly when count > 1 |
| Command.RunMarkdown | cmd/quotes/main.go:65-78 | Markdown output is one block per selection, the i-th for seed `base + i`, in order |
| Command.Flags.constructor | cmd/quotes/main.go:27-29 | flag defaults: format `text`, count 1, seed 0 |
| Command.Flags.RunQuotes | cmd/quotes/main.go:45-85 | the printed output equals Run's `Ok` value, and nothing is printed when an error is returned; format and count are unchanged; seed becomes the clock value when it was 0 and the flags passed, and is unchanged otherwise |

## Left out

- Cobra flag registration and parsing, `main`, `log.Fatal` and the global `rand.Seed` are CLI plumbing. The parsed flags are plain inputs (`Command.Flags`).
- `time.Now().UnixNano()` is the parameter `now`.
- math/rand's generator is the uninterpreted `Generator`. Variation between different seeds depends on the real generator, so it is not stated.
- `os.UserHomeDir`, `os.ReadFile` and `json.Unmarshal` are inputs. They appear as a `HomeLookup` value and as `readFile` and `unmarshal` functions with abstract outcomes.
- Loader.OverridePath: models `filepath.Join` only for a home directory already in clean form. The path cleaning of `filepath.Join` (`..`, repeated separators) is not modelled.
- `json.MarshalIndent`'s escaping rules are the abstract `escape`. The round trip assumes that escaped text is a well-formed string body, which is how `encoding/json` escapes, and that `unescape` inverts `escape`. The decoder reads only the layout FormatJSON writes, not JSON in general.
- FormatterJson.FormatJSON: the `"[]"` returned when `MarshalIndent` fails is not modelled. That marshalling cannot fail for a list of two string fields.
- `defaultQuotes` is not part of this model. It is the parameter `defaults`, and non-emptiness is a hypothesis of `Loader.LoadQuotesNeverEmpty`. The claim that it holds at least 50 entries is not stated.
- Determinism (same inputs, same output) holds for every function in the model by construction, so it has no separate lemma.
- `fmt.Print` is not modelled. The printed text is the `output` result of `Command.Flags.RunQuotes`.
- Text is `seq<char>` and is not UTF-8 encoded. The em dash is the single character U+2014.
