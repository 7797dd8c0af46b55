/** The choice LoadQuotes (cmd/quotes/loader.go) makes between the user's
    override file `~/.quotes.json` and the built-in list. The three I/O steps
    (home directory lookup, file read, JSON decoding) are inputs: their
    outcomes are given, and only the fallback decision is computed here. */
module Loader {
  import opened Types

  /** The outcome of `os.UserHomeDir()`. */
  datatype HomeLookup = Home(dir: string) | HomeFailed

  /** The outcome of `os.ReadFile(path)`: the file's bytes or an error. */
  datatype ReadOutcome = Contents(data: seq<bv8>) | ReadFailed

  /** The outcome of `json.Unmarshal(data, &quotes)`: the decoded list or an error. */
  datatype ParseOutcome = Decoded(quotes: seq<Quote>) | ParseFailed

  const OVERRIDE_NAME: string := ".quotes.json"

  /** `filepath.Join(home, ".quotes.json")` for a home directory in clean form:
      a separator is inserted unless the directory is empty or already ends
      with one. */
  function OverridePath(dir: string): (p: string)
    ensures |p| >= |OVERRIDE_NAME| && p[|p| - |OVERRIDE_NAME|..] == OVERRIDE_NAME
    ensures |dir| <= |p| && p[..|dir|] == dir
    ensures p[|dir|..] == OVERRIDE_NAME || p[|dir|..] == "/" + OVERRIDE_NAME
    ensures dir != [] ==> p[|p| - |OVERRIDE_NAME| - 1] == '/'
  {
    if dir == [] || dir[|dir| - 1] == '/' then dir + OVERRIDE_NAME else dir + "/" + OVERRIDE_NAME
  }

  /** LoadQuotes: the override list when the home directory is known, the file
      at `<home>/.quotes.json` reads, and its contents decode to a non-empty
      list; `defaults` in every other case. */
  function LoadQuotes(home: HomeLookup, readFile: string -> ReadOutcome, unmarshal: seq<bv8> -> ParseOutcome,
                      defaults: seq<Quote>): (r: seq<Quote>)
    ensures home.HomeFailed? ==> r == defaults
    ensures home.Home? && readFile(OverridePath(home.dir)).ReadFailed? ==> r == defaults
    ensures home.Home? && readFile(OverridePath(home.dir)).Contents? ==>
              var parsed := unmarshal(readFile(OverridePath(home.dir)).data);
              r == if parsed.ParseFailed? || parsed.quotes == [] then defaults else parsed.quotes
    ensures r == defaults
         || (home.Home? && readFile(OverridePath(home.dir)).Contents?
             && unmarshal(readFile(OverridePath(home.dir)).data) == Decoded(r) && r != [])
  {
    match home
    case HomeFailed => defaults
    case Home(dir) =>
      match readFile(OverridePath(dir))
      case ReadFailed => defaults
      case Contents(data) =>
        match unmarshal(data)
        case ParseFailed => defaults
        case Decoded(quotes) => if |quotes| == 0 then defaults else quotes
  }

  /** The result is never empty, provided the built-in list is not. */
  lemma LoadQuotesNeverEmpty(home: HomeLookup, readFile: string -> ReadOutcome, unmarshal: seq<bv8> -> ParseOutcome,
                             defaults: seq<Quote>)
    requires defaults != []
    ensures LoadQuotes(home, readFile, unmarshal, defaults) != []
  {
  }
}
