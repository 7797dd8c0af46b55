/** The quote record, the "no quotes" error and seeded random selection
    (cmd/quotes/types.go). */
module Types {
  import opened Results
  import opened GoInt

  /** A motivational quote with its author. */
  datatype Quote = Quote(text: string, author: string)

  /** Go's zero value `Quote{}`. */
  const ZERO_QUOTE: Quote := Quote("", "")

  /** The error returned when selecting from an empty list. */
  datatype SelectError = ErrNoQuotes

  /** `rand.New(rand.NewSource(seed)).Intn(n)`, left uninterpreted: any function
      of the seed and the bound that draws from [0, n) when n is positive. */
  type Generator = g: (Int64, int) -> int | forall seed: Int64, n: int :: 0 < n ==> 0 <= g(seed, n) < n
    witness (seed: Int64, n: int) => 0

  /** Go's two results `(Quote, error)`; `err == None` is a nil error. */
  datatype Selection = Selection(quote: Quote, err: Option<SelectError>)

  /** The index drawn for a list of `n` quotes: a function of the seed and the
      length only. */
  function ChosenIndex(intn: Generator, seed: Int64, n: nat): (i: nat)
    requires 0 < n
    ensures i < n
  {
    intn(seed, n)
  }

  /** SelectRandom: ErrNoQuotes with the zero quote on an empty list, otherwise a
      quote of the list and no error. */
  function SelectRandom(intn: Generator, quotes: seq<Quote>, seed: Int64): (r: Selection)
    ensures quotes == [] <==> r.err.Some?
    ensures quotes == [] ==> r == Selection(ZERO_QUOTE, Some(ErrNoQuotes))
    ensures quotes != [] ==> r.quote in quotes
  {
    if |quotes| == 0 then
      Selection(ZERO_QUOTE, Some(ErrNoQuotes))
    else
      Selection(quotes[ChosenIndex(intn, seed, |quotes|)], None)
  }

  /** On a one-element list the element is returned whatever the seed. */
  lemma SelectRandomSingleton(intn: Generator, q: Quote, seed: Int64)
    ensures SelectRandom(intn, [q], seed) == Selection(q, None)
  {
  }

  /** The position picked depends only on the seed and the length of the list,
      never on the quotes themselves: two lists of equal length get the same
      position for the same seed. */
  lemma SelectRandomIndexOblivious(intn: Generator, xs: seq<Quote>, ys: seq<Quote>, seed: Int64)
    requires |xs| == |ys| > 0
    ensures exists i :: 0 <= i < |xs| && SelectRandom(intn, xs, seed).quote == xs[i]
                                      && SelectRandom(intn, ys, seed).quote == ys[i]
  {
    var i := ChosenIndex(intn, seed, |xs|);
    assert SelectRandom(intn, xs, seed).quote == xs[i];
  }
}
