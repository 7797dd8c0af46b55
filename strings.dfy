/** Concatenation of string pieces, the model of appending to a `strings.Builder`. */
module Strings {

  /** The pieces joined in order with no separator. */
  function Concat(parts: seq<string>): string
    decreases |parts|
  {
    if parts == [] then "" else parts[0] + Concat(parts[1..])
  }

  /** `sub` appears in `s` starting at offset `k`. */
  predicate OccursAt(s: string, sub: string, k: nat) {
    k + |sub| <= |s| && s[k..k + |sub|] == sub
  }

  /** An occurrence inside an occurrence is an occurrence at the summed offset. */
  lemma OccursNested(s: string, w: string, k: nat, sub: string, j: nat)
    requires OccursAt(s, w, k) && OccursAt(w, sub, j)
    ensures OccursAt(s, sub, k + j)
  {
    forall m | 0 <= m < |sub|
      ensures s[k + j..k + j + |sub|][m] == sub[m]
    {
      assert s[k + j + m] == s[k..k + |w|][j + m] == w[j + m];
    }
  }

  /** The middle part of a three-part string occurs after the first part. */
  lemma OccursMiddle(pre: string, sub: string, post: string)
    ensures OccursAt(pre + sub + post, sub, |pre|)
  {
    assert (pre + sub + post)[|pre|..|pre| + |sub|] == sub;
  }

  lemma {:induction false} ConcatAppend(a: seq<string>, b: seq<string>)
    ensures Concat(a + b) == Concat(a) + Concat(b)
    decreases |a|
  {
    if a == [] {
      assert a + b == b;
    } else {
      assert (a + b)[1..] == a[1..] + b;
      ConcatAppend(a[1..], b);
    }
  }

  /** Appending one piece appends its text: what one `WriteString` does. */
  lemma ConcatSnoc(a: seq<string>, x: string)
    ensures Concat(a + [x]) == Concat(a) + x
  {
    ConcatAppend(a, [x]);
    assert Concat([x]) == x + Concat([]);
  }

  /** Piece `i` stands verbatim right after the text of the pieces before it. */
  lemma ConcatPieceAt(parts: seq<string>, i: nat)
    requires i < |parts|
    ensures OccursAt(Concat(parts), parts[i], |Concat(parts[..i])|)
  {
    assert parts == parts[..i] + ([parts[i]] + parts[i + 1..]);
    ConcatAppend(parts[..i], [parts[i]] + parts[i + 1..]);
    ConcatAppend([parts[i]], parts[i + 1..]);
    assert Concat([parts[i]]) == parts[i] + Concat([]);
    var pre := Concat(parts[..i]);
    assert Concat(parts) == pre + (parts[i] + Concat(parts[i + 1..]));
  }
}
