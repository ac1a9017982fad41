/**
 * The token filter of `main`: every whitespace-separated token is offered to
 * `Integer.parseInt`; the values that parse are appended to a list in token
 * order and the rest are dropped without a trace.
 */
module TokenFilter {
  import opened Wrappers
  import opened Int32
  import opened Decimal

  /** The list the loop has built after reading `tokens` (defined from the last token back). */
  function Filter(tokens: seq<string>): seq<int>
  {
    if tokens == [] then []
    else
      var last := tokens[|tokens| - 1];
      Filter(tokens[..|tokens| - 1]) + (match Parse(last) case Some(v) => [v] case None => [])
  }

  /** The while loop of `main`: reads each token, keeps it when `parseInt` succeeds. */
  method ReadIntegers(tokens: seq<string>) returns (intList: seq<int>)
    ensures intList == Filter(tokens)
  {
    intList := [];
    var i := 0;
    while i < |tokens|
      invariant 0 <= i <= |tokens|
      invariant intList == Filter(tokens[..i])
    {
      var token := tokens[i];
      assert tokens[..i + 1][..i] == tokens[..i];
      match Parse(token) {
        case Some(value) => intList := intList + [value];
        case None =>
      }
      i := i + 1;
    }
    assert tokens[..i] == tokens;
  }

  /** Positions of the tokens that parse, in increasing order: the witness for `FilterExactly`. */
  ghost function KeptIndices(tokens: seq<string>): seq<nat>
  {
    if tokens == [] then []
    else
      var n := |tokens| - 1;
      KeptIndices(tokens[..n]) + (if Parse(tokens[n]).Some? then [n] else [])
  }

  /**
   * Filtering keeps exactly the tokens that parse, in their original order:
   * the j-th kept value is the parse of the token at the j-th of a strictly increasing
   * list of positions, and that list holds every position whose token parses and no other.
   */
  lemma {:induction false} FilterExactly(tokens: seq<string>)
    ensures var kept, values := KeptIndices(tokens), Filter(tokens);
      |kept| == |values| &&
      (forall j :: 0 <= j < |kept| ==> kept[j] < |tokens| && Parse(tokens[kept[j]]) == Some(values[j])) &&
      (forall j, k :: 0 <= j < k < |kept| ==> kept[j] < kept[k]) &&
      (forall i :: 0 <= i < |tokens| ==> (Parse(tokens[i]).Some? <==> i in kept))
  {
    if tokens != [] {
      var n := |tokens| - 1;
      var front := tokens[..n];
      FilterExactly(front);
      assert forall i :: 0 <= i < n ==> front[i] == tokens[i];
    }
  }

  /** Every kept value is a Java `int`; in particular "2147483648" never gets in. */
  lemma {:induction false} FilterInRange(tokens: seq<string>)
    ensures forall x :: x in Filter(tokens) ==> InRange(x)
  {
    if tokens != [] {
      FilterInRange(tokens[..|tokens| - 1]);
    }
  }

  /** Filtering a concatenation filters each part: the loop can equally be run in pieces. */
  lemma {:induction false} FilterAppend(a: seq<string>, b: seq<string>)
    ensures Filter(a + b) == Filter(a) + Filter(b)
  {
    if b != [] {
      var n := |b| - 1;
      assert (a + b)[..|a + b| - 1] == a + b[..n];
      FilterAppend(a, b[..n]);
    } else {
      assert a + b == a;
    }
  }

  /** The filtered list is never longer than the token list. */
  lemma {:induction false} FilterLength(tokens: seq<string>)
    ensures |Filter(tokens)| <= |tokens|
  {
    if tokens != [] {
      FilterLength(tokens[..|tokens| - 1]);
    }
  }
}
