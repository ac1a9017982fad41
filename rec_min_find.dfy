/**
 * The statistics pipeline of `RecMinFind.main`: filter the tokens, stop when no
 * integer survived, otherwise compute minimum, maximum, sum and negative count
 * from index 0. Reading the file and printing or writing the report are not modelled.
 */
module RecMinFind {
  import opened Wrappers
  import opened Int32
  import opened Decimal
  import opened TokenFilter
  import opened Aggregator

  /** What a run reports: the "no valid integers" message, or the four statistics. */
  datatype Outcome =
    | NoValidIntegers
    | Statistics(minimum: int, maximum: int, sum: int, negativeCount: int)

  /** What the report of a non-empty list says: the meaning of each of the four statistics. */
  ghost predicate DescribesStatistics(values: seq<int>, o: Outcome)
    requires o.Statistics?
  {
    o.minimum in values && (forall x :: x in values ==> o.minimum <= x) &&
    o.maximum in values && (forall x :: x in values ==> x <= o.maximum) &&
    o.minimum <= o.maximum &&
    o.sum == Wrap(Sum(values)) && (InRange(Sum(values)) ==> o.sum == Sum(values)) &&
    o.negativeCount == |NegativePositions(values, 0)| &&
    InRange(o.minimum) && InRange(o.maximum) && InRange(o.sum) &&
    o.negativeCount <= |values|
  }

  /** `main` from the token loop to the four recursive calls. */
  method Analyze(tokens: seq<string>) returns (outcome: Outcome)
    ensures outcome.NoValidIntegers? <==> Filter(tokens) == []
    ensures outcome.Statistics? ==> DescribesStatistics(Filter(tokens), outcome)
  {
    var intList := ReadIntegers(tokens);
    if |intList| == 0 {
      return NoValidIntegers;
    }
    var values := intList;  // the list-to-array copy
    var min := FindMin(values, 0);
    var max := FindMax(values, 0);
    var sum := SumArray(values, 0);
    var negatives := CountNegatives(values, 0);
    outcome := Statistics(min, max, sum, negatives);
    assert values[0..] == values;
    FilterInRange(tokens);
    MinLeMax(values);
    SumArraySplit(values, 0);
    CountNegativesCounts(values, 0);
  }

  /** A run's outcome is determined by its tokens: running twice reports the same thing. */
  lemma AnalyzeDeterministic(tokens: seq<string>, o1: Outcome, o2: Outcome)
    requires o1.NoValidIntegers? <==> Filter(tokens) == []
    requires o1.Statistics? ==> DescribesStatistics(Filter(tokens), o1)
    requires o2.NoValidIntegers? <==> Filter(tokens) == []
    requires o2.Statistics? ==> DescribesStatistics(Filter(tokens), o2)
    ensures o1 == o2
  {
  }

  /** "3 foo -5 bar 10 -2 2147483648": the words and the last token (an `int` overflow) are dropped. */
  lemma ScenarioMixedTokensFilter()
    ensures Filter(["3", "foo", "-5", "bar", "10", "-2", "2147483648"]) == [3, -5, 10, -2]
  {
    var tokens := ["3", "foo", "-5", "bar", "10", "-2", "2147483648"];
    Decimal.ParseRangeEnds();
    assert tokens[..6] == ["3", "foo", "-5", "bar", "10", "-2"];
    MixedPrefix();
    assert Parse(tokens[|tokens| - 1]) == None;
    assert Filter(tokens) == Filter(tokens[..6]);
  }

  /** The first six tokens of that run. */
  lemma MixedPrefix()
    ensures Filter(["3", "foo", "-5", "bar", "10", "-2"]) == [3, -5, 10, -2]
  {
    var tokens := ["3", "foo", "-5", "bar", "10", "-2"];
    assert "-5"[1..] == "5" && "-2"[1..] == "2" && "10"[..1] == "1";
    assert Parse("3") == Some(3) && Parse("-5") == Some(-5) && Parse("10") == Some(10);
    assert Parse("-2") == Some(-2) && Parse("foo") == None && Parse("bar") == None;
    assert tokens[..1] == ["3"] && ["3"][..0] == [];
    assert Filter(tokens[..1]) == [3];
    assert tokens[..2][..1] == tokens[..1];
    assert Filter(tokens[..2]) == [3];
    assert tokens[..3][..2] == tokens[..2];
    assert Filter(tokens[..3]) == [3, -5];
    assert tokens[..4][..3] == tokens[..3];
    assert Filter(tokens[..4]) == [3, -5];
    assert tokens[..5][..4] == tokens[..4];
    assert Filter(tokens[..5]) == [3, -5, 10];
    assert tokens[..5] == tokens[..|tokens| - 1];
  }

  /** The statistics of that run: minimum -5, maximum 10, sum 6, two negatives. */
  lemma ScenarioMixedTokens()
    ensures var values := Filter(["3", "foo", "-5", "bar", "10", "-2", "2147483648"]);
      FindMin(values, 0) == -5 && FindMax(values, 0) == 10 &&
      SumArray(values, 0) == 6 && CountNegatives(values, 0) == 2
  {
    ScenarioMixedTokensFilter();
  }

  /** "-1 -2 -3": every token parses. */
  lemma ScenarioAllNegativeFilter()
    ensures Filter(["-1", "-2", "-3"]) == [-1, -2, -3]
  {
    var tokens := ["-1", "-2", "-3"];
    assert "-1"[1..] == "1" && "-2"[1..] == "2" && "-3"[1..] == "3";
    assert Parse("-1") == Some(-1) && Parse("-2") == Some(-2) && Parse("-3") == Some(-3);
    assert tokens[..1] == ["-1"] && ["-1"][..0] == [];
    assert Filter(tokens[..1]) == [-1];
    assert tokens[..2][..1] == tokens[..1];
    assert Filter(tokens[..2]) == [-1, -2];
    assert tokens[..2] == tokens[..|tokens| - 1];
  }

  /** The statistics of that run: minimum -3, maximum -1, sum -6, three negatives. */
  lemma ScenarioAllNegative()
    ensures var values := Filter(["-1", "-2", "-3"]);
      FindMin(values, 0) == -3 && FindMax(values, 0) == -1 &&
      SumArray(values, 0) == -6 && CountNegatives(values, 0) == 3
  {
    ScenarioAllNegativeFilter();
  }

  /** "hello world": nothing parses, so the run reports that no valid integers were found. */
  lemma ScenarioNoIntegers()
    ensures Filter(["hello", "world"]) == []
  {
  }
}
