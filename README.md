# RecMinFind in Dafny

`RecMinFind` reads a text file of whitespace-separated tokens and keeps the tokens that
`Integer.parseInt` accepts, in file order. It silently drops every other token. It then
computes four statistics over the kept integers with index-driven recursion: minimum,
maximum, sum and number of negatives. It prints them and writes them to `output.txt`.
If no integer survives, it prints "No valid integers found in the file." and stops.

This project models that pipeline from tokens to statistics:

- `wrappers.dfy`: `Option`, which stands for a parse that may fail.
- `int32.dfy`: the range of a Java `int` and its two's-complement wrap-around (`Wrap`).
- `decimal.dfy`: `Parse`, the accepted literals of `Integer.parseInt`. A literal is an
  optional `+` or `-`, then one or more ASCII digits, and its signed value must lie in
  [-2^31, 2^31-1]. `Format` is the inverse direction (`Integer.toString`).
- `token_filter.dfy`: `Filter`, the list the token loop builds, and `ReadIntegers`, that
  loop as a method. The growing `ArrayList` is a local `seq<int>`.
- `aggregator.dfy`: `FindMin`, `FindMax`, `SumArray` and `CountNegatives` as recursive
  functions over the array, taken as a sequence, and a start index. `SumArray` wraps
  every addition the way Java `int` does.
- `rec_min_find.dfy`: `Analyze`, which is `main` from the token loop to the four calls.
  It also holds the concrete runs `3 foo -5 bar 10 -2 2147483648`, `-1 -2 -3` and
  `hello world`.

`findMin` and `findMax` require `0 <= index < |a|`. On an empty array Java's
recursion never reaches its base case, so the emptiness check in `main` is what makes
the calls safe. `Analyze` makes that check before it calls them.

## Model

| member | source | states |
|---|---|---|
| `Int32.Wrap` | RecMinFind.java:157 | the wrapped value is a Java `int`, congruent to the exact value modulo 2^32, and equal to it when the exact value is already in range |
| `Int32.WrapAdd` | RecMinFind.java:157 | wrapping an intermediate sum does not change the final wrapped sum |
| `Decimal.ParseShape` | RecMinFind.java:55-59 | every token that parses is an optional sign (`-` only for values at most 0), then leading zeros, then the canonical decimal digits of the value's magnitude |
| `Decimal.ParseOfShape` | RecMinFind.java:55-59 | every such spelling parses to its signed value when that value fits an `int`, and is rejected (dropped) when it does not |
| `Decimal.ParseFormat` | RecMinFind.java:55 | every `int` parses back from its decimal text (`Parse` inverts `Format`) |
| `Decimal.ParseExamples` | RecMinFind.java:54-59 | leading zeros and a `+` sign are accepted; the empty token, a lone sign, a double sign, a decimal point, an exponent, a space and words are rejected |
| `Decimal.ParseRangeEnds` | RecMinFind.java:55-59 | "2147483647" and "-2147483648" parse to the range ends; "2147483648" is rejected |
| `TokenFilter.ReadIntegers` | RecMinFind.java:47-60 | the token loop returns `Filter(tokens)`; its invariant is that the list equals the filter of the tokens read so far |
| `TokenFilter.FilterExactly` | RecMinFind.java:49-60 | the kept values are the parses of the tokens at a strictly increasing list of positions; a position is on that list exactly when its token parses |
| `TokenFilter.FilterInRange` | RecMinFind.java:55-56 | every kept value lies in the `int` range |
| `TokenFilter.FilterAppend` | RecMinFind.java:49-60 | filtering a concatenation of token lists is the concatenation of their filters |
| `TokenFilter.FilterLength` | RecMinFind.java:49-60 | the filtered list is never longer than the token list |
| `Aggregator.FindMin` | RecMinFind.java:109-118 | for `0 <= index < |a|` the result is an element of `a[index..]` and is at most every element of `a[index..]` |
| `Aggregator.FindMax` | RecMinFind.java:129-138 | for `0 <= index < |a|` the result is an element of `a[index..]` and is at least every element of `a[index..]` |
| `Aggregator.MinIsUnique` | RecMinFind.java:109-118 | any element of `a[index..]` that bounds it from below equals `FindMin(a, index)` |
| `Aggregator.MaxIsUnique` | RecMinFind.java:129-138 | any element of `a[index..]` that bounds it from above equals `FindMax(a, index)` |
| `Aggregator.MinLeMax` | RecMinFind.java:71-72 | on a non-empty array the minimum is at most the maximum |
| `Aggregator.SumArray` | RecMinFind.java:149-158 | the sum is always a Java `int` |
| `Aggregator.SumSplit` | RecMinFind.java:152-157 | the sum of a sequence splits at any point `k` into the sums of `s[..k]` and `s[k..]` |
| `Aggregator.SumArrayWraps` | RecMinFind.java:149-158 | `sumArray(a, index)` equals the exact sum of `a[index..]` wrapped to an `int` |
| `Aggregator.SumArraySplit` | RecMinFind.java:73 | `sumArray(a, 0)` is the wrapped sum of both halves for any split point; it equals the exact sum whenever that sum fits an `int` |
| `Aggregator.CountNegatives` | RecMinFind.java:169-181 | the count from `index` lies between 0 and `|a| - index` |
| `Aggregator.CountNegativesCounts` | RecMinFind.java:169-181 | the count from `index` equals the number of positions `j` in `[index, |a|)` with `a[j] < 0` |
| `Aggregator.CountNegativesMin` | RecMinFind.java:71-74 | a non-empty array has a positive negative count exactly when its minimum is negative |
| `RecMinFind.Analyze` | RecMinFind.java:47-74 | no statistics exactly when no token parses; otherwise the minimum and maximum are kept values bounding all of them, the sum is the wrapped exact sum (the exact sum when it fits), and the negative count is the number of negative kept values |
| `RecMinFind.AnalyzeDeterministic` | RecMinFind.java:68-74 | two outcomes that satisfy `Analyze`'s contract for the same tokens are equal, so the same input always gives the same report |
| `RecMinFind.ScenarioMixedTokensFilter` | RecMinFind.java:49-60 | `3 foo -5 bar 10 -2 2147483648` filters to `[3, -5, 10, -2]` |
| `RecMinFind.ScenarioMixedTokens` | RecMinFind.java:71-74 | that run gives minimum -5, maximum 10, sum 6 and negative count 2 |
| `RecMinFind.ScenarioAllNegativeFilter` | RecMinFind.java:49-60 | `-1 -2 -3` filters to `[-1, -2, -3]` |
| `RecMinFind.ScenarioAllNegative` | RecMinFind.java:71-74 | that run gives minimum -3, maximum -1, sum -6 and negative count 3 |
| `RecMinFind.ScenarioNoIntegers` | RecMinFind.java:62-66 | `hello world` filters to the empty list, the case `main` reports as no valid integers |

## Left out

- Opening and reading the input file (`Scanner`, `File`), and Scanner's whitespace tokenizing. This is I/O. The input is an already-tokenized `seq<string>`.
- The usage message and the `FileNotFoundException` and `IOException` handlers. These are I/O control flow.
- The console lines and the four `<Label>: <value>` lines written to `output.txt`. This is output formatting. `Decimal.Format` models only the decimal text of an `int`.
- Decimal.Parse: accepts ASCII digits only. `Integer.parseInt` also accepts other Unicode decimal digits through `Character.digit`. It states the documented result of `parseInt`, not the JDK's digit-by-digit algorithm, which is not part of this model. Java `char` is a UTF-16 unit and Dafny `char` a Unicode scalar value; for ASCII tokens they agree.
- The copy from the `ArrayList` to an `int[]`. It keeps the contents, so the array is the same sequence.
- Stack depth and `StackOverflowError`. This is a runtime resource limit. It is also what happens when `findMin` or `findMax` is called on an empty array, which the model excludes by its precondition.
- Aggregator.CountNegatives: returns a `nat`, not an `int`. A Java array holds at most 2^31-1 elements, so the Java count cannot overflow.
- RecMinFind.Analyze: does not bound the negative count by the `int` range, for the same reason. Sequences here have no length limit.
