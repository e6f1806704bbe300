# Shapley values over a partial worth mapping

This project models the core of `shapley`, a small Rust library
(`src/shapley.rs`) that computes the Shapley value of a player in a
cooperative game. The model is in Dafny, and the properties are proved.

The model follows the library's own parts:

- **Coalitions** (`coalition.dfy`, module `Coalitions`). A coalition is a set
  of player ids, as the library's `BTreeSet<u64>` is.
  - `Coalition::new` collects a list into that set.
  - `size`, `worth` and `subtract` are a cardinality, a map lookup and a set
    difference.
- **Binomials** (`binomial.dfy`). These are exact binomial coefficients by
  Pascal's rule. They stand in for the floating-point
  `statrs::function::factorial::binomial`.
- **Engine** (`shapley.dfy`, module `ShapleyEngine`). `Shapley` holds the full
  coalition, the set of the listed players with repeated ids collapsed, and
  the worth mapping exactly as the caller gave it. Nothing is added to the
  mapping: in particular no empty coalition. The two operations are methods
  with the source's loops:
  - `get_coalition_size_weights` builds the table `s ↦ (1/n) / C(n-1, s)` for
    `s < n`.
  - `shapley_value` visits every key of the worth mapping. For each key `S`
    that holds the player, and whose `S \ {player}` is also a key, it adds the
    weight of size `|S| - 1` times the marginal contribution
    `v(S) - v(S \ {player})`. It sums those weights too, and returns the
    quotient.
  - A key whose player-removed coalition is absent is skipped silently.
  - A zero total weight is a `0/0` (a NaN) in the source. It is the result
    `None` here.
- **Order independence** (`setsum.dfy`). The keys of a `HashMap` come in no
  particular order. `SetSums.Sum` adds a function over a finite set taking
  elements in an unspecified order. Its lemmas show the result does not
  depend on that order.
- **Properties** (`properties.dfy`):
  - which keys count;
  - exactly when the query has no value;
  - that any visiting order gives the same result;
  - that the result is a weighted average of marginal contributions;
  - that interchangeable players get the same value;
  - that the weight table is normalised.
- **Complete games** (`complete.dfy`, module `CompleteGames`). A game is
  complete when its keys are exactly the coalitions drawn from the listed
  players, the empty one included. On such a game:
  - the weights `shapley_value` adds up for a listed player come to one;
  - its result is the classical Shapley value, the sum over the coalitions
    `T` of the other players of `|T|! (n-1-|T|)! / n!` times
    `v(T + {player}) - v(T)`.
- **Efficiency** (`efficiency.dfy`, module `ShapleyEfficiency`). On a
  complete game the values of all listed players add up to
  `v(full coalition) - v(empty coalition)`. The proof splits each value into
  the shares of the separate coalitions and exchanges the two sums. In every
  coalition other than the full and the empty one, the members' shares and
  the other players' shares cancel. Completeness is needed: in
  divide-the-dollar as listed, which has no empty coalition, the values are
  300, 75 and 75.
- **Examples** (`examples.dfy`). These are the worked examples of the unit
  test in `src/shapley.rs` and of the Python tests. They are evaluated for the
  code as written.

The code and its Python tests disagree in places. The model follows the code:

- The tests expect the empty coalition to be added with worth 0. The code
  does not add it.
  - So the game `{1}: 5` has no value (`ShapleyExamples.NoEmptyCoalitionAdded`).
  - In divide-the-dollar, player 1 gets 300 rather than the literature's 200
    (`ShapleyExamples.DivideTheDollarValue`). The key `{1}` is skipped there,
    because `{}` is not a key.
- The tests expect an error for missing data or an unknown player. The code
  returns `Ok(total_worth / total_weight)` with a zero total weight.
  - Both cases are `None` here (`ShapleyExamples.MissingDataValue`,
    `ShapleyExamples.UnknownPlayerValue`).

## Model

| member | source | states |
|---|---|---|
| Coalitions.FromMembers | src/shapley.rs:14-18 | a player is in the constructed coalition exactly when it occurs in the list |
| Coalitions.CanonicalConstruction | src/shapley.rs:14-18 | two lists with the same ids, in any order and with any repetitions, give equal coalitions |
| Coalitions.Size | src/shapley.rs:20-22 | the size is zero exactly for the empty coalition and at least one when the coalition has a member |
| Coalitions.SizeCountsDistinct | src/shapley.rs:14-22 | the size of a constructed coalition is at most the length of the list, and equals it exactly when no id repeats |
| Coalitions.SubsetSize | src/shapley.rs:20-22 | a coalition drawn from another's members is no larger |
| Coalitions.Worth | src/shapley.rs:24-26 | the lookup succeeds exactly when the coalition is a key, and then gives that key's worth |
| Coalitions.Subtract | src/shapley.rs:28-34 | the result holds the members other than the player; it is the coalition itself when the player is absent, and one smaller when present |
| Coalitions.SubtractRoundTrip | src/shapley.rs:28-34 | removing a member and adding it back restores the coalition, and the removed player is no longer a member |
| Coalitions.ConstructionExamples | src/shapley.rs:89-100 | `[1,2,3]` has three members, equals `[3,2,1]`, and repetitions do not count |
| Binomials.Binomial | src/shapley.rs:78 | `C(n,k)` is positive for `k <= n` and zero for `k > n` |
| Binomials.BinomialFactorial | src/shapley.rs:78 | `C(n,k) * k! * (n-k)! == n!`, the closed form the library evaluates |
| Binomials.BinomialSymmetric | src/shapley.rs:78 | `C(n,k) == C(n,n-k)` |
| ShapleyEngine.New | src/shapley.rs:43-48 | the full coalition holds exactly the listed players; the worth mapping is kept as given, with the empty coalition a key only if the caller supplied it |
| ShapleyEngine.Weight | src/shapley.rs:78 | every weight `(1/n) / C(n-1,s)` with `s < n` is positive |
| ShapleyEngine.SizeClassWeight | src/shapley.rs:78 | the `C(n-1,s)` coalitions with `s` other members together weigh `1/n` |
| ShapleyEngine.CoalitionSizeWeights | src/shapley.rs:72-82 | the table has a key exactly for each size `s < n`, and maps it to `(1/n) / C(n-1,s)` |
| ShapleyEngine.KeyWeight | src/shapley.rs:54-65 | a key adds a non-negative weight, and a positive one exactly when it holds the player and its player-removed coalition is a key |
| ShapleyEngine.KeyWorth | src/shapley.rs:54-64 | a key that does not qualify adds nothing to the weighted worth |
| ShapleyEngine.VisitKey | src/shapley.rs:54-66 | one loop pass adds exactly the key's weighted marginal contribution and its weight to the two accumulators |
| ShapleyEngine.AddUpKeys | src/shapley.rs:50-67 | after visiting every key in the map's order, the accumulators hold the order-free sums of all keys' contributions and weights |
| ShapleyEngine.ShapleyValue | src/shapley.rs:49-70 | the result is the weighted average of the qualifying keys' marginal contributions, or `None` when the total weight is zero |
| ShapleyProperties.KeysWithinPlayers | src/shapley.rs:63 | when every key is drawn from the listed players, the weight-table lookup never fails, for any player |
| ShapleyProperties.OnlyQualifyingContribute | src/shapley.rs:54-62 | both totals are unchanged when non-qualifying keys are dropped |
| ShapleyProperties.NoValueIffNothingQualifies | src/shapley.rs:52-69 | the query has no value exactly when no key holds the player together with its player-removed coalition |
| ShapleyProperties.AnyOrder | src/shapley.rs:53 | visiting the keys along any duplicate-free listing of them gives the same result |
| ShapleyProperties.ValueBetweenMarginals | src/shapley.rs:49-70 | the value lies between any lower and upper bound of the qualifying marginal contributions |
| ShapleyProperties.UniformMarginals | src/shapley.rs:49-70 | a player whose marginal contribution is `d` for every qualifying key, and for whom some key qualifies, gets exactly `d` |
| ShapleyProperties.SwapQualifies | src/shapley.rs:54-62 | for interchangeable players, a key qualifies for one exactly when its swapped image qualifies for the other, with the same marginal contribution |
| ShapleyProperties.Symmetry | src/shapley.rs:49-70 | two players who can be exchanged without changing any worth get the same value |
| ShapleyProperties.SizeClassTotals | src/shapley.rs:72-82 | the size classes `0..k` together weigh `k/n` |
| ShapleyProperties.WeightsSumToOne | src/shapley.rs:72-82 | over all sizes the table's weights, each counted once per coalition of that size, add up to 1; this is table arithmetic only, and `CompleteGames.CompleteTotalWeight` supersedes it with the statement about a game's keys |
| ShapleyProperties.WeightSymmetric | src/shapley.rs:72-82 | the weight of size `s` equals that of size `n-1-s` |
| CompleteGames.WeightIsClassical | src/shapley.rs:78 | the table's weight `(1/n) / C(n-1,s)` equals the classical weight `s! (n-1-s)! / n!` |
| CompleteGames.ClassicalWeightStep | src/shapley.rs:78 | with one more player, the classical weights of sizes `s` and `s+1` add up to the old weight of size `s` |
| CompleteGames.ClassicalWeightsSumToOne | src/shapley.rs:72-82 | the classical weights of all the coalitions drawn from the other players add up to 1 |
| CompleteGames.CompleteTotalWeight | src/shapley.rs:52-67 | on a complete game the weights `shapley_value` adds up for any listed player total exactly 1, and no weight lookup fails |
| CompleteGames.CompleteIsClassical | src/shapley.rs:49-70 | on a complete game the result for any listed player is its classical Shapley value |
| ShapleyEfficiency.ClassicalValueShares | src/shapley.rs:49-70 | a listed player's classical value is the sum, over all coalitions, of a coalition's share: its weight times its worth, gained when the player is a member and lost otherwise |
| ShapleyEfficiency.ClassicalBalanced | src/shapley.rs:78 | the classical weights meet the balance equations: `n w(n-1) = n w(0) = 1` and `s w(s-1) = (n-s) w(s)` for `0 < s < n` |
| ShapleyEfficiency.Efficiency | src/shapley.rs:49-70 | on a complete game every listed player gets its classical value, and these values add up to the full coalition's worth less the empty coalition's |
| ShapleyExamples.SmallWeights | src/shapley.rs:72-82 | the weight tables for one, two and three players |
| ShapleyExamples.UnitTestValue | src/shapley.rs:102-116 | in the unit test's game without the empty coalition, player 1 gets 10 |
| ShapleyExamples.TwoPlayerValues | bindings/python/tests/test_shapley.py:29-41 | with the empty coalition listed, players 1 and 2 get 10 and 20 |
| ShapleyExamples.UnknownPlayerValue | bindings/python/tests/test_shapley.py:152-166 | a player in no key has no value |
| ShapleyExamples.SinglePlayerValue | bindings/python/tests/test_shapley.py:140-149 | the only player gets 100 |
| ShapleyExamples.NoEmptyCoalitionAdded | bindings/python/tests/test_shapley.py:5-14 | with only `{1}: 5` listed there is no value, because no empty coalition is added |
| ShapleyExamples.MissingDataValue | bindings/python/tests/test_shapley.py:17-26 | with only `{1,2}` listed, player 1 has no value |
| ShapleyExamples.ZeroSumValues | bindings/python/tests/test_shapley.py:122-137 | the players get 5 and -5, which add up to 0 |
| ShapleyExamples.SymmetricValue | bindings/python/tests/test_shapley.py:97-119 | in the symmetric game each of the three players gets 10 |
| ShapleyExamples.DivideTheDollarValue | bindings/python/tests/test_shapley.py:44-63 | in divide-the-dollar as listed, player 1 gets 300 |

## Left out

- Floating point: `f64` is modelled by `real`, so rounding is not modelled. The NaN of a zero total weight is `None`, not a number that spreads through later arithmetic.
- The binomial is exact: the library computes it in floating point.
- Integer widths: player ids are `nat`, not `u64`, and sizes are `nat`, not `usize`. `coalition.size() - 1` cannot underflow, because only keys holding the player reach it.
- ShapleyValue: the `unwrap` at src/shapley.rs:63 panics when a qualifying key has more members than the player count. The model makes that a precondition (`WeightsDefined`) instead of modelling the panic. `KeysWithinPlayers` shows the precondition holds whenever the keys use only listed players.
- The `println!` at src/shapley.rs:68 is output only and is not modelled.
- The `HashMap`'s hashing and its concrete iteration order are not modelled. The loop takes keys in an unspecified order. `AnyOrder` shows the order does not matter in exact arithmetic; rounding is left out above, and with it any dependence of an `f64` sum on the order.
- The Python binding (`bindings/python/src/lib.rs`) only converts lists to coalitions and errors to exceptions, and is not modelled. Where two Python keys map to the same coalition, the binding keeps one of them; the model starts from a map keyed by coalitions.
- The logistics game (bindings/python/tests/test_shapley.py:66-94) is not evaluated, and neither is divide-the-dollar with the empty coalition added. Their worths differ from coalition to coalition, so no general lemma gives the values. They would need a key-by-key sum over their fifteen and eight keys respectively, and those sums are not written out.
- Players 2 and 3 of divide-the-dollar as listed are not evaluated. Each has the marginal contributions 300 and 0, so `UniformMarginals` does not apply and a term-by-term sum is needed, which is not written out. The values 75 each are stated above, not proved.
- Efficiency: `Efficiency` is proved for complete games only, because without the empty coalition and the other keys it does not hold for the code (divide-the-dollar as listed gives 450 for a full coalition worth 300). It is stated for the exact classical values; the sum over players is an exact sum, not the floating-point one.
- The Python tests' expectation that the empty coalition is inserted, and that missing data raises an error, is not modelled, because the Rust code does neither.
