/** The worked examples of src/shapley.rs and of the Python tests, evaluated
    for the code as written: the worth mapping is used exactly as given and a
    key whose player-removed coalition is absent is skipped. */
module ShapleyExamples {
  import opened Options
  import opened Coalitions
  import opened Binomials
  import opened SetSums
  import opened ShapleyEngine
  import opened ShapleyProperties

  /** The weight tables for one, two and three players. */
  lemma SmallWeights()
    ensures Weight(1, 0) == 1.0
    ensures Weight(2, 0) == 0.5 && Weight(2, 1) == 0.5
    ensures Weight(3, 0) == 1.0 / 3.0 && Weight(3, 1) == 1.0 / 6.0 && Weight(3, 2) == 1.0 / 3.0
  {
    assert Binomial(1, 1) == 1;
    assert Binomial(2, 1) == 2;
    assert Binomial(2, 2) == 1;
  }

  /** The terms of a qualifying key: its weight and its weighted marginal
      contribution. */
  lemma QualifyingTerms(e: Shapley, player: Player, c: Coalition, w: real, m: real)
    requires WeightsDefined(e, player) && Qualifies(e, player, c)
    requires Weight(PlayerCount(e), Size(c) - 1) == w
    requires e.coalitionWorth[c] - e.coalitionWorth[c - {player}] == m
    ensures WeightTerms(e, player)(c) == w && WorthTerms(e, player)(c) == w * m
  {
  }

  /** The terms of a key that does not qualify are zero. */
  lemma SkippedTerms(e: Shapley, player: Player, c: Coalition)
    requires WeightsDefined(e, player) && !Qualifies(e, player, c)
    ensures WeightTerms(e, player)(c) == 0.0 && WorthTerms(e, player)(c) == 0.0
  {
  }

  /** The value read off the sums along a listing of the keys. */
  lemma ValueOf(e: Shapley, player: Player, order: seq<Coalition>, worth: real, weight: real)
    requires WeightsDefined(e, player)
    requires Distinct(order) && Listed(order) == e.coalitionWorth.Keys
    requires SeqSum(order, WorthTerms(e, player)) == worth && SeqSum(order, WeightTerms(e, player)) == weight
    ensures Value(e, player) == Quotient(worth, weight)
  {
    AnyOrder(e, player, order);
  }

  lemma SeqSum1(a: Coalition, f: Coalition -> real)
    ensures SeqSum([a], f) == f(a)
  {
    assert [a][1..] == [];
  }

  lemma SeqSum2(a: Coalition, b: Coalition, f: Coalition -> real)
    ensures SeqSum([a, b], f) == f(a) + f(b)
  {
    assert [a, b][1..] == [b];
    SeqSum1(b, f);
  }

  lemma SeqSum3(a: Coalition, b: Coalition, c: Coalition, f: Coalition -> real)
    ensures SeqSum([a, b, c], f) == f(a) + f(b) + f(c)
  {
    assert [a, b, c][1..] == [b, c];
    SeqSum2(b, c, f);
  }

  lemma SeqSum4(a: Coalition, b: Coalition, c: Coalition, d: Coalition, f: Coalition -> real)
    ensures SeqSum([a, b, c, d], f) == f(a) + f(b) + f(c) + f(d)
  {
    assert [a, b, c, d][1..] == [b, c, d];
    SeqSum3(b, c, d, f);
  }

  /** The game of the unit test at src/shapley.rs:103-116, which lists no
      empty coalition. */
  function UnitTestGame(): Shapley {
    New([1, 2], map[{1} := 10.0, {2} := 20.0, {1, 2} := 30.0])
  }

  lemma UnitTestSetup()
    ensures PlayerCount(UnitTestGame()) == 2
    ensures WeightsDefined(UnitTestGame(), 1)
    ensures Distinct([{1}, {2}, {1, 2}])
    ensures Listed([{1}, {2}, {1, 2}]) == UnitTestGame().coalitionWorth.Keys
  {
    var e := UnitTestGame();
    assert e.fullCoalition == {1, 2};
    KeysWithinPlayers(e, 1);
    assert Listed([{1}, {2}, {1, 2}]) == e.coalitionWorth.Keys;
  }

  lemma UnitTestTerms()
    ensures WeightsDefined(UnitTestGame(), 1)
    ensures WorthTerms(UnitTestGame(), 1)({1}) == 0.0 && WeightTerms(UnitTestGame(), 1)({1}) == 0.0
    ensures WorthTerms(UnitTestGame(), 1)({2}) == 0.0 && WeightTerms(UnitTestGame(), 1)({2}) == 0.0
    ensures WorthTerms(UnitTestGame(), 1)({1, 2}) == 5.0 && WeightTerms(UnitTestGame(), 1)({1, 2}) == 0.5
  {
    var e := UnitTestGame();
    UnitTestSetup();
    SmallWeights();
    assert {1} - {1} == {};
    SkippedTerms(e, 1, {1});
    SkippedTerms(e, 1, {2});
    assert {1, 2} - {1} == {2};
    QualifyingTerms(e, 1, {1, 2}, 0.5, 10.0);
  }

  /** The unit test: player 1 gets 10 even without the empty coalition, since
      `{1, 2}` alone qualifies, with marginal contribution `30 - 20`. */
  lemma UnitTestValue()
    ensures WeightsDefined(UnitTestGame(), 1)
    ensures Value(UnitTestGame(), 1) == Some(10.0)
  {
    var e := UnitTestGame();
    UnitTestSetup();
    UnitTestTerms();
    SeqSum3({1}, {2}, {1, 2}, WorthTerms(e, 1));
    SeqSum3({1}, {2}, {1, 2}, WeightTerms(e, 1));
    ValueOf(e, 1, [{1}, {2}, {1, 2}], 5.0, 0.5);
  }

  /** The two-player game of bindings/python/tests/test_shapley.py:29-41,
      which lists the empty coalition. */
  function TwoPlayerGame(): Shapley {
    New([1, 2], map[{} := 0.0, {1} := 10.0, {2} := 20.0, {1, 2} := 30.0])
  }

  lemma TwoPlayerSetup()
    ensures PlayerCount(TwoPlayerGame()) == 2
    ensures WeightsDefined(TwoPlayerGame(), 1) && WeightsDefined(TwoPlayerGame(), 2)
    ensures WeightsDefined(TwoPlayerGame(), 3)
    ensures Distinct([{}, {1}, {2}, {1, 2}])
    ensures Listed([{}, {1}, {2}, {1, 2}]) == TwoPlayerGame().coalitionWorth.Keys
  {
    var e := TwoPlayerGame();
    assert e.fullCoalition == {1, 2};
    KeysWithinPlayers(e, 1);
    KeysWithinPlayers(e, 2);
    KeysWithinPlayers(e, 3);
    assert Listed([{}, {1}, {2}, {1, 2}]) == e.coalitionWorth.Keys;
  }

  lemma TwoPlayerTerms1()
    ensures WeightsDefined(TwoPlayerGame(), 1)
    ensures WorthTerms(TwoPlayerGame(), 1)({}) == 0.0 && WeightTerms(TwoPlayerGame(), 1)({}) == 0.0
    ensures WorthTerms(TwoPlayerGame(), 1)({1}) == 5.0 && WeightTerms(TwoPlayerGame(), 1)({1}) == 0.5
    ensures WorthTerms(TwoPlayerGame(), 1)({2}) == 0.0 && WeightTerms(TwoPlayerGame(), 1)({2}) == 0.0
    ensures WorthTerms(TwoPlayerGame(), 1)({1, 2}) == 5.0 && WeightTerms(TwoPlayerGame(), 1)({1, 2}) == 0.5
  {
    var e := TwoPlayerGame();
    TwoPlayerSetup();
    SmallWeights();
    SkippedTerms(e, 1, {});
    SkippedTerms(e, 1, {2});
    assert {1} - {1} == {};
    QualifyingTerms(e, 1, {1}, 0.5, 10.0);
    assert {1, 2} - {1} == {2};
    QualifyingTerms(e, 1, {1, 2}, 0.5, 10.0);
  }

  lemma TwoPlayerTerms2()
    ensures WeightsDefined(TwoPlayerGame(), 2)
    ensures WorthTerms(TwoPlayerGame(), 2)({}) == 0.0 && WeightTerms(TwoPlayerGame(), 2)({}) == 0.0
    ensures WorthTerms(TwoPlayerGame(), 2)({1}) == 0.0 && WeightTerms(TwoPlayerGame(), 2)({1}) == 0.0
    ensures WorthTerms(TwoPlayerGame(), 2)({2}) == 10.0 && WeightTerms(TwoPlayerGame(), 2)({2}) == 0.5
    ensures WorthTerms(TwoPlayerGame(), 2)({1, 2}) == 10.0 && WeightTerms(TwoPlayerGame(), 2)({1, 2}) == 0.5
  {
    var e := TwoPlayerGame();
    TwoPlayerSetup();
    SmallWeights();
    SkippedTerms(e, 2, {});
    SkippedTerms(e, 2, {1});
    assert {2} - {2} == {};
    QualifyingTerms(e, 2, {2}, 0.5, 20.0);
    assert {1, 2} - {2} == {1};
    QualifyingTerms(e, 2, {1, 2}, 0.5, 20.0);
  }

  /** With the empty coalition listed, players 1 and 2 get 10 and 20. */
  lemma TwoPlayerValues()
    ensures WeightsDefined(TwoPlayerGame(), 1) && WeightsDefined(TwoPlayerGame(), 2)
    ensures Value(TwoPlayerGame(), 1) == Some(10.0)
    ensures Value(TwoPlayerGame(), 2) == Some(20.0)
  {
    var e := TwoPlayerGame();
    var order := [{}, {1}, {2}, {1, 2}];
    TwoPlayerSetup();
    TwoPlayerTerms1();
    TwoPlayerTerms2();
    SeqSum4({}, {1}, {2}, {1, 2}, WorthTerms(e, 1));
    SeqSum4({}, {1}, {2}, {1, 2}, WeightTerms(e, 1));
    SeqSum4({}, {1}, {2}, {1, 2}, WorthTerms(e, 2));
    SeqSum4({}, {1}, {2}, {1, 2}, WeightTerms(e, 2));
    ValueOf(e, 1, order, 10.0, 1.0);
    ValueOf(e, 2, order, 20.0, 1.0);
  }

  /** A player that is in no key has no value: the error case of
      bindings/python/tests/test_shapley.py:152-166 is a zero total weight
      here. */
  lemma UnknownPlayerValue()
    ensures WeightsDefined(TwoPlayerGame(), 3)
    ensures Value(TwoPlayerGame(), 3) == None
  {
    var e := TwoPlayerGame();
    TwoPlayerSetup();
    forall c | c in e.coalitionWorth ensures 3 !in c {
      assert c in Listed([{}, {1}, {2}, {1, 2}]);
    }
    NoValueIffNothingQualifies(e, 3);
  }

  /** The single-player game of bindings/python/tests/test_shapley.py:140-149. */
  function SinglePlayerGame(): Shapley {
    New([1], map[{} := 0.0, {1} := 100.0])
  }

  /** The only player gets the worth of the full coalition, 100. */
  lemma SinglePlayerSetup()
    ensures SinglePlayerGame().fullCoalition == {1} && PlayerCount(SinglePlayerGame()) == 1
    ensures WeightsDefined(SinglePlayerGame(), 1)
    ensures Listed([{}, {1}]) == SinglePlayerGame().coalitionWorth.Keys
  {
    var e := SinglePlayerGame();
    assert e.fullCoalition == {1};
    KeysWithinPlayers(e, 1);
  }

  lemma SinglePlayerValue()
    ensures WeightsDefined(SinglePlayerGame(), 1)
    ensures Value(SinglePlayerGame(), 1) == Some(100.0)
  {
    var e := SinglePlayerGame();
    SinglePlayerSetup();
    SmallWeights();
    SkippedTerms(e, 1, {});
    assert {1} - {1} == {};
    QualifyingTerms(e, 1, {1}, 1.0, 100.0);
    SeqSum2({}, {1}, WorthTerms(e, 1));
    SeqSum2({}, {1}, WeightTerms(e, 1));
    ValueOf(e, 1, [{}, {1}], 100.0, 1.0);
  }

  /** The game of bindings/python/tests/test_shapley.py:5-14 lists only
      `{1}`: as written the query has no value, and the empty coalition is
      not added for it. */
  lemma NoEmptyCoalitionAdded()
    ensures WeightsDefined(New([1], map[{1} := 5.0]), 1)
    ensures Value(New([1], map[{1} := 5.0]), 1) == None
  {
    var e := New([1], map[{1} := 5.0]);
    assert e.fullCoalition == {1};
    KeysWithinPlayers(e, 1);
    assert {1} - {1} == {};
    forall c ensures !Qualifies(e, 1, c) {
    }
    NoValueIffNothingQualifies(e, 1);
  }

  /** The game of bindings/python/tests/test_shapley.py:17-26 lists only
      `{1, 2}`: the query has no value rather than an error. */
  lemma MissingDataValue()
    ensures WeightsDefined(New([1, 2], map[{1, 2} := 10.0]), 1)
    ensures Value(New([1, 2], map[{1, 2} := 10.0]), 1) == None
  {
    var e := New([1, 2], map[{1, 2} := 10.0]);
    assert e.fullCoalition == {1, 2};
    KeysWithinPlayers(e, 1);
    assert {1, 2} - {1} == {2};
    forall c ensures !Qualifies(e, 1, c) {
    }
    NoValueIffNothingQualifies(e, 1);
  }

  /** The zero-sum game of bindings/python/tests/test_shapley.py:122-137. */
  function ZeroSumGame(): Shapley {
    New([1, 2], map[{} := 0.0, {1} := 5.0, {2} := -5.0, {1, 2} := 0.0])
  }

  lemma ZeroSumSetup()
    ensures PlayerCount(ZeroSumGame()) == 2
    ensures WeightsDefined(ZeroSumGame(), 1) && WeightsDefined(ZeroSumGame(), 2)
    ensures Distinct([{}, {1}, {2}, {1, 2}])
    ensures Listed([{}, {1}, {2}, {1, 2}]) == ZeroSumGame().coalitionWorth.Keys
  {
    var e := ZeroSumGame();
    assert e.fullCoalition == {1, 2};
    KeysWithinPlayers(e, 1);
    KeysWithinPlayers(e, 2);
    assert Listed([{}, {1}, {2}, {1, 2}]) == e.coalitionWorth.Keys;
  }

  lemma ZeroSumTerms1()
    ensures WeightsDefined(ZeroSumGame(), 1)
    ensures WorthTerms(ZeroSumGame(), 1)({}) == 0.0 && WeightTerms(ZeroSumGame(), 1)({}) == 0.0
    ensures WorthTerms(ZeroSumGame(), 1)({1}) == 2.5 && WeightTerms(ZeroSumGame(), 1)({1}) == 0.5
    ensures WorthTerms(ZeroSumGame(), 1)({2}) == 0.0 && WeightTerms(ZeroSumGame(), 1)({2}) == 0.0
    ensures WorthTerms(ZeroSumGame(), 1)({1, 2}) == 2.5 && WeightTerms(ZeroSumGame(), 1)({1, 2}) == 0.5
  {
    var e := ZeroSumGame();
    ZeroSumSetup();
    SmallWeights();
    SkippedTerms(e, 1, {});
    SkippedTerms(e, 1, {2});
    assert {1} - {1} == {};
    QualifyingTerms(e, 1, {1}, 0.5, 5.0);
    assert {1, 2} - {1} == {2};
    QualifyingTerms(e, 1, {1, 2}, 0.5, 5.0);
  }

  lemma ZeroSumTerms2()
    ensures WeightsDefined(ZeroSumGame(), 2)
    ensures WorthTerms(ZeroSumGame(), 2)({}) == 0.0 && WeightTerms(ZeroSumGame(), 2)({}) == 0.0
    ensures WorthTerms(ZeroSumGame(), 2)({1}) == 0.0 && WeightTerms(ZeroSumGame(), 2)({1}) == 0.0
    ensures WorthTerms(ZeroSumGame(), 2)({2}) == -2.5 && WeightTerms(ZeroSumGame(), 2)({2}) == 0.5
    ensures WorthTerms(ZeroSumGame(), 2)({1, 2}) == -2.5 && WeightTerms(ZeroSumGame(), 2)({1, 2}) == 0.5
  {
    var e := ZeroSumGame();
    ZeroSumSetup();
    SmallWeights();
    SkippedTerms(e, 2, {});
    SkippedTerms(e, 2, {1});
    assert {2} - {2} == {};
    QualifyingTerms(e, 2, {2}, 0.5, -5.0);
    assert {1, 2} - {2} == {1};
    QualifyingTerms(e, 2, {1, 2}, 0.5, -5.0);
  }

  /** The players get 5 and -5, which add up to the worth 0 of the full
      coalition. */
  lemma ZeroSumValues()
    ensures WeightsDefined(ZeroSumGame(), 1) && WeightsDefined(ZeroSumGame(), 2)
    ensures Value(ZeroSumGame(), 1) == Some(5.0)
    ensures Value(ZeroSumGame(), 2) == Some(-5.0)
    ensures Value(ZeroSumGame(), 1).value + Value(ZeroSumGame(), 2).value == 0.0
  {
    var e := ZeroSumGame();
    var order := [{}, {1}, {2}, {1, 2}];
    ZeroSumSetup();
    ZeroSumTerms1();
    ZeroSumTerms2();
    SeqSum4({}, {1}, {2}, {1, 2}, WorthTerms(e, 1));
    SeqSum4({}, {1}, {2}, {1, 2}, WeightTerms(e, 1));
    SeqSum4({}, {1}, {2}, {1, 2}, WorthTerms(e, 2));
    SeqSum4({}, {1}, {2}, {1, 2}, WeightTerms(e, 2));
    ValueOf(e, 1, order, 5.0, 1.0);
    ValueOf(e, 2, order, -5.0, 1.0);
  }

  /** Every coalition of players 1, 2 and 3, by size. */
  function ThreePlayerOrder(): seq<Coalition> {
    [{}, {1}, {2}, {3}, {1, 2}, {1, 3}, {2, 3}, {1, 2, 3}]
  }

  lemma ThreePlayerOrderFacts()
    ensures Distinct(ThreePlayerOrder())
    ensures forall c :: c in ThreePlayerOrder() ==> c <= {1, 2, 3}
    ensures {} in ThreePlayerOrder()
    ensures {1} in ThreePlayerOrder() && {2} in ThreePlayerOrder() && {3} in ThreePlayerOrder()
  {
  }

  /** The symmetric game of bindings/python/tests/test_shapley.py:97-119:
      every coalition of the three players is listed and is worth 10 per
      member. */
  function SymmetricGame(): Shapley {
    New([1, 2, 3], map c | c in ThreePlayerOrder() :: 10.0 * (|c| as real))
  }

  lemma SymmetricPlayers()
    ensures SymmetricGame().fullCoalition == {1, 2, 3} && PlayerCount(SymmetricGame()) == 3
  {
  }

  lemma SymmetricListed()
    ensures Listed(ThreePlayerOrder()) == SymmetricGame().coalitionWorth.Keys
  {
  }

  lemma SymmetricKeys()
    ensures forall c :: c in SymmetricGame().coalitionWorth ==> c <= SymmetricGame().fullCoalition
  {
    SymmetricPlayers();
    ThreePlayerOrderFacts();
  }

  lemma SymmetricSetup()
    ensures PlayerCount(SymmetricGame()) == 3
    ensures WeightsDefined(SymmetricGame(), 1) && WeightsDefined(SymmetricGame(), 2)
    ensures WeightsDefined(SymmetricGame(), 3)
    ensures Distinct(ThreePlayerOrder()) && Listed(ThreePlayerOrder()) == SymmetricGame().coalitionWorth.Keys
  {
    var e := SymmetricGame();
    SymmetricPlayers();
    SymmetricListed();
    SymmetricKeys();
    ThreePlayerOrderFacts();
    KeysWithinPlayers(e, 1);
    KeysWithinPlayers(e, 2);
    KeysWithinPlayers(e, 3);
  }

  lemma SingletonListed(player: Player)
    requires 1 <= player <= 3
    ensures {player} in ThreePlayerOrder()
  {
    if player == 1 {
      assert {player} == {1};
    } else if player == 2 {
      assert {player} == {2};
    } else {
      assert {player} == {3};
    }
  }

  lemma SymmetricMarginals(player: Player)
    ensures forall c :: Qualifies(SymmetricGame(), player, c) ==> Marginal(SymmetricGame(), player, c) == 10.0
  {
    var e := SymmetricGame();
    forall c | Qualifies(e, player, c) ensures Marginal(e, player, c) == 10.0 {
      assert Size(Subtract(c, player)) == Size(c) - 1;
    }
  }

  lemma SymmetricSingleton(player: Player)
    requires 1 <= player <= 3
    ensures Qualifies(SymmetricGame(), player, {player})
  {
    ThreePlayerOrderFacts();
    assert {player} - {player} == {};
    SingletonListed(player);
  }

  /** Every player gets 10: each marginal contribution is `10 * |S| -
      10 * (|S| - 1)`. In particular the three values are equal. */
  lemma SymmetricValue(player: Player)
    requires 1 <= player <= 3
    ensures WeightsDefined(SymmetricGame(), player)
    ensures Value(SymmetricGame(), player) == Some(10.0)
  {
    SymmetricSetup();
    SymmetricMarginals(player);
    SymmetricSingleton(player);
    UniformMarginals(SymmetricGame(), player, 10.0);
  }

  /** The divide-the-dollar game of bindings/python/tests/test_shapley.py:44-63:
      a coalition is worth 300 when it holds player 1 and someone else. As
      listed there the empty coalition is absent. */
  function DivideTheDollarGame(): Shapley {
    New([1, 2, 3], map c | c in NonEmptyOrder() :: if 1 in c && |c| >= 2 then 300.0 else 0.0)
  }

  /** The non-empty coalitions of players 1, 2 and 3. */
  function NonEmptyOrder(): seq<Coalition> {
    [{1}, {2}, {3}, {1, 2}, {1, 3}, {2, 3}, {1, 2, 3}]
  }

  lemma NonEmptyOrderFacts()
    ensures {} !in NonEmptyOrder()
    ensures {1, 2} in NonEmptyOrder() && {2} in NonEmptyOrder()
    ensures forall c :: c in NonEmptyOrder() ==> c <= {1, 2, 3}
  {
  }

  /** As written, player 1 gets 300 rather than the 200 of the literature:
      `{1}` is skipped because `{}` is no key, and every other key holding
      player 1 has marginal contribution 300. */
  lemma DivideTheDollarValue()
    ensures WeightsDefined(DivideTheDollarGame(), 1)
    ensures Value(DivideTheDollarGame(), 1) == Some(300.0)
  {
    var e := DivideTheDollarGame();
    assert e.fullCoalition == {1, 2, 3};
    NonEmptyOrderFacts();
    KeysWithinPlayers(e, 1);
    forall c | Qualifies(e, 1, c) ensures Marginal(e, 1, c) == 300.0 {
      assert Subtract(c, 1) != {};
      assert Size(c) >= 2;
    }
    assert {1, 2} - {1} == {2};
    assert Qualifies(e, 1, {1, 2});
    UniformMarginals(e, 1, 300.0);
  }
}
