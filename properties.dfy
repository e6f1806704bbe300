/** Properties of the value `shapley_value` computes: which keys count, when
    it fails, that the key order does not matter, that it is a weighted
    average of marginal contributions, and that interchangeable players get
    the same value. */
module ShapleyProperties {
  import opened Options
  import opened Coalitions
  import opened Binomials
  import opened SetSums
  import opened ShapleyEngine

  /** The table lookup at src/shapley.rs:63 cannot fail when every key of the
      worth mapping is drawn from the listed players. */
  lemma KeysWithinPlayers(e: Shapley, player: Player)
    requires forall c :: c in e.coalitionWorth ==> c <= e.fullCoalition
    ensures WeightsDefined(e, player)
  {
    forall c | Qualifies(e, player, c) ensures Size(c) <= PlayerCount(e) {
      SubsetSize(c, e.fullCoalition);
    }
  }

  /** The keys of the worth mapping that qualify for `player`. */
  ghost function QualifyingKeys(e: Shapley, player: Player): set<Coalition> {
    set c | c in e.coalitionWorth && Qualifies(e, player, c)
  }

  /** Only qualifying keys contribute: skipping the others changes neither
      total. */
  lemma OnlyQualifyingContribute(e: Shapley, player: Player)
    requires WeightsDefined(e, player)
    ensures Sum(e.coalitionWorth.Keys, WorthTerms(e, player)) ==
            Sum(QualifyingKeys(e, player), WorthTerms(e, player))
    ensures Sum(e.coalitionWorth.Keys, WeightTerms(e, player)) ==
            Sum(QualifyingKeys(e, player), WeightTerms(e, player))
  {
    SumRestrict(e.coalitionWorth.Keys, QualifyingKeys(e, player), WorthTerms(e, player));
    SumRestrict(e.coalitionWorth.Keys, QualifyingKeys(e, player), WeightTerms(e, player));
  }

  /** The query has no value exactly when no key qualifies: no key holds the
      player together with its player-removed coalition. */
  lemma NoValueIffNothingQualifies(e: Shapley, player: Player)
    requires WeightsDefined(e, player)
    ensures Value(e, player).None? <==> forall c :: !Qualifies(e, player, c)
  {
    var keys := e.coalitionWorth.Keys;
    SumNonNegative(keys, WeightTerms(e, player));
    if exists c :: Qualifies(e, player, c) {
      var c :| Qualifies(e, player, c);
      assert c in keys && WeightTerms(e, player)(c) > 0.0;
    }
  }

  /** The loop of `shapley_value` when the map yields its keys in the order
      of `order`. */
  function ValueAlong(e: Shapley, player: Player, order: seq<Coalition>): Option<real>
    requires WeightsDefined(e, player)
  {
    Quotient(SeqSum(order, WorthTerms(e, player)), SeqSum(order, WeightTerms(e, player)))
  }

  /** Whatever order the keys are visited in, the result is the same. */
  lemma AnyOrder(e: Shapley, player: Player, order: seq<Coalition>)
    requires WeightsDefined(e, player)
    requires Distinct(order) && Listed(order) == e.coalitionWorth.Keys
    ensures ValueAlong(e, player, order) == Value(e, player)
  {
    SumAlongListing(order, WorthTerms(e, player));
    SumAlongListing(order, WeightTerms(e, player));
  }

  lemma ScaleBetween(w: real, m: real, lo: real, hi: real)
    requires w > 0.0 && lo <= m <= hi
    ensures lo * w <= w * m <= hi * w
  {
  }

  lemma QuotientBetween(worth: real, weight: real, lo: real, hi: real)
    requires weight > 0.0
    requires lo * weight <= worth <= hi * weight
    ensures lo <= worth / weight <= hi
  {
  }

  /** Each key's weighted contribution lies between `lo` and `hi` times its
      weight. */
  lemma TermBetween(e: Shapley, player: Player, c: Coalition, lo: real, hi: real)
    requires WeightsDefined(e, player)
    requires forall c :: Qualifies(e, player, c) ==> lo <= Marginal(e, player, c) <= hi
    ensures lo * KeyWeight(e, player, c) <= KeyWorth(e, player, c) <= hi * KeyWeight(e, player, c)
  {
    if Qualifies(e, player, c) {
      ScaleBetween(KeyWeight(e, player, c), Marginal(e, player, c), lo, hi);
    }
  }

  /** Every key's terms satisfy `lo * weight <= worth <= hi * weight`. */
  lemma TermsBetween(e: Shapley, player: Player, lo: real, hi: real)
    requires WeightsDefined(e, player)
    requires forall c :: Qualifies(e, player, c) ==> lo <= Marginal(e, player, c) <= hi
    ensures forall c :: lo * WeightTerms(e, player)(c) <= WorthTerms(e, player)(c) <= hi * WeightTerms(e, player)(c)
  {
    forall c ensures lo * WeightTerms(e, player)(c) <= WorthTerms(e, player)(c) <= hi * WeightTerms(e, player)(c) {
      TermBetween(e, player, c, lo, hi);
    }
  }

  /** A quotient of two sums whose terms are bounded as in `TermsBetween`, and
      whose weights are non-negative, lies between the bounds. */
  lemma {:induction false} QuotientOfSumsBetween(keys: set<Coalition>, f: Coalition -> real, g: Coalition -> real,
                                                 lo: real, hi: real)
    requires forall c :: lo * g(c) <= f(c) <= hi * g(c)
    requires forall c :: g(c) >= 0.0
    ensures Quotient(Sum(keys, f), Sum(keys, g)).Some? ==>
              lo <= Quotient(Sum(keys, f), Sum(keys, g)).value <= hi
  {
    SumAtLeast(keys, f, g, lo);
    SumAtMost(keys, f, g, hi);
    SumNonNegative(keys, g);
    if Sum(keys, g) != 0.0 {
      QuotientBetween(Sum(keys, f), Sum(keys, g), lo, hi);
    }
  }

  /** The value is a weighted average: it lies between the smallest and the
      largest marginal contribution of the qualifying keys. In particular a
      player whose every marginal contribution is `d` gets `d`. */
  lemma ValueBetweenMarginals(e: Shapley, player: Player, lo: real, hi: real)
    requires WeightsDefined(e, player)
    requires forall c :: Qualifies(e, player, c) ==> lo <= Marginal(e, player, c) <= hi
    ensures Value(e, player).Some? ==> lo <= Value(e, player).value <= hi
  {
    TermsBetween(e, player, lo, hi);
    QuotientOfSumsBetween(e.coalitionWorth.Keys, WorthTerms(e, player), WeightTerms(e, player), lo, hi);
  }

  /** A player whose marginal contribution is `d` for every qualifying key,
      and for which some key qualifies, gets exactly `d`. */
  lemma UniformMarginals(e: Shapley, player: Player, d: real)
    requires WeightsDefined(e, player)
    requires forall c :: Qualifies(e, player, c) ==> Marginal(e, player, c) == d
    requires exists c :: Qualifies(e, player, c)
    ensures Value(e, player) == Some(d)
  {
    NoValueIffNothingQualifies(e, player);
    ValueBetweenMarginals(e, player, d, d);
  }

  /** Exchanges players `i` and `j` in a coalition. */
  function Swap(c: Coalition, i: Player, j: Player): (r: Coalition)
    ensures Size(r) == Size(c)
  {
    if (i in c) == (j in c) then c
    else if i in c then c - {i} + {j}
    else c - {j} + {i}
  }

  lemma SwapTwice(c: Coalition, i: Player, j: Player)
    ensures Swap(Swap(c, i, j), i, j) == c
  {
  }

  /** Players `i` and `j` are interchangeable: swapping them maps every key of
      the worth mapping to a key of the same worth. */
  ghost predicate Interchangeable(e: Shapley, i: Player, j: Player) {
    forall c {:trigger Swap(c, i, j)} :: c in e.coalitionWorth ==>
      Swap(c, i, j) in e.coalitionWorth && e.coalitionWorth[Swap(c, i, j)] == e.coalitionWorth[c]
  }

  lemma SwapQualifies(e: Shapley, i: Player, j: Player, c: Coalition)
    requires Interchangeable(e, i, j)
    ensures Qualifies(e, i, c) <==> Qualifies(e, j, Swap(c, i, j))
    ensures Qualifies(e, i, c) ==>
      Marginal(e, i, c) == Marginal(e, j, Swap(c, i, j))
  {
    var d := Swap(c, i, j);
    SwapTwice(c, i, j);
    if i in c {
      assert Subtract(d, j) == Swap(Subtract(c, i), i, j);
      SwapTwice(Subtract(c, i), i, j);
      if Subtract(d, j) in e.coalitionWorth {
        assert Swap(Subtract(d, j), i, j) == Subtract(c, i);
      }
    }
    if d in e.coalitionWorth {
      assert c == Swap(d, i, j);
    }
  }

  /** Swapping `i` and `j` carries each key's terms for `i` to the terms of
      the swapped key for `j`. */
  lemma SwapTerms(e: Shapley, i: Player, j: Player, c: Coalition)
    requires WeightsDefined(e, i) && WeightsDefined(e, j)
    requires Interchangeable(e, i, j)
    ensures KeyWorth(e, i, c) == KeyWorth(e, j, Swap(c, i, j))
    ensures KeyWeight(e, i, c) == KeyWeight(e, j, Swap(c, i, j))
  {
    SwapQualifies(e, i, j, c);
  }

  function SwapWith(i: Player, j: Player): Coalition -> Coalition {
    c => Swap(c, i, j)
  }

  /** Swapping `i` and `j` maps the keys onto themselves. */
  lemma SwapKeys(e: Shapley, i: Player, j: Player)
    requires Interchangeable(e, i, j)
    ensures (set c | c in e.coalitionWorth.Keys :: SwapWith(i, j)(c)) == e.coalitionWorth.Keys
  {
    var keys := e.coalitionWorth.Keys;
    forall c | c in keys ensures c in (set d | d in keys :: SwapWith(i, j)(d)) {
      SwapTwice(c, i, j);
      assert Swap(c, i, j) in keys;
      assert SwapWith(i, j)(Swap(c, i, j)) == c;
    }
  }

  /** Symmetry: two interchangeable players get the same value. */
  lemma Symmetry(e: Shapley, i: Player, j: Player)
    requires WeightsDefined(e, i) && WeightsDefined(e, j)
    requires Interchangeable(e, i, j)
    ensures Value(e, i) == Value(e, j)
  {
    var keys := e.coalitionWorth.Keys;
    var rename := SwapWith(i, j);
    forall a, b | rename(a) == rename(b) ensures a == b {
      SwapTwice(a, i, j);
      SwapTwice(b, i, j);
    }
    forall c ensures WorthTerms(e, i)(c) == WorthTerms(e, j)(rename(c))
                  && WeightTerms(e, i)(c) == WeightTerms(e, j)(rename(c)) {
      SwapTerms(e, i, j, c);
    }
    SumRenamed(keys, WorthTerms(e, i), WorthTerms(e, j), rename);
    SumRenamed(keys, WeightTerms(e, i), WeightTerms(e, j), rename);
    SwapKeys(e, i, j);
  }

  /** The combined weight `C(n-1, s) * w(s)` of the sizes `s < k`. */
  function SizeClassTotal(n: nat, k: nat): real
    requires k <= n
  {
    if k == 0 then 0.0
    else SizeClassTotal(n, k - 1) + (Binomial(n - 1, k - 1) as real) * Weight(n, k - 1)
  }

  lemma {:induction false} SizeClassTotals(n: nat, k: nat)
    requires 0 < n && k <= n
    ensures SizeClassTotal(n, k) == (k as real) / (n as real)
  {
    if k > 0 {
      SizeClassTotals(n, k - 1);
      SizeClassWeight(n, k - 1);
    }
  }

  /** Over all sizes the weights of the weight table, each counted once per
      coalition of that size among the other `n - 1` players, add up to one.
      This is arithmetic on the table alone; `CompleteGames.CompleteTotalWeight`
      states the same for the keys of a game that lists every coalition. */
  lemma WeightsSumToOne(n: nat)
    requires n > 0
    ensures SizeClassTotal(n, n) == 1.0
  {
    SizeClassTotals(n, n);
  }

  /** The table is symmetric in the size: `w(s) == w(n - 1 - s)`. */
  lemma WeightSymmetric(n: nat, s: nat)
    requires s < n
    ensures Weight(n, s) == Weight(n, n - 1 - s)
  {
    BinomialSymmetric(n - 1, s);
  }
}
