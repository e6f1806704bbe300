/** Games that list every coalition of the players, the empty one included.
    On such a game the weights `shapley_value` adds up come to one, and its
    result is the classical Shapley value: the average over the coalitions
    of the other players, weighted by `s! (n-1-s)! / n!`, of the player's
    marginal contribution. */
module CompleteGames {
  import opened Options
  import opened Coalitions
  import opened Binomials
  import opened SetSums
  import opened ShapleyEngine
  import opened ShapleyProperties

  /** Every coalition drawn from `g`. */
  ghost function Subsets(g: set<Player>): set<Coalition> {
    set t: Coalition | t <= g
  }

  /** The worth mapping has a key for exactly the coalitions of the players. */
  ghost predicate Complete(e: Shapley) {
    e.coalitionWorth.Keys == Subsets(e.fullCoalition)
  }

  function AddPlayer(x: Player): Coalition -> Coalition {
    t => t + {x}
  }

  /** The coalitions of `ts`, each with `x` added. */
  ghost function Added(ts: set<Coalition>, x: Player): set<Coalition> {
    set t | t in ts :: AddPlayer(x)(t)
  }

  /** The coalitions of `g` are those without `x` and those with it. */
  lemma SubsetsSplit(g: set<Player>, x: Player)
    requires x in g
    ensures Subsets(g) == Subsets(g - {x}) + Added(Subsets(g - {x}), x)
    ensures Subsets(g - {x}) !! Added(Subsets(g - {x}), x)
  {
    var rest := Subsets(g - {x});
    forall t | t in Subsets(g) ensures t in rest + Added(rest, x) {
      if x in t {
        assert t - {x} in rest;
        assert t == AddPlayer(x)(t - {x});
      }
    }
  }

  /** Adding a player not yet in the coalitions is injective on them. */
  lemma AddPlayerInjective(ts: set<Coalition>, x: Player)
    requires forall t :: t in ts ==> x !in t
    ensures forall a, b :: a in ts && b in ts && AddPlayer(x)(a) == AddPlayer(x)(b) ==> a == b
  {
    forall a, b | a in ts && b in ts && AddPlayer(x)(a) == AddPlayer(x)(b) ensures a == b {
      assert a == AddPlayer(x)(a) - {x};
      assert b == AddPlayer(x)(b) - {x};
    }
  }

  /** `s! (n-1-s)! / n!`: the classical Shapley weight of a coalition of `s`
      of the other `n - 1` players. */
  function ClassicalWeight(n: nat, s: nat): (w: real)
    requires s < n
    ensures w > 0.0
  {
    ((Factorial(s) * Factorial(n - 1 - s)) as real) / (Factorial(n) as real)
  }

  lemma CastProduct(x: nat, y: nat)
    ensures ((x * y) as real) == (x as real) * (y as real)
  {
  }

  lemma WeightArith(n: real, c: real, a: real, fm: real, fn: real)
    requires n > 0.0 && c > 0.0 && a > 0.0
    requires c * a == fm && fn == n * fm
    ensures (1.0 / n) / c == a / fn
  {
    assert fn == n * c * a;
  }

  /** The arithmetic of `WeightIsClassical`, on plain numbers. */
  lemma WeightFactors(n: nat, c: nat, x: nat, y: nat, fm: nat, fn: nat)
    requires n > 0 && c > 0 && x > 0 && y > 0
    requires c * x * y == fm && fn == n * fm
    ensures (1.0 / (n as real)) / (c as real) == ((x * y) as real) / (fn as real)
  {
    assert c * (x * y) == fm;
    CastProduct(c, x * y);
    CastProduct(n, fm);
    WeightArith(n as real, c as real, (x * y) as real, fm as real, fn as real);
  }

  /** The weight table holds the classical weights: `(1/n) / C(n-1, s)` is
      `s! (n-1-s)! / n!`. */
  lemma WeightIsClassical(n: nat, s: nat)
    requires s < n
    ensures Weight(n, s) == ClassicalWeight(n, s)
  {
    BinomialFactorial(n - 1, s);
    assert Factorial(n) == n * Factorial(n - 1);
    WeightFactors(n, Binomial(n - 1, s), Factorial(s), Factorial(n - 1 - s), Factorial(n - 1), Factorial(n));
  }

  lemma StepArith(x1: real, x2: real, d: real, a: real, b: real, f: real, p: real, q: real)
    requires b > 0.0 && f > 0.0 && p >= 0.0 && q >= 0.0 && p + q > 0.0
    requires x1 == a * (p * b) && x2 == (q * a) * b && d == (p + q) * f
    ensures x1 / d + x2 / d == (a * b) / f
  {
    assert x1 + x2 == (a * b) * (p + q);
    assert x1 / d + x2 / d == ((a * b) * (p + q)) / d;
  }

  lemma CastTriple(x: nat, y: nat, z: nat)
    ensures ((x * (y * z)) as real) == (x as real) * ((y as real) * (z as real))
    ensures (((x * y) * z) as real) == ((x as real) * (y as real)) * (z as real)
  {
    CastProduct(x, y * z);
    CastProduct(y, z);
    CastProduct(x * y, z);
    CastProduct(x, y);
  }

  /** The arithmetic of `ClassicalWeightStep`, on plain numbers. */
  lemma StepFactors(m: nat, s: nat, a: nat, b: nat, f: nat, fms: nat, fs1: nat, fm1: nat)
    requires s < m && b > 0 && f > 0
    requires fms == (m - s) * b && fs1 == (s + 1) * a && fm1 == (m + 1) * f
    ensures ((a * fms) as real) / (fm1 as real) + ((fs1 * b) as real) / (fm1 as real) ==
            ((a * b) as real) / (f as real)
  {
    var k := m - s;
    CastTriple(a, k, b);
    CastTriple(s + 1, a, b);
    CastProduct(m + 1, f);
    CastProduct(a, b);
    StepArith((a * fms) as real, (fs1 * b) as real, fm1 as real,
              a as real, b as real, f as real, k as real, (s + 1) as real);
  }

  /** A coalition of `s` of the other `m - 1` players weighs, with one more
      player in the game, as much as itself and itself with the new player
      together. */
  lemma ClassicalWeightStep(m: nat, s: nat)
    requires s < m
    ensures ClassicalWeight(m + 1, s) + ClassicalWeight(m + 1, s + 1) == ClassicalWeight(m, s)
  {
    assert Factorial(m - s) == (m - s) * Factorial(m - 1 - s);
    assert Factorial(s + 1) == (s + 1) * Factorial(s);
    assert Factorial(m + 1) == (m + 1) * Factorial(m);
    StepFactors(m, s, Factorial(s), Factorial(m - 1 - s), Factorial(m),
                Factorial(m - s), Factorial(s + 1), Factorial(m + 1));
  }

  /** The classical weight of each coalition, by its size. */
  function ClassicalTerms(n: nat): Coalition -> real {
    c => if |c| < n then ClassicalWeight(n, |c|) else 0.0
  }

  /** The classical weight of each coalition with one more member. */
  function ShiftedTerms(n: nat): Coalition -> real {
    c => if |c| + 1 < n then ClassicalWeight(n, |c| + 1) else 0.0
  }

  /** Adding a new player to every coalition adds one to each size. */
  lemma AddedSum(ts: set<Coalition>, x: Player, n: nat)
    requires forall t :: t in ts ==> x !in t
    ensures Sum(Added(ts, x), ClassicalTerms(n)) == Sum(ts, ShiftedTerms(n))
  {
    AddPlayerInjective(ts, x);
    forall t | t in ts ensures ShiftedTerms(n)(t) == ClassicalTerms(n)(AddPlayer(x)(t)) {
      assert |t + {x}| == |t| + 1;
    }
    SumRenamed(ts, ShiftedTerms(n), ClassicalTerms(n), AddPlayer(x));
  }

  /** With one more player, a coalition of the old players and the same
      coalition with the new player together weigh what the coalition
      weighed before. */
  lemma ClassicalTermsStep(g: set<Player>)
    ensures Sum(Subsets(g), ClassicalTerms(|g| + 1)) ==
            Sum(Subsets(g), ClassicalTerms(|g| + 2)) + Sum(Subsets(g), ShiftedTerms(|g| + 2))
  {
    var m := |g| + 1;
    forall t | t in Subsets(g)
      ensures ClassicalTerms(m)(t) == ClassicalTerms(m + 1)(t) + ShiftedTerms(m + 1)(t)
    {
      SubsetSize(t, g);
      ClassicalWeightStep(m, |t|);
    }
    SumAdd(Subsets(g), ClassicalTerms(m + 1), ShiftedTerms(m + 1), ClassicalTerms(m));
  }

  /** The classical weights of all coalitions of the other players add up to
      one. */
  lemma {:induction false} ClassicalWeightsSumToOne(g: set<Player>)
    ensures Sum(Subsets(g), ClassicalTerms(|g| + 1)) == 1.0
    decreases g
  {
    if g == {} {
      NoOtherPlayers(g);
    } else {
      var x :| x in g;
      var rest := Subsets(g - {x});
      var n := |g| + 1;
      assert |g - {x}| + 1 == |g|;
      SubsetsSplit(g, x);
      SumDisjointUnion(rest, Added(rest, x), ClassicalTerms(n));
      AddedSum(rest, x, n);
      ClassicalTermsStep(g - {x});
      ClassicalWeightsSumToOne(g - {x});
      assert Sum(rest, ClassicalTerms(|g|)) == Sum(rest, ClassicalTerms(n)) + Sum(rest, ShiftedTerms(n));
    }
  }

  /** With no other players, the one coalition, the empty one, weighs one. */
  lemma NoOtherPlayers(g: set<Player>)
    requires g == {}
    ensures Sum(Subsets(g), ClassicalTerms(|g| + 1)) == 1.0
  {
    forall t | t in Subsets(g) ensures t == {} {
      assert forall p :: p !in t;
    }
    assert {} in Subsets(g);
    assert Subsets(g) == {} + {{}};
    SumInsert({}, ClassicalTerms(1), {});
  }

  /** The keys of a complete game are drawn from the players, so the table
      lookup never fails. */
  lemma CompleteWeightsDefined(e: Shapley, player: Player)
    requires Complete(e)
    ensures WeightsDefined(e, player)
  {
    KeysWithinPlayers(e, player);
  }

  /** In a complete game the keys that qualify for a player are exactly the
      coalitions of the other players, each with the player added. */
  lemma CompleteQualifying(e: Shapley, player: Player)
    requires Complete(e) && player in e.fullCoalition
    ensures forall t :: t in Subsets(e.fullCoalition - {player}) ==> player !in t
    ensures forall t :: t in Subsets(e.fullCoalition - {player}) ==>
      Qualifies(e, player, AddPlayer(player)(t)) && Subtract(AddPlayer(player)(t), player) == t &&
      Size(AddPlayer(player)(t)) - 1 == |t|
    ensures forall c :: c in e.coalitionWorth && c !in Added(Subsets(e.fullCoalition - {player}), player) ==>
      !Qualifies(e, player, c)
    ensures Added(Subsets(e.fullCoalition - {player}), player) <= e.coalitionWorth.Keys
  {
    SubsetsSplit(e.fullCoalition, player);
    forall t | t in Subsets(e.fullCoalition - {player})
      ensures Subtract(AddPlayer(player)(t), player) == t && Size(AddPlayer(player)(t)) - 1 == |t|
    {
      assert player !in t;
      assert |t + {player}| == |t| + 1;
    }
  }

  /** Only the coalitions with the player added carry weight. */
  lemma CompleteWeightsRestricted(e: Shapley, player: Player)
    requires Complete(e) && player in e.fullCoalition
    ensures WeightsDefined(e, player)
    ensures Sum(e.coalitionWorth.Keys, WeightTerms(e, player)) ==
            Sum(Added(Subsets(e.fullCoalition - {player}), player), WeightTerms(e, player))
  {
    CompleteWeightsDefined(e, player);
    CompleteQualifying(e, player);
    SumRestrict(e.coalitionWorth.Keys, Added(Subsets(e.fullCoalition - {player}), player), WeightTerms(e, player));
  }

  /** The coalition `t` of the other players, with the player added, carries
      the classical weight of `|t|`. */
  lemma CompleteWeightsRenamed(e: Shapley, player: Player)
    requires Complete(e) && player in e.fullCoalition
    ensures WeightsDefined(e, player)
    ensures Sum(Subsets(e.fullCoalition - {player}), ClassicalTerms(PlayerCount(e))) ==
            Sum(Added(Subsets(e.fullCoalition - {player}), player), WeightTerms(e, player))
  {
    CompleteWeightsDefined(e, player);
    var others := e.fullCoalition - {player};
    var rest := Subsets(others);
    CompleteQualifying(e, player);
    AddPlayerInjective(rest, player);
    forall t | t in rest
      ensures ClassicalTerms(PlayerCount(e))(t) == WeightTerms(e, player)(AddPlayer(player)(t))
    {
      SubsetSize(t, others);
      WeightIsClassical(PlayerCount(e), |t|);
    }
    SumRenamed(rest, ClassicalTerms(PlayerCount(e)), WeightTerms(e, player), AddPlayer(player));
  }

  /** On a complete game the weights `shapley_value` adds up come to one, for
      every listed player. */
  lemma CompleteTotalWeight(e: Shapley, player: Player)
    requires Complete(e) && player in e.fullCoalition
    ensures WeightsDefined(e, player)
    ensures Sum(e.coalitionWorth.Keys, WeightTerms(e, player)) == 1.0
  {
    CompleteWeightsRestricted(e, player);
    CompleteWeightsRenamed(e, player);
    ClassicalWeightsSumToOne(e.fullCoalition - {player});
    assert |e.fullCoalition - {player}| + 1 == PlayerCount(e);
  }

  /** What a coalition `t` of the other players adds to the classical Shapley
      value: its classical weight times the player's marginal contribution to
      it. */
  function ClassicalContribution(e: Shapley, player: Player): Coalition -> real {
    t => if |t| < PlayerCount(e) && t in e.coalitionWorth && t + {player} in e.coalitionWorth
         then ClassicalWeight(PlayerCount(e), |t|) * (e.coalitionWorth[t + {player}] - e.coalitionWorth[t])
         else 0.0
  }

  /** The classical Shapley value: the weighted sum, over the coalitions of
      the other players, of the player's marginal contribution. */
  ghost function ClassicalValue(e: Shapley, player: Player): real {
    Sum(Subsets(e.fullCoalition - {player}), ClassicalContribution(e, player))
  }

  /** Only the coalitions with the player added contribute. */
  lemma CompleteWorthRestricted(e: Shapley, player: Player)
    requires Complete(e) && player in e.fullCoalition
    ensures WeightsDefined(e, player)
    ensures Sum(e.coalitionWorth.Keys, WorthTerms(e, player)) ==
            Sum(Added(Subsets(e.fullCoalition - {player}), player), WorthTerms(e, player))
  {
    CompleteWeightsDefined(e, player);
    CompleteQualifying(e, player);
    SumRestrict(e.coalitionWorth.Keys, Added(Subsets(e.fullCoalition - {player}), player), WorthTerms(e, player));
  }

  /** For a coalition `t` of the other players, `t` and `t` with the player
      added are keys of a complete game. */
  lemma AddedKeys(e: Shapley, player: Player, t: Coalition)
    requires Complete(e) && player in e.fullCoalition
    requires t in Subsets(e.fullCoalition - {player})
    ensures WeightsDefined(e, player)
    ensures player !in t && t in e.coalitionWorth && t + {player} in e.coalitionWorth
  {
    CompleteWeightsDefined(e, player);
  }

  /** A key with the player added, whose player-removed coalition is a key,
      adds the weight of its size less one times the marginal contribution. */
  lemma KeyWorthAt(e: Shapley, player: Player, t: Coalition)
    requires WeightsDefined(e, player)
    requires player !in t && t in e.coalitionWorth && t + {player} in e.coalitionWorth
    ensures |t| < PlayerCount(e)
    ensures WorthTerms(e, player)(t + {player}) ==
            Weight(PlayerCount(e), |t|) * (e.coalitionWorth[t + {player}] - e.coalitionWorth[t])
  {
    var c := t + {player};
    assert Subtract(c, player) == t;
    assert Qualifies(e, player, c);
  }

  /** The coalition `t` of the other players, with the player added, adds
      what `t` adds to the classical value. */
  lemma ContributionMatches(e: Shapley, player: Player, t: Coalition)
    requires WeightsDefined(e, player)
    requires player !in t && t in e.coalitionWorth && t + {player} in e.coalitionWorth
    ensures ClassicalContribution(e, player)(t) == WorthTerms(e, player)(AddPlayer(player)(t))
  {
    KeyWorthAt(e, player, t);
    ClassicalAt(e, player, t);
    WeightIsClassical(PlayerCount(e), |t|);
    SameProduct(ClassicalContribution(e, player)(t), WorthTerms(e, player)(t + {player}),
                ClassicalWeight(PlayerCount(e), |t|), Weight(PlayerCount(e), |t|),
                e.coalitionWorth[t + {player}] - e.coalitionWorth[t]);
  }

  lemma SameProduct(x: real, y: real, a: real, b: real, m: real)
    requires x == a * m && y == b * m && a == b
    ensures x == y
  {
  }

  lemma ClassicalAt(e: Shapley, player: Player, t: Coalition)
    requires |t| < PlayerCount(e) && t in e.coalitionWorth && t + {player} in e.coalitionWorth
    ensures ClassicalContribution(e, player)(t) ==
            ClassicalWeight(PlayerCount(e), |t|) * (e.coalitionWorth[t + {player}] - e.coalitionWorth[t])
  {
  }

  lemma CompleteWorthRenamed(e: Shapley, player: Player)
    requires Complete(e) && player in e.fullCoalition
    ensures WeightsDefined(e, player)
    ensures ClassicalValue(e, player) ==
            Sum(Added(Subsets(e.fullCoalition - {player}), player), WorthTerms(e, player))
  {
    CompleteWeightsDefined(e, player);
    var rest := Subsets(e.fullCoalition - {player});
    CompleteQualifying(e, player);
    AddPlayerInjective(rest, player);
    forall t | t in rest
      ensures ClassicalContribution(e, player)(t) == WorthTerms(e, player)(AddPlayer(player)(t))
    {
      AddedKeys(e, player, t);
      ContributionMatches(e, player, t);
    }
    SumRenamed(rest, ClassicalContribution(e, player), WorthTerms(e, player), AddPlayer(player));
  }

  /** On a complete game `shapley_value` returns the classical Shapley value
      of every listed player. */
  lemma CompleteIsClassical(e: Shapley, player: Player)
    requires Complete(e) && player in e.fullCoalition
    ensures WeightsDefined(e, player)
    ensures Value(e, player) == Some(ClassicalValue(e, player))
  {
    CompleteTotalWeight(e, player);
    CompleteWorthRestricted(e, player);
    CompleteWorthRenamed(e, player);
  }
}
