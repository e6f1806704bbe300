/** Efficiency on complete games: the values `shapley_value` returns for the
    players add up to the worth of the full coalition less that of the empty
    one. The proof splits each classical value into what every coalition of
    the game contributes to it, exchanges the two sums and shows that every
    coalition other than the full and the empty one contributes nothing in
    total. */
module ShapleyEfficiency {
  import opened Options
  import opened Coalitions
  import opened Binomials
  import opened SetSums
  import opened ShapleyEngine
  import opened CompleteGames

  /** The classical weights of an `n`-player game, indexed by the number of
      other members. */
  function SizeWeights(n: nat): nat -> real {
    (s: nat) => if s < n then ClassicalWeight(n, s) else 0.0
  }

  /** The balance equations efficiency rests on, for size weights `wt`: the
      full coalition's members and the empty coalition's outsiders each weigh
      `1/n`, and in between a coalition's members and its outsiders balance. */
  predicate Balanced(n: nat, wt: nat -> real) {
    (n >= 1 ==> (n as real) * wt(n - 1) == 1.0 && (n as real) * wt(0) == 1.0) &&
    (forall s: nat | s < n :: BalancedAt(n, wt, s))
  }

  /** The members of a coalition with `s` members and the others balance. */
  predicate BalancedAt(n: nat, wt: nat -> real, s: nat) {
    0 < s < n ==> (s as real) * wt(s - 1) == ((n - s) as real) * wt(s)
  }

  /** What `s` adds to `player`'s value as the coalition the player joins
      last: the weight of its size less one times its worth. */
  function Gain(e: Shapley, wt: nat -> real, player: Player, s: Coalition): real {
    if player in s && s in e.coalitionWorth && 1 <= |s| <= PlayerCount(e)
    then wt(|s| - 1) * e.coalitionWorth[s]
    else 0.0
  }

  /** What `s` takes from `player`'s value as the coalition the player joins:
      the weight of its size times its worth. */
  function Loss(e: Shapley, wt: nat -> real, player: Player, s: Coalition): real {
    if player !in s && s in e.coalitionWorth && |s| < PlayerCount(e)
    then wt(|s|) * e.coalitionWorth[s]
    else 0.0
  }

  /** The share of coalition `s` in `player`'s value. */
  function ShareTable(e: Shapley, wt: nat -> real): (Player, Coalition) -> real {
    (p: Player, s: Coalition) => Gain(e, wt, p, s) - Loss(e, wt, p, s)
  }

  function GainTerms(e: Shapley, wt: nat -> real, player: Player): Coalition -> real {
    s => Gain(e, wt, player, s)
  }

  function AddedGainTerms(e: Shapley, wt: nat -> real, player: Player): Coalition -> real {
    t => Gain(e, wt, player, t + {player})
  }

  function LossTerms(e: Shapley, wt: nat -> real, player: Player): Coalition -> real {
    s => -Loss(e, wt, player, s)
  }

  lemma ContributionArith(x: real, a: real, w1: real, w0: real)
    requires x == a * (w1 - w0)
    ensures x == a * w1 + -(a * w0)
  {
  }

  /** The marginal contribution splits into the worth gained and the worth
      left behind. */
  lemma ContributionSplits(e: Shapley, player: Player, t: Coalition)
    requires player !in t && t in e.coalitionWorth && t + {player} in e.coalitionWorth
    requires |t| < PlayerCount(e)
    ensures ClassicalContribution(e, player)(t) ==
            AddedGainTerms(e, SizeWeights(PlayerCount(e)), player)(t) +
            LossTerms(e, SizeWeights(PlayerCount(e)), player)(t)
  {
    assert |t + {player}| == |t| + 1;
    ContributionArith(ClassicalContribution(e, player)(t), ClassicalWeight(PlayerCount(e), |t|),
                      e.coalitionWorth[t + {player}], e.coalitionWorth[t]);
  }

  /** The classical value, summed over the coalitions the player joins. */
  lemma ClassicalValueSplits(e: Shapley, player: Player)
    requires Complete(e) && player in e.fullCoalition
    ensures ClassicalValue(e, player) ==
            Sum(Subsets(e.fullCoalition - {player}), AddedGainTerms(e, SizeWeights(PlayerCount(e)), player)) +
            Sum(Subsets(e.fullCoalition - {player}), LossTerms(e, SizeWeights(PlayerCount(e)), player))
  {
    var rest := Subsets(e.fullCoalition - {player});
    var wt := SizeWeights(PlayerCount(e));
    forall t | t in rest
      ensures ClassicalContribution(e, player)(t) == AddedGainTerms(e, wt, player)(t) + LossTerms(e, wt, player)(t)
    {
      AddedKeys(e, player, t);
      SubsetSize(t, e.fullCoalition - {player});
      ContributionSplits(e, player, t);
    }
    SumAdd(rest, AddedGainTerms(e, wt, player), LossTerms(e, wt, player), ClassicalContribution(e, player));
  }

  /** The gains, summed over the coalitions that hold the player. */
  lemma GainsRenamed(e: Shapley, wt: nat -> real, player: Player)
    requires player in e.fullCoalition
    ensures Sum(Subsets(e.fullCoalition - {player}), AddedGainTerms(e, wt, player)) ==
            Sum(Subsets(e.fullCoalition), GainTerms(e, wt, player))
  {
    var rest := Subsets(e.fullCoalition - {player});
    SubsetsSplit(e.fullCoalition, player);
    AddPlayerInjective(rest, player);
    SumRenamed(rest, AddedGainTerms(e, wt, player), GainTerms(e, wt, player), AddPlayer(player));
    SumRestrict(Subsets(e.fullCoalition), Added(rest, player), GainTerms(e, wt, player));
  }

  /** The losses, summed over all coalitions of the game. */
  lemma LossesWidened(e: Shapley, wt: nat -> real, player: Player)
    requires player in e.fullCoalition
    ensures Sum(Subsets(e.fullCoalition - {player}), LossTerms(e, wt, player)) ==
            Sum(Subsets(e.fullCoalition), LossTerms(e, wt, player))
  {
    var rest := Subsets(e.fullCoalition - {player});
    SubsetsSplit(e.fullCoalition, player);
    forall s | s in Subsets(e.fullCoalition) && s !in rest ensures LossTerms(e, wt, player)(s) == 0.0 {
      assert player in s;
    }
    SumRestrict(Subsets(e.fullCoalition), rest, LossTerms(e, wt, player));
  }

  /** A player's classical value is the sum of the shares of all coalitions
      of the game. */
  lemma ClassicalValueShares(e: Shapley, player: Player)
    requires Complete(e) && player in e.fullCoalition
    ensures ClassicalValue(e, player) ==
            RowSums(Subsets(e.fullCoalition), ShareTable(e, SizeWeights(PlayerCount(e))))(player)
  {
    var wt := SizeWeights(PlayerCount(e));
    ClassicalValueSplits(e, player);
    GainsRenamed(e, wt, player);
    LossesWidened(e, wt, player);
    SumAdd(Subsets(e.fullCoalition), GainTerms(e, wt, player), LossTerms(e, wt, player), Row(ShareTable(e, wt), player));
  }

  lemma BalanceFactors(s: nat, k: nat, a0: nat, a1: nat, b0: nat, b1: nat, f: nat)
    requires f > 0 && a1 == s * a0 && b0 == k * b1
    ensures (s as real) * (((a0 * b0) as real) / (f as real)) == (k as real) * (((a1 * b1) as real) / (f as real))
  {
    CastTriple(a0, k, b1);
    CastTriple(s, a0, b1);
    assert (s as real) * ((a0 as real) * ((k as real) * (b1 as real))) ==
           (k as real) * (((s as real) * (a0 as real)) * (b1 as real));
  }

  /** Between the empty and the full coalition, the members' gains and the
      other players' losses balance: `s w(s-1) == (n-s) w(s)`. */
  lemma ClassicalBalance(n: nat, s: nat)
    requires 0 < s < n
    ensures (s as real) * ClassicalWeight(n, s - 1) == ((n - s) as real) * ClassicalWeight(n, s)
  {
    assert Factorial(s) == s * Factorial(s - 1);
    assert Factorial(n - s) == (n - s) * Factorial(n - 1 - s);
    assert n - 1 - (s - 1) == n - s;
    BalanceFactors(s, n - s, Factorial(s - 1), Factorial(s), Factorial(n - s), Factorial(n - 1 - s), Factorial(n));
  }

  lemma EndFactors(n: nat, a: nat, f: nat)
    requires n >= 1 && a > 0 && f == n * a
    ensures (n as real) * (((a * 1) as real) / (f as real)) == 1.0
    ensures (n as real) * (((1 * a) as real) / (f as real)) == 1.0
  {
    CastProduct(n, a);
    var nr, ar := n as real, a as real;
    assert nr * (ar / (nr * ar)) == 1.0;
  }

  /** The full coalition's members and the empty coalition's outsiders each
      weigh `1/n`. */
  lemma ClassicalEnds(n: nat)
    requires n >= 1
    ensures (n as real) * ClassicalWeight(n, n - 1) == 1.0
    ensures (n as real) * ClassicalWeight(n, 0) == 1.0
  {
    assert Factorial(n) == n * Factorial(n - 1);
    assert Factorial(0) == 1;
    EndFactors(n, Factorial(n - 1), Factorial(n));
  }

  lemma ClassicalBalanceAt(n: nat, s: nat)
    requires 0 < s < n
    ensures (s as real) * SizeWeights(n)(s - 1) == ((n - s) as real) * SizeWeights(n)(s)
  {
    ClassicalBalance(n, s);
    assert SizeWeights(n)(s - 1) == ClassicalWeight(n, s - 1);
    assert SizeWeights(n)(s) == ClassicalWeight(n, s);
  }

  /** The classical weights meet the balance equations. */
  lemma ClassicalBalanced(n: nat)
    ensures Balanced(n, SizeWeights(n))
  {
    if n >= 1 {
      ClassicalEnds(n);
      assert SizeWeights(n)(n - 1) == ClassicalWeight(n, n - 1);
      assert SizeWeights(n)(0) == ClassicalWeight(n, 0);
    }
    forall s: nat | s < n ensures BalancedAt(n, SizeWeights(n), s) {
      if 0 < s < n {
        ClassicalBalanceAt(n, s);
      }
    }
  }

  lemma ColumnArith(k: nat, r: nat, a: real, b: real, w: real, x: real, y: real)
    requires (k as real) * a == (r as real) * b && x == a * w && y == -(b * w)
    ensures Times(k, x) + Times(r, y) == 0.0
  {
    TimesIsProduct(k, x);
    TimesIsProduct(r, y);
    var kr, rr := k as real, r as real;
    assert kr * x == (kr * a) * w;
    assert rr * y == -((rr * b) * w);
  }

  lemma EdgeArith(n: nat, a: real, w: real, x: real, y: real)
    requires (n as real) * a == 1.0 && x == a * w
    ensures Times(n, x) + Times(0, y) == w
    ensures Times(0, y) + Times(n, -x) == -w
  {
    TimesIsProduct(n, x);
    TimesIsProduct(n, -x);
    assert (n as real) * (a * w) == ((n as real) * a) * w;
    assert (n as real) * -(a * w) == -(((n as real) * a) * w);
  }

  /** What each coalition contributes to the sum of all players' values:
      the full coalition its worth, the empty one minus its worth, every
      other coalition nothing. */
  function EdgeTerms(e: Shapley): Coalition -> real {
    s => if s in e.coalitionWorth && s == e.fullCoalition then e.coalitionWorth[s]
         else if s in e.coalitionWorth && s == {} then -e.coalitionWorth[s]
         else 0.0
  }

  /** A member's share of `s`. */
  function Inside(e: Shapley, wt: nat -> real, s: Coalition): real {
    if s in e.coalitionWorth && 1 <= |s| <= PlayerCount(e)
    then wt(|s| - 1) * e.coalitionWorth[s]
    else 0.0
  }

  /** Another player's share of `s`. */
  function Outside(e: Shapley, wt: nat -> real, s: Coalition): real {
    if s in e.coalitionWorth && |s| < PlayerCount(e)
    then -(wt(|s|) * e.coalitionWorth[s])
    else 0.0
  }

  /** The players outside `s` number `n - |s|`. */
  lemma OutsidersCount(f: set<Player>, s: set<Player>)
    requires s <= f
    ensures |f - s| == |f| - |s|
  {
    assert f == s + (f - s);
  }

  /** A coalition that leaves out some player is smaller. */
  lemma ProperSubsetSmaller(s: set<Player>, f: set<Player>)
    requires s <= f && s != f
    ensures |s| < |f|
  {
    var x :| x in f && x !in s;
    SubsetSize(s, f - {x});
  }

  /** Summed over the players, the shares of `s` count its members' shares
      and the others'. */
  lemma ColumnCount(e: Shapley, wt: nat -> real, s: Coalition)
    requires s <= e.fullCoalition
    ensures |s| <= PlayerCount(e)
    ensures ColumnSums(e.fullCoalition, ShareTable(e, wt))(s) ==
            Times(|s|, Inside(e, wt, s)) + Times(PlayerCount(e) - |s|, Outside(e, wt, s))
  {
    var f := e.fullCoalition;
    SubsetSize(s, f);
    ColumnShape(e, wt, s);
    PlayerSumCount(f, s, Column(ShareTable(e, wt), s), Inside(e, wt, s), Outside(e, wt, s));
    OutsidersCount(f, s);
  }

  /** Every member of `s` has the member's share of it, every other player
      the other players' share. */
  lemma ColumnShape(e: Shapley, wt: nat -> real, s: Coalition)
    ensures forall p :: Column(ShareTable(e, wt), s)(p) == if p in s then Inside(e, wt, s) else Outside(e, wt, s)
  {
  }

  /** The full coalition's members share out its worth. */
  lemma FullColumn(e: Shapley, wt: nat -> real)
    requires Balanced(PlayerCount(e), wt)
    requires e.fullCoalition in e.coalitionWorth && e.fullCoalition != {}
    ensures Times(PlayerCount(e), Inside(e, wt, e.fullCoalition)) + Times(0, Outside(e, wt, e.fullCoalition)) ==
            e.coalitionWorth[e.fullCoalition]
  {
    var n := PlayerCount(e);
    var f := e.fullCoalition;
    assert n >= 1;
    assert Inside(e, wt, f) == wt(n - 1) * e.coalitionWorth[f];
    EdgeArith(n, wt(n - 1), e.coalitionWorth[f], Inside(e, wt, f), Outside(e, wt, f));
  }

  /** The other players together take out the empty coalition's worth. */
  lemma EmptyColumn(e: Shapley, wt: nat -> real, s: Coalition)
    requires Balanced(PlayerCount(e), wt)
    requires s == {} && s in e.coalitionWorth && e.fullCoalition != {}
    ensures Times(0, Inside(e, wt, s)) + Times(PlayerCount(e), Outside(e, wt, s)) == -e.coalitionWorth[s]
  {
    var n := PlayerCount(e);
    assert n >= 1 && |s| == 0;
    assert Outside(e, wt, s) == -(wt(0) * e.coalitionWorth[s]);
    EdgeArith(n, wt(0), e.coalitionWorth[s], -Outside(e, wt, s), Inside(e, wt, s));
  }

  /** In any other coalition the members' gains and the others' losses
      cancel. */
  lemma InnerColumn(e: Shapley, wt: nat -> real, s: Coalition)
    requires Balanced(PlayerCount(e), wt)
    requires s in e.coalitionWorth && 0 < |s| < PlayerCount(e)
    ensures Times(|s|, Inside(e, wt, s)) + Times(PlayerCount(e) - |s|, Outside(e, wt, s)) == 0.0
  {
    var n := PlayerCount(e);
    assert BalancedAt(n, wt, |s|);
    assert Inside(e, wt, s) == wt(|s| - 1) * e.coalitionWorth[s];
    assert Outside(e, wt, s) == -(wt(|s|) * e.coalitionWorth[s]);
    ColumnArith(|s|, n - |s|, wt(|s| - 1), wt(|s|), e.coalitionWorth[s], Inside(e, wt, s), Outside(e, wt, s));
  }

  /** Summed over the players, the shares of a coalition come to what
      `EdgeTerms` says. */
  lemma ColumnSum(e: Shapley, wt: nat -> real, s: Coalition)
    requires Balanced(PlayerCount(e), wt)
    requires s <= e.fullCoalition && s in e.coalitionWorth && e.fullCoalition != {}
    ensures ColumnSums(e.fullCoalition, ShareTable(e, wt))(s) == EdgeTerms(e)(s)
  {
    ColumnCount(e, wt, s);
    if s == e.fullCoalition {
      FullColumn(e, wt);
    } else if s == {} {
      EmptyColumn(e, wt, s);
    } else {
      ProperSubsetSmaller(s, e.fullCoalition);
      InnerColumn(e, wt, s);
    }
  }

  /** Only the full and the empty coalition are left. */
  lemma EdgeSum(e: Shapley)
    requires Complete(e) && e.fullCoalition != {}
    ensures e.fullCoalition in e.coalitionWorth && {} in e.coalitionWorth
    ensures Sum(Subsets(e.fullCoalition), EdgeTerms(e)) ==
            e.coalitionWorth[e.fullCoalition] - e.coalitionWorth[{}]
  {
    var f := e.fullCoalition;
    var none: Coalition := {};
    var nothing: set<Coalition> := {};
    assert f in Subsets(f) && none in Subsets(f);
    SumRestrict(Subsets(f), {f, none}, EdgeTerms(e));
    SumInsert({none}, EdgeTerms(e), f);
    SumInsert(nothing, EdgeTerms(e), none);
    assert {none} + {f} == {f, none};
    assert nothing + {none} == {none};
  }

  /** Every player's classical value, as a function of the player. */
  ghost function ClassicalValues(e: Shapley): Player -> real {
    (p: Player) => ClassicalValue(e, p)
  }

  /** Efficiency: on a complete game `shapley_value` returns every listed
      player's classical value, and these values add up to the worth of the
      full coalition less that of the empty one. */
  lemma Efficiency(e: Shapley)
    requires Complete(e)
    ensures forall p :: p in e.fullCoalition ==> WeightsDefined(e, p) && Value(e, p) == Some(ClassicalValues(e)(p))
    ensures e.fullCoalition in e.coalitionWorth && {} in e.coalitionWorth
    ensures PlayerSum(e.fullCoalition, ClassicalValues(e)) ==
            e.coalitionWorth[e.fullCoalition] - e.coalitionWorth[{}]
  {
    var f := e.fullCoalition;
    forall p | p in f ensures WeightsDefined(e, p) && Value(e, p) == Some(ClassicalValues(e)(p)) {
      CompleteIsClassical(e, p);
    }
    assert f in Subsets(f) && {} in Subsets(f);
    if f != {} {
      var wt := SizeWeights(PlayerCount(e));
      var g := ShareTable(e, wt);
      ClassicalBalanced(PlayerCount(e));
      forall p | p in f ensures ClassicalValues(e)(p) == RowSums(Subsets(f), g)(p) {
        ClassicalValueShares(e, p);
      }
      PlayerSumEqual(f, ClassicalValues(e), RowSums(Subsets(f), g));
      SumsExchange(f, Subsets(f), g);
      forall s | s in Subsets(f) ensures ColumnSums(f, g)(s) == EdgeTerms(e)(s) {
        ColumnSum(e, wt, s);
      }
      SumEqual(Subsets(f), ColumnSums(f, g), EdgeTerms(e));
      EdgeSum(e);
    }
  }
}
