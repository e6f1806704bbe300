/** The Shapley engine of src/shapley.rs: the distinct player set, the worth
    mapping as the caller supplied it, the table of size weights and the
    weighted average of a player's marginal contributions. */
module ShapleyEngine {
  import opened Options
  import opened Coalitions
  import opened Binomials
  import opened SetSums

  /** `Shapley`: the full coalition and the worth mapping. Nothing changes
      them after construction; every query only reads them. */
  datatype Shapley = Shapley(fullCoalition: Coalition, coalitionWorth: WorthMap)

  /** `Shapley::new`: canonicalises the player list and stores the worth
      mapping exactly as given (no empty coalition is added). */
  function New(players: seq<Player>, coalitionWorth: WorthMap): (e: Shapley)
    ensures forall p :: p in e.fullCoalition <==> p in players
    ensures e.coalitionWorth == coalitionWorth
    // Follows from the line above; it spells out that no `{}` is added.
    ensures {} in e.coalitionWorth <==> {} in coalitionWorth
  {
    Shapley(FromMembers(players), coalitionWorth)
  }

  /** `n`, the number of distinct players. */
  function PlayerCount(e: Shapley): nat {
    Size(e.fullCoalition)
  }

  /** The weight `(1/n) / C(n-1, s)` of a coalition with `s` other members;
      it is positive. */
  function Weight(n: nat, s: nat): (w: real)
    requires s < n
    ensures w > 0.0
  {
    (1.0 / (n as real)) / (Binomial(n - 1, s) as real)
  }

  /** The `C(n-1, s)` coalitions of `s` other members together weigh `1/n`. */
  lemma SizeClassWeight(n: nat, s: nat)
    requires s < n
    ensures (Binomial(n - 1, s) as real) * Weight(n, s) == 1.0 / (n as real)
  {
  }

  /** `get_coalition_size_weights`: the table from size `s`, for every `s` in
      `0..n`, to `Weight(n, s)`. */
  method CoalitionSizeWeights(e: Shapley) returns (weights: map<nat, real>)
    ensures forall s: nat :: s in weights <==> s < PlayerCount(e)
    ensures forall s: nat :: s < PlayerCount(e) ==> weights[s] == Weight(PlayerCount(e), s)
  {
    weights := map[];
    var n := Size(e.fullCoalition);
    for size := 0 to n
      invariant forall s: nat :: s in weights <==> s < size
      invariant forall s: nat :: s < size ==> weights[s] == Weight(n, s)
    {
      weights := weights[size := Weight(n, size)];
    }
  }

  /** A key of the worth mapping that takes part in `player`'s value: it
      contains the player, and the coalition without the player is a key too.
      Other keys are skipped. */
  predicate Qualifies(e: Shapley, player: Player, c: Coalition) {
    c in e.coalitionWorth && player in c && Subtract(c, player) in e.coalitionWorth
  }

  /** What the table lookup at src/shapley.rs:63 needs in order not to fail:
      every qualifying key has at most `n` members, so its size less one is a
      key of the weight table. */
  ghost predicate WeightsDefined(e: Shapley, player: Player) {
    forall c {:trigger Qualifies(e, player, c)} :: Qualifies(e, player, c) ==> Size(c) <= PlayerCount(e)
  }

  /** `v(S) - v(S \ {player})`. */
  function Marginal(e: Shapley, player: Player, c: Coalition): real
    requires c in e.coalitionWorth && Subtract(c, player) in e.coalitionWorth
  {
    e.coalitionWorth[c] - e.coalitionWorth[Subtract(c, player)]
  }

  /** What one key adds to `total_weight`: the weight of its size less one if
      it qualifies, nothing otherwise. */
  function KeyWeight(e: Shapley, player: Player, c: Coalition): (w: real)
    requires WeightsDefined(e, player)
    ensures w >= 0.0
    ensures w > 0.0 <==> Qualifies(e, player, c)
  {
    if Qualifies(e, player, c) then Weight(PlayerCount(e), Size(c) - 1) else 0.0
  }

  /** What one key adds to `total_worth`: its weight times its marginal
      contribution if it qualifies, nothing otherwise. */
  function KeyWorth(e: Shapley, player: Player, c: Coalition): (x: real)
    requires WeightsDefined(e, player)
    ensures !Qualifies(e, player, c) ==> x == 0.0
  {
    if Qualifies(e, player, c) then KeyWeight(e, player, c) * Marginal(e, player, c) else 0.0
  }

  /** The per-key weights, as one function for `Sum`. */
  function WeightTerms(e: Shapley, player: Player): Coalition -> real
    requires WeightsDefined(e, player)
  {
    c => KeyWeight(e, player, c)
  }

  /** The per-key weighted contributions, as one function for `Sum`. */
  function WorthTerms(e: Shapley, player: Player): Coalition -> real
    requires WeightsDefined(e, player)
  {
    c => KeyWorth(e, player, c)
  }

  /** The result of the division at src/shapley.rs:69, with the zero-weight
      case (a NaN there) as `None`. */
  function Quotient(worth: real, weight: real): Option<real> {
    if weight == 0.0 then None else Some(worth / weight)
  }

  /** The value the loop of `shapley_value` computes: the weighted average of
      the marginal contributions of the qualifying keys. */
  ghost function Value(e: Shapley, player: Player): Option<real>
    requires WeightsDefined(e, player)
  {
    var keys := e.coalitionWorth.Keys;
    Quotient(Sum(keys, WorthTerms(e, player)), Sum(keys, WeightTerms(e, player)))
  }

  /** The weight table and the player count agree as `CoalitionSizeWeights`
      promises. */
  ghost predicate WeightTable(e: Shapley, weights: map<nat, real>) {
    (forall s: nat :: s in weights <==> s < PlayerCount(e)) &&
    (forall s: nat :: s < PlayerCount(e) ==> weights[s] == Weight(PlayerCount(e), s))
  }

  /** One pass of the loop body at src/shapley.rs:54-66 for one key: skip a
      key without the player or whose player-removed coalition is absent,
      otherwise add its weighted marginal contribution and its weight. */
  method VisitKey(e: Shapley, player: Player, weights: map<nat, real>, coalition: Coalition,
                  totalWorth: real, totalWeight: real)
    returns (newWorth: real, newWeight: real)
    requires WeightsDefined(e, player) && WeightTable(e, weights)
    requires coalition in e.coalitionWorth
    ensures newWorth == totalWorth + KeyWorth(e, player, coalition)
    ensures newWeight == totalWeight + KeyWeight(e, player, coalition)
  {
    newWorth, newWeight := totalWorth, totalWeight;
    if player in coalition {
      var withPlayer := Worth(coalition, e.coalitionWorth);
      if withPlayer.Some? {
        var withoutPlayer := Worth(Subtract(coalition, player), e.coalitionWorth);
        if withoutPlayer.Some? {
          assert Qualifies(e, player, coalition);
          var weight := weights[Size(coalition) - 1];
          newWorth := newWorth + weight * (withPlayer.value - withoutPlayer.value);
          newWeight := newWeight + weight;
        }
      }
    }
  }

  /** The loop at src/shapley.rs:53-67: visits every key of the worth mapping,
      in whatever order the map yields them, and adds up what `VisitKey` adds
      for each. */
  method AddUpKeys(e: Shapley, player: Player, weights: map<nat, real>)
    returns (totalWorth: real, totalWeight: real)
    requires WeightsDefined(e, player) && WeightTable(e, weights)
    ensures totalWorth == Sum(e.coalitionWorth.Keys, WorthTerms(e, player))
    ensures totalWeight == Sum(e.coalitionWorth.Keys, WeightTerms(e, player))
  {
    totalWorth, totalWeight := 0.0, 0.0;
    var remaining := e.coalitionWorth.Keys;
    ghost var visited: set<Coalition> := {};
    while remaining != {}
      invariant remaining + visited == e.coalitionWorth.Keys
      invariant remaining !! visited
      invariant totalWorth == Sum(visited, WorthTerms(e, player))
      invariant totalWeight == Sum(visited, WeightTerms(e, player))
      decreases remaining
    {
      var coalition :| coalition in remaining;
      SumInsert(visited, WorthTerms(e, player), coalition);
      SumInsert(visited, WeightTerms(e, player), coalition);
      totalWorth, totalWeight := VisitKey(e, player, weights, coalition, totalWorth, totalWeight);
      remaining := remaining - {coalition};
      visited := visited + {coalition};
    }
    assert visited == e.coalitionWorth.Keys;
  }

  /** `shapley_value`: builds the weight table, adds up the keys and divides
      the weighted contributions by the total weight; a zero total weight
      gives `None`. */
  method ShapleyValue(e: Shapley, player: Player) returns (r: Option<real>)
    requires WeightsDefined(e, player)
    ensures r == Value(e, player)
  {
    var weights := CoalitionSizeWeights(e);
    var totalWorth, totalWeight := AddUpKeys(e, player, weights);
    if totalWeight == 0.0 {
      r := None;
    } else {
      r := Some(totalWorth / totalWeight);
    }
  }
}
