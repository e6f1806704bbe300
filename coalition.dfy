/** Optional values: the result of a map lookup, and the outcome of a Shapley
    value query whose total weight is zero. */
module Options {
  datatype Option<T> = None | Some(value: T)
}

/** A coalition is a canonical set of player ids: the order in which members are
    listed and repeated members do not matter (src/shapley.rs keeps them in a
    `BTreeSet<u64>`). */
module Coalitions {
  import opened Options

  type Player = nat
  type Coalition = set<Player>

  /** The worth mapping: coalition to worth. */
  type WorthMap = map<Coalition, real>

  /** No element occurs twice in the list. */
  predicate Distinct<T(==)>(xs: seq<T>) {
    forall i, j :: 0 <= i < j < |xs| ==> xs[i] != xs[j]
  }

  /** `Coalition::new`: collects the listed ids into a set. */
  function FromMembers(members: seq<Player>): (c: Coalition)
    ensures forall p :: p in c <==> p in members
  {
    if members == [] then {} else {members[0]} + FromMembers(members[1..])
  }

  /** `Coalition::size`: the number of members. */
  function Size(c: Coalition): (n: nat)
    ensures n == 0 <==> c == {}
    ensures forall p :: p in c ==> n >= 1
  {
    |c|
  }

  /** `Coalition::worth`: looks the coalition up in the worth mapping. */
  function Worth(c: Coalition, worths: WorthMap): (r: Option<real>)
    ensures r.Some? <==> c in worths
    ensures r.Some? ==> r.value == worths[c]
  {
    if c in worths then Some(worths[c]) else None
  }

  /** `Coalition::subtract`: a new coalition without `player`; the receiver is
      a value and is not changed. */
  function Subtract(c: Coalition, player: Player): (r: Coalition)
    ensures forall p :: p in r <==> p in c && p != player
    ensures player !in c ==> r == c
    ensures player in c ==> Size(r) == Size(c) - 1
  {
    c - {player}
  }

  /** Construction is canonical: two lists with the same ids, in any order and
      with any repetitions, give the same coalition. */
  lemma CanonicalConstruction(a: seq<Player>, b: seq<Player>)
    requires forall p :: p in a <==> p in b
    ensures FromMembers(a) == FromMembers(b)
  {
  }

  /** A non-empty list is duplicate-free exactly when its head does not recur
      and its tail is duplicate-free. */
  lemma DistinctCons<T>(xs: seq<T>)
    requires xs != []
    ensures Distinct(xs) <==> xs[0] !in xs[1..] && Distinct(xs[1..])
  {
    var rest := xs[1..];
    if Distinct(xs) {
      forall i, j | 0 <= i < j < |rest| ensures rest[i] != rest[j] {
        assert rest[i] == xs[i + 1] && rest[j] == xs[j + 1];
      }
      forall k | 0 <= k < |rest| ensures rest[k] != xs[0] {
        assert rest[k] == xs[k + 1];
      }
    }
    if xs[0] !in rest && Distinct(rest) {
      forall i, j | 0 <= i < j < |xs| ensures xs[i] != xs[j] {
        assert xs[j] == rest[j - 1];
        if i > 0 {
          assert xs[i] == rest[i - 1];
        }
      }
    }
  }

  /** The size of a constructed coalition is the number of distinct ids listed:
      never more than the length of the list, and equal to it exactly when no
      id is repeated. */
  lemma {:induction false} SizeCountsDistinct(members: seq<Player>)
    ensures Size(FromMembers(members)) <= |members|
    ensures Size(FromMembers(members)) == |members| <==> Distinct(members)
  {
    if members != [] {
      var rest := members[1..];
      SizeCountsDistinct(rest);
      DistinctCons(members);
      var tail := FromMembers(rest);
      assert FromMembers(members) == {members[0]} + tail;
      if members[0] in rest {
        assert FromMembers(members) == tail;
      } else {
        assert members[0] !in tail;
        assert |{members[0]} + tail| == |tail| + 1;
      }
    }
  }

  /** Removing a member and adding it back gives the coalition again, and the
      removed player is no longer a member. */
  lemma SubtractRoundTrip(c: Coalition, player: Player)
    requires player in c
    ensures player !in Subtract(c, player)
    ensures Subtract(c, player) + {player} == c
  {
  }

  /** A coalition drawn from the members of another has at most as many
      members. */
  lemma SubsetSize(c: Coalition, d: Coalition)
    requires c <= d
    ensures Size(c) <= Size(d)
  {
    assert d == c + (d - c);
  }

  /** The unit tests of src/shapley.rs: `[1,2,3]` has three members and equals
      `[3,2,1]`. */
  lemma ConstructionExamples()
    ensures Size(FromMembers([1, 2, 3])) == 3
    ensures FromMembers([1, 2, 3]) == FromMembers([3, 2, 1])
    ensures FromMembers([1, 2, 2, 1]) == FromMembers([2, 1])
  {
    assert FromMembers([1, 2, 3]) == {1, 2, 3};
  }
}
