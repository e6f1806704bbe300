/** Sums of a real-valued function over a finite set of coalitions, taken in
    no particular order: the model of adding up over the keys of a `HashMap`,
    whose iteration order is unspecified. */
module SetSums {
  import opened Coalitions

  ghost function Sum(keys: set<Coalition>, f: Coalition -> real): real
    decreases keys
  {
    if keys == {} then 0.0
    else
      var c :| c in keys;
      f(c) + Sum(keys - {c}, f)
  }

  /** Any element may be taken out first. */
  lemma {:induction false} SumRemove(keys: set<Coalition>, f: Coalition -> real, c: Coalition)
    requires c in keys
    ensures Sum(keys, f) == f(c) + Sum(keys - {c}, f)
    decreases keys
  {
    var d :| d in keys && Sum(keys, f) == f(d) + Sum(keys - {d}, f);
    if d != c {
      assert keys - {d} - {c} == keys - {c} - {d};
      SumRemove(keys - {d}, f, c);
      SumRemove(keys - {c}, f, d);
    }
  }

  /** Adding one new element adds its value. */
  lemma SumInsert(keys: set<Coalition>, f: Coalition -> real, c: Coalition)
    requires c !in keys
    ensures Sum(keys + {c}, f) == Sum(keys, f) + f(c)
  {
    SumRemove(keys + {c}, f, c);
    assert keys + {c} - {c} == keys;
  }

  /** Elements where `f` is zero can be dropped. */
  lemma {:induction false} SumRestrict(keys: set<Coalition>, sub: set<Coalition>, f: Coalition -> real)
    requires sub <= keys
    requires forall c :: c in keys && c !in sub ==> f(c) == 0.0
    ensures Sum(keys, f) == Sum(sub, f)
    decreases keys
  {
    if keys != {} {
      var c :| c in keys;
      SumRemove(keys, f, c);
      SumRestrict(keys - {c}, sub - {c}, f);
      if c in sub {
        SumRemove(sub, f, c);
      } else {
        assert sub - {c} == sub;
      }
    }
  }

  /** The sum over two disjoint sets is the sum of their sums. */
  lemma {:induction false} SumDisjointUnion(a: set<Coalition>, b: set<Coalition>, f: Coalition -> real)
    requires a !! b
    ensures Sum(a + b, f) == Sum(a, f) + Sum(b, f)
    decreases b
  {
    if b == {} {
      assert a + b == a;
    } else {
      var c :| c in b;
      SumRemove(b, f, c);
      SumDisjointUnion(a, b - {c}, f);
      assert a + b == (a + (b - {c})) + {c};
      SumInsert(a + (b - {c}), f, c);
    }
  }

  /** Sums add up termwise. */
  lemma {:induction false} SumAdd(keys: set<Coalition>, f: Coalition -> real, g: Coalition -> real,
                                  fg: Coalition -> real)
    requires forall c :: c in keys ==> fg(c) == f(c) + g(c)
    ensures Sum(keys, fg) == Sum(keys, f) + Sum(keys, g)
    decreases keys
  {
    if keys != {} {
      var c :| c in keys;
      SumRemove(keys, f, c);
      SumRemove(keys, g, c);
      SumRemove(keys, fg, c);
      SumAdd(keys - {c}, f, g, fg);
    }
  }

  /** A sum of non-negative terms is non-negative, and positive exactly when
      some term is. */
  lemma {:induction false} SumNonNegative(keys: set<Coalition>, f: Coalition -> real)
    requires forall c :: c in keys ==> f(c) >= 0.0
    ensures Sum(keys, f) >= 0.0
    ensures Sum(keys, f) > 0.0 <==> exists c :: c in keys && f(c) > 0.0
    decreases keys
  {
    if keys != {} {
      var c :| c in keys;
      SumRemove(keys, f, c);
      SumNonNegative(keys - {c}, f);
      if f(c) <= 0.0 && exists d :: d in keys && f(d) > 0.0 {
        var d :| d in keys && f(d) > 0.0;
        assert d in keys - {c};
      }
    }
  }

  /** A pointwise lower bound `lo * g <= f` carries over to the sums. */
  lemma {:induction false} SumAtLeast(keys: set<Coalition>, f: Coalition -> real, g: Coalition -> real, lo: real)
    requires forall c {:trigger f(c)} :: c in keys ==> lo * g(c) <= f(c)
    ensures lo * Sum(keys, g) <= Sum(keys, f)
    decreases keys
  {
    if keys != {} {
      var c :| c in keys;
      SumRemove(keys, f, c);
      SumRemove(keys, g, c);
      SumAtLeast(keys - {c}, f, g, lo);
      ScaledSum(lo, g(c), Sum(keys - {c}, g), Sum(keys, g));
    }
  }

  /** A pointwise upper bound `f <= hi * g` carries over to the sums. */
  lemma {:induction false} SumAtMost(keys: set<Coalition>, f: Coalition -> real, g: Coalition -> real, hi: real)
    requires forall c {:trigger f(c)} :: c in keys ==> f(c) <= hi * g(c)
    ensures Sum(keys, f) <= hi * Sum(keys, g)
    decreases keys
  {
    if keys != {} {
      var c :| c in keys;
      SumRemove(keys, f, c);
      SumRemove(keys, g, c);
      SumAtMost(keys - {c}, f, g, hi);
      ScaledSum(hi, g(c), Sum(keys - {c}, g), Sum(keys, g));
    }
  }

  lemma ScaledSum(k: real, g1: real, g2: real, gs: real)
    requires gs == g1 + g2
    ensures k * gs == k * g1 + k * g2
  {
  }

  /** Renaming the elements by an injective `rename` that carries `f` to `g`
      leaves the sum unchanged. */
  lemma {:induction false} SumRenamed(keys: set<Coalition>, f: Coalition -> real, g: Coalition -> real,
                                      rename: Coalition -> Coalition)
    requires forall a, b :: a in keys && b in keys && rename(a) == rename(b) ==> a == b
    requires forall c :: c in keys ==> f(c) == g(rename(c))
    ensures Sum(keys, f) == Sum(set c | c in keys :: rename(c), g)
    decreases keys
  {
    if keys != {} {
      var c :| c in keys;
      var image := set d | d in keys :: rename(d);
      var restImage := set d | d in keys - {c} :: rename(d);
      assert restImage == image - {rename(c)};
      SumRemove(keys, f, c);
      SumRenamed(keys - {c}, f, g, rename);
      SumRemove(image, g, rename(c));
    }
  }

  /** The sum of `f` along a list, first element first. */
  function SeqSum(xs: seq<Coalition>, f: Coalition -> real): real {
    if xs == [] then 0.0 else f(xs[0]) + SeqSum(xs[1..], f)
  }

  function Listed(xs: seq<Coalition>): set<Coalition> {
    set c | c in xs
  }

  /** Summing along any duplicate-free listing of a set gives its sum. */
  lemma {:induction false} SumAlongListing(xs: seq<Coalition>, f: Coalition -> real)
    requires Distinct(xs)
    ensures SeqSum(xs, f) == Sum(Listed(xs), f)
  {
    if xs != [] {
      DistinctCons(xs);
      SumAlongListing(xs[1..], f);
      SumRemove(Listed(xs), f, xs[0]);
      assert Listed(xs) - {xs[0]} == Listed(xs[1..]);
    }
  }

  /** Sums with equal terms are equal. */
  lemma {:induction false} SumEqual(keys: set<Coalition>, f: Coalition -> real, g: Coalition -> real)
    requires forall c :: c in keys ==> f(c) == g(c)
    ensures Sum(keys, f) == Sum(keys, g)
    decreases keys
  {
    if keys != {} {
      var c :| c in keys;
      SumRemove(keys, f, c);
      SumRemove(keys, g, c);
      SumEqual(keys - {c}, f, g);
    }
  }

  /** The sum of a function over a finite set of players. */
  ghost function PlayerSum(players: set<Player>, f: Player -> real): real
    decreases players
  {
    if players == {} then 0.0
    else
      var p :| p in players;
      f(p) + PlayerSum(players - {p}, f)
  }

  /** Any player may be taken out first. */
  lemma {:induction false} PlayerSumRemove(players: set<Player>, f: Player -> real, p: Player)
    requires p in players
    ensures PlayerSum(players, f) == f(p) + PlayerSum(players - {p}, f)
    decreases players
  {
    var q :| q in players && PlayerSum(players, f) == f(q) + PlayerSum(players - {q}, f);
    if q != p {
      assert players - {q} - {p} == players - {p} - {q};
      PlayerSumRemove(players - {q}, f, p);
      PlayerSumRemove(players - {p}, f, q);
    }
  }

  /** Sums over players with equal terms are equal. */
  lemma {:induction false} PlayerSumEqual(players: set<Player>, f: Player -> real, g: Player -> real)
    requires forall p :: p in players ==> f(p) == g(p)
    ensures PlayerSum(players, f) == PlayerSum(players, g)
    decreases players
  {
    if players != {} {
      var p :| p in players;
      PlayerSumRemove(players, f, p);
      PlayerSumRemove(players, g, p);
      PlayerSumEqual(players - {p}, f, g);
    }
  }

  /** `k` copies of `a` added up. */
  function Times(k: nat, a: real): real {
    if k == 0 then 0.0 else a + Times(k - 1, a)
  }

  lemma {:induction false} TimesIsProduct(k: nat, a: real)
    ensures Times(k, a) == (k as real) * a
  {
    if k > 0 {
      TimesIsProduct(k - 1, a);
    }
  }

  /** Summing `inside` for the members of `s` and `outside` for the other
      players counts each. */
  lemma {:induction false} PlayerSumCount(players: set<Player>, s: set<Player>, f: Player -> real,
                                          inside: real, outside: real)
    requires s <= players
    requires forall p :: p in players ==> f(p) == if p in s then inside else outside
    ensures PlayerSum(players, f) == Times(|s|, inside) + Times(|players - s|, outside)
    decreases players
  {
    if players == {} {
      assert s == {};
    } else {
      var p :| p in players;
      PlayerSumRemove(players, f, p);
      PlayerSumCount(players - {p}, s - {p}, f, inside, outside);
      if p in s {
        CountMember(players, s, p);
      } else {
        CountOther(players, s, p);
      }
    }
  }

  lemma CountMember(players: set<Player>, s: set<Player>, p: Player)
    requires s <= players && p in s
    ensures |s - {p}| + 1 == |s| && (players - {p}) - (s - {p}) == players - s
  {
  }

  lemma CountOther(players: set<Player>, s: set<Player>, p: Player)
    requires s <= players && p in players && p !in s
    ensures s - {p} == s && |(players - {p}) - (s - {p})| + 1 == |players - s|
  {
    assert players - s == ((players - {p}) - (s - {p})) + {p};
  }

  function Row(g: (Player, Coalition) -> real, p: Player): Coalition -> real {
    (c: Coalition) => g(p, c)
  }

  function Column(g: (Player, Coalition) -> real, c: Coalition): Player -> real {
    (p: Player) => g(p, c)
  }

  /** The sums over the coalitions, as a function of the player. */
  ghost function RowSums(keys: set<Coalition>, g: (Player, Coalition) -> real): Player -> real {
    (p: Player) => Sum(keys, Row(g, p))
  }

  /** The sums over the players, as a function of the coalition. */
  ghost function ColumnSums(players: set<Player>, g: (Player, Coalition) -> real): Coalition -> real {
    (c: Coalition) => PlayerSum(players, Column(g, c))
  }

  lemma {:induction false} SumZero(keys: set<Coalition>, f: Coalition -> real)
    requires forall c :: c in keys ==> f(c) == 0.0
    ensures Sum(keys, f) == 0.0
  {
    SumRestrict(keys, {}, f);
  }

  /** Summing over players then coalitions is summing over coalitions then
      players. */
  lemma {:induction false} SumsExchange(players: set<Player>, keys: set<Coalition>, g: (Player, Coalition) -> real)
    ensures PlayerSum(players, RowSums(keys, g)) == Sum(keys, ColumnSums(players, g))
    decreases players
  {
    if players == {} {
      SumZero(keys, ColumnSums(players, g));
    } else {
      var p :| p in players;
      var rest := players - {p};
      PlayerSumRemove(players, RowSums(keys, g), p);
      SumsExchange(rest, keys, g);
      forall c | c in keys ensures ColumnSums(players, g)(c) == Row(g, p)(c) + ColumnSums(rest, g)(c) {
        PlayerSumRemove(players, Column(g, c), p);
      }
      SumAdd(keys, Row(g, p), ColumnSums(rest, g), ColumnSums(players, g));
    }
  }
}
