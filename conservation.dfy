/**
 * Card conservation, the invariant `Game::check_validity` of
 * `fish-engine/src/lib.rs` tests: the pool, every hand and the four cards of
 * every booked rank are pairwise disjoint and together make up the deck.
 * Stated card by card: every card is accounted for exactly once.
 */
module Conservation {
  import opened CardSet
  import opened Players

  /** How often player `p` accounts for card `c`: in hand, and in a book. */
  function Held<S>(p: Player<S>, c: Card): (n: nat)
  {
    (if c in p.hand then 1 else 0) + (if RankOf(c) in p.books then 1 else 0)
  }

  /** How often the players together account for card `c`. */
  function HeldBy<S>(ps: seq<Player<S>>, c: Card): (n: nat)
  {
    if |ps| == 0 then 0 else HeldBy(ps[..|ps| - 1], c) + Held(ps[|ps| - 1], c)
  }

  /** How often the pool and the players together account for card `c`. */
  function Count<S>(pool: Cards, ps: seq<Player<S>>, c: Card): (n: nat)
  {
    (if c in pool then 1 else 0) + HeldBy(ps, c)
  }

  /** Every card of the deck is in exactly one place. */
  ghost predicate Conserved<S>(pool: Cards, ps: seq<Player<S>>)
  {
    forall c: Card :: Count(pool, ps, c) == 1
  }

  /** The count of one player is part of the count of all. */
  lemma {:induction false} HeldByAtLeast<S>(ps: seq<Player<S>>, i: nat, c: Card)
    requires i < |ps|
    ensures HeldBy(ps, c) >= Held(ps[i], c)
  {
    if i < |ps| - 1 {
      HeldByAtLeast(ps[..|ps| - 1], i, c);
    }
  }

  /** Players that do not account for a card add nothing to its count. */
  lemma {:induction false} HeldByNone<S>(ps: seq<Player<S>>, c: Card)
    requires forall j :: 0 <= j < |ps| ==> Held(ps[j], c) == 0
    ensures HeldBy(ps, c) == 0
  {
    if |ps| > 0 {
      HeldByNone(ps[..|ps| - 1], c);
    }
  }

  /** A card some player accounts for is accounted for by a particular one. */
  lemma HeldBySome<S>(ps: seq<Player<S>>, c: Card) returns (j: nat)
    requires HeldBy(ps, c) > 0
    ensures j < |ps| && Held(ps[j], c) > 0
  {
    if forall k :: 0 <= k < |ps| ==> Held(ps[k], c) == 0 {
      HeldByNone(ps, c);
    }
    j :| 0 <= j < |ps| && Held(ps[j], c) > 0;
  }

  /** Replacing one player changes the count by that player's difference. */
  lemma {:induction false} HeldByUpdate<S>(ps: seq<Player<S>>, i: nat, q: Player<S>, c: Card)
    requires i < |ps|
    ensures HeldBy(ps[i := q], c) == HeldBy(ps, c) - Held(ps[i], c) + Held(q, c)
  {
    var n := |ps|;
    HeldByAtLeast(ps, i, c);
    if i == n - 1 {
      assert ps[i := q][..n - 1] == ps[..n - 1];
    } else {
      assert ps[i := q][..n - 1] == ps[..n - 1][i := q];
      HeldByUpdate(ps[..n - 1], i, q, c);
    }
  }

  /** The count over a prefix grows by the next player's count. */
  lemma HeldByPrefix<S>(ps: seq<Player<S>>, i: nat, c: Card)
    requires i < |ps|
    ensures HeldBy(ps[..i + 1], c) == HeldBy(ps[..i], c) + Held(ps[i], c)
  {
    assert ps[..i + 1][..i] == ps[..i];
  }

  /** The count over a prefix is at most the count over all players. */
  lemma {:induction false} HeldByPrefixBelow<S>(ps: seq<Player<S>>, i: nat, c: Card)
    requires i <= |ps|
    ensures HeldBy(ps[..i], c) <= HeldBy(ps, c)
  {
    if i < |ps| {
      var n := |ps|;
      assert ps[..n - 1][..i] == ps[..i];
      HeldByPrefixBelow(ps[..n - 1], i, c);
    } else {
      assert ps[..i] == ps;
    }
  }

  /** `Game::new`: the whole deck in the pool, no cards or books elsewhere. */
  lemma NewConserved<S>(ps: seq<Player<S>>)
    requires forall i :: 0 <= i < |ps| ==> ps[i].hand == {} && ps[i].books == {}
    ensures Conserved(All(), ps)
  {
    forall c: Card
      ensures Count(All(), ps, c) == 1
    {
      HeldByNone(ps, c);
    }
  }

  /** A card in the pool is in no hand and of no booked rank. */
  lemma PoolCardFree<S>(pool: Cards, ps: seq<Player<S>>, c: Card, i: nat)
    requires Conserved(pool, ps) && c in pool && i < |ps|
    ensures Held(ps[i], c) == 0
  {
    assert Count(pool, ps, c) == 1;
    HeldByAtLeast(ps, i, c);
  }

  /** One card moves from the pool into the hand of player `i`. */
  lemma DealConserved<S>(pool: Cards, ps: seq<Player<S>>, i: nat, c: Card)
    requires Conserved(pool, ps) && i < |ps| && c in pool
    ensures c !in ps[i].hand
    ensures Conserved(pool - {c}, ps[i := ps[i].(hand := ps[i].hand + {c})])
  {
    PoolCardFree(pool, ps, c, i);
    var q := ps[i].(hand := ps[i].hand + {c});
    var pool', ps' := pool - {c}, ps[i := q];
    forall x: Card
      ensures Count(pool', ps', x) == 1
    {
      assert Count(pool, ps, x) == 1;
      HeldByUpdate(ps, i, q, x);
    }
  }

  /** The cards `had` move from the hand of `from` into the hand of `to`. */
  lemma MoveConserved<S>(pool: Cards, ps: seq<Player<S>>, from: nat, to: nat, had: Cards)
    requires Conserved(pool, ps) && from < |ps| && to < |ps| && from != to
    requires had <= ps[from].hand
    ensures Conserved(pool, ps[from := ps[from].(hand := ps[from].hand - had)]
                              [to := ps[to].(hand := ps[to].hand + had)])
  {
    var p := ps[from].(hand := ps[from].hand - had);
    var mid := ps[from := p];
    var q := ps[to].(hand := ps[to].hand + had);
    var ps' := mid[to := q];
    forall x: Card
      ensures Count(pool, ps', x) == 1
    {
      assert Count(pool, ps, x) == 1;
      HeldByUpdate(ps, from, p, x);
      HeldByUpdate(mid, to, q, x);
      if x in had {
        assert Held(ps[from], x) >= 1;
        HeldByAtLeast(ps, from, x);
        HeldByUpdate(ps, from, ps[from].(hand := {}), x);
        HeldByAtLeast(ps[from := ps[from].(hand := {})], to, x);
      }
    }
  }

  /** Player `i` takes the whole pool into the hand. */
  lemma AbsorbConserved<S>(pool: Cards, ps: seq<Player<S>>, i: nat)
    requires Conserved(pool, ps) && i < |ps|
    ensures Conserved({}, ps[i := ps[i].(hand := ps[i].hand + pool)])
  {
    var q := ps[i].(hand := ps[i].hand + pool);
    var ps' := ps[i := q];
    forall x: Card
      ensures Count({}, ps', x) == 1
    {
      assert Count(pool, ps, x) == 1;
      HeldByUpdate(ps, i, q, x);
      if x in pool {
        PoolCardFree(pool, ps, x, i);
      }
    }
  }

  /**
   * Player `i` lays down the four cards of rank `r`: they leave the hand
   * and `r` joins the books, which it was not part of yet.
   */
  lemma BookConserved<S>(pool: Cards, ps: seq<Player<S>>, i: nat, r: Rank)
    requires Conserved(pool, ps) && i < |ps|
    requires CardsOfRank(r) <= ps[i].hand
    ensures r !in ps[i].books
    ensures Conserved(pool, ps[i := ps[i].(hand := ps[i].hand - CardsOfRank(r), books := ps[i].books + {r})])
  {
    assert r in CardsOfRank(r);
    assert Count(pool, ps, r) == 1;
    HeldByAtLeast(ps, i, r);
    var q := ps[i].(hand := ps[i].hand - CardsOfRank(r), books := ps[i].books + {r});
    var ps' := ps[i := q];
    forall x: Card
      ensures Count(pool, ps', x) == 1
    {
      assert Count(pool, ps, x) == 1;
      HeldByUpdate(ps, i, q, x);
    }
  }

  /** Two different players both count towards a card's count. */
  lemma {:induction false} HeldByTwo<S>(ps: seq<Player<S>>, i: nat, j: nat, c: Card)
    requires i < |ps| && j < |ps| && i != j
    ensures HeldBy(ps, c) >= Held(ps[i], c) + Held(ps[j], c)
  {
    var n := |ps|;
    if i == n - 1 {
      HeldByAtLeast(ps[..n - 1], j, c);
    } else if j == n - 1 {
      HeldByAtLeast(ps[..n - 1], i, c);
    } else {
      HeldByTwo(ps[..n - 1], i, j, c);
    }
  }

  /**
   * When every other hand is empty, the hand of player `i` and the pool hold
   * all four cards of the rank of each card they hold: nobody has booked
   * that rank, and no other hand can hold its cards.
   */
  lemma LoneHandRanks<S>(pool: Cards, ps: seq<Player<S>>, i: nat, c: Card)
    requires Conserved(pool, ps) && i < |ps|
    requires forall j :: 0 <= j < |ps| && j != i ==> ps[j].hand == {}
    requires c in ps[i].hand + pool
    ensures CardsOfRank(RankOf(c)) <= ps[i].hand + pool
  {
    forall x | x in CardsOfRank(RankOf(c))
      ensures x in ps[i].hand + pool
    {
      if x !in ps[i].hand + pool {
        assert Count(pool, ps, x) == 1;
        var j := HeldBySome(ps, x);
        assert RankOf(c) in ps[j].books;
        assert Count(pool, ps, c) == 1;
        if j == i {
          HeldByAtLeast(ps, i, c);
        } else {
          HeldByTwo(ps, i, j, c);
        }
      }
    }
  }

  // ------------------------------------------------------- dealing round

  /** The cards in the hands of `ps`. */
  function InHands<S>(ps: seq<Player<S>>): (cs: Cards)
  {
    if |ps| == 0 then {} else InHands(ps[..|ps| - 1]) + ps[|ps| - 1].hand
  }

  /** The hand sizes of `ps`, added up. */
  function Dealt<S>(ps: seq<Player<S>>): (n: nat)
  {
    if |ps| == 0 then 0 else Dealt(ps[..|ps| - 1]) + |ps[|ps| - 1].hand|
  }

  /** The hands together hold at most as many cards as their sizes add up to. */
  lemma {:induction false} InHandsBound<S>(ps: seq<Player<S>>)
    ensures |InHands(ps)| <= Dealt(ps)
  {
    if |ps| > 0 {
      InHandsBound(ps[..|ps| - 1]);
    }
  }

  /** A card a player holds in hand is among the cards in hands. */
  lemma {:induction false} InHandsHas<S>(ps: seq<Player<S>>, c: Card)
    requires HeldBy(ps, c) > 0
    requires forall j :: 0 <= j < |ps| ==> ps[j].books == {}
    ensures c in InHands(ps)
  {
    var n := |ps|;
    if Held(ps[n - 1], c) == 0 {
      InHandsHas(ps[..n - 1], c);
    }
  }

  /** Hands of at most `s` cards each hold at most `s` times as many. */
  lemma {:induction false} DealtBound<S>(ps: seq<Player<S>>, s: nat)
    requires forall j :: 0 <= j < |ps| ==> |ps[j].hand| <= s
    ensures Dealt(ps) <= s * |ps|
    ensures Dealt(ps) == s * |ps| ==> forall j :: 0 <= j < |ps| ==> |ps[j].hand| == s
  {
    if |ps| > 0 {
      var n := |ps|;
      DealtBound(ps[..n - 1], s);
      assert s * n == s * (n - 1) + s;
    }
  }

  /**
   * With the pool empty, no books and no hand above `s` cards, where `s`
   * players' worth of hands fit in the deck, every hand has exactly `s`.
   */
  lemma EvenDeal<S>(ps: seq<Player<S>>, s: nat)
    requires Conserved({}, ps)
    requires forall j :: 0 <= j < |ps| ==> ps[j].books == {} && |ps[j].hand| <= s
    requires s * |ps| <= 52
    ensures forall j :: 0 <= j < |ps| ==> |ps[j].hand| == s
  {
    AllInHands(ps);
    WholeDeck(InHands(ps));
    InHandsBound(ps);
    DealtBound(ps, s);
  }

  /** With the pool empty and no books, every card is in some hand. */
  lemma AllInHands<S>(ps: seq<Player<S>>)
    requires Conserved({}, ps)
    requires forall j :: 0 <= j < |ps| ==> ps[j].books == {}
    ensures forall c: Card :: c in InHands(ps)
  {
    forall c: Card
      ensures c in InHands(ps)
    {
      assert Count({}, ps, c) == 1;
      InHandsHas(ps, c);
    }
  }

  /** A set holding every card is the whole deck of 52. */
  lemma WholeDeck(cs: Cards)
    requires forall c: Card :: c in cs
    ensures |cs| == 52
  {
    assert cs == All();
  }
}
