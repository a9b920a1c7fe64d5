/**
 * What `Game::check_books` of `fish-engine/src/lib.rs` computes, as values:
 * which ranks of a hand are complete, in which order they are announced,
 * and what hearing those announcements does to a tracked hand.
 */
module Books {
  import opened CardSet
  import opened Protocol
  import opened CommonStrat

  /** `rank.in_all_suits().intersection(hand) == rank.in_all_suits()`. */
  predicate IsBook(hand: Cards, r: Rank)
  {
    Intersection(InAllSuits(r), hand) == InAllSuits(r)
  }

  /** A rank is a book of a hand exactly when all four of its cards are in it. */
  lemma IsBookMeans(hand: Cards, r: Rank)
    ensures IsBook(hand, r) <==> CardsOfRank(r) <= hand
  {
    InAllSuitsIsRank(r);
  }

  /** The complete ranks of a hand. */
  function FullRanks(hand: Cards): (rs: Ranks)
    ensures forall r: Rank :: r in rs <==> IsBook(hand, r)
  {
    set r: Rank | 0 <= r < 13 && IsBook(hand, r)
  }

  /** The ranks of the cards listed, folded into a set left to right. */
  function RanksOfCards(cs: seq<Card>): (rs: Ranks)
    ensures forall r: Rank {:trigger r in rs} :: r in rs <==> exists i :: 0 <= i < |cs| && RankOf(cs[i]) == r
  {
    if |cs| == 0 then {}
    else
      var init := cs[..|cs| - 1];
      assert forall i :: 0 <= i < |init| ==> init[i] == cs[i];
      RanksOfCards(init) + {RankOf(cs[|cs| - 1])}
  }

  /** The ranks of `rs` that are in `keep`, in the order of `rs`. */
  function Keep(rs: seq<Rank>, keep: Ranks): (ks: seq<Rank>)
    ensures forall r {:trigger r in ks} :: r in ks <==> r in rs && r in keep
  {
    if |rs| == 0 then []
    else
      var init := rs[..|rs| - 1];
      var last := rs[|rs| - 1];
      assert forall r :: r in rs <==> r in init || r == last by { assert rs == init + [last]; }
      if last in keep then Keep(init, keep) + [last] else Keep(init, keep)
  }

  /** Keeping some ranks of an increasing sequence leaves it increasing. */
  lemma {:induction false} KeepAscending(rs: seq<Rank>, keep: Ranks)
    requires Ascending(rs)
    ensures Ascending(Keep(rs, keep))
  {
    if |rs| > 0 {
      var init := rs[..|rs| - 1];
      var last := rs[|rs| - 1];
      LastIsGreatest(rs);
      KeepAscending(init, keep);
      AppendAscending(Keep(init, keep), last, last in keep);
    }
  }

  /** Keeping from one more element of `rs`. */
  lemma KeepStep(rs: seq<Rank>, k: nat, keep: Ranks)
    requires k < |rs|
    ensures rs[k] in keep ==> Keep(rs[..k + 1], keep) == Keep(rs[..k], keep) + [rs[k]]
    ensures rs[k] !in keep ==> Keep(rs[..k + 1], keep) == Keep(rs[..k], keep)
  {
    assert rs[..k + 1][..k] == rs[..k];
  }

  /** Appending a rank above all others keeps a sequence increasing. */
  lemma AppendAscending(rs: seq<Rank>, x: Rank, ascending: bool)
    requires ascending ==> Ascending(rs) && forall r :: r in rs ==> r < x
    ensures ascending ==> Ascending(rs + [x])
  {
    if ascending {
      assert forall i :: 0 <= i < |rs| ==> rs[i] in rs;
    }
  }

  /** Strictly increasing. */
  predicate Ascending(rs: seq<Rank>)
  {
    forall i, j :: 0 <= i < j < |rs| ==> rs[i] < rs[j]
  }

  /** Without its last element an increasing sequence stays increasing, below that element. */
  lemma LastIsGreatest(rs: seq<Rank>)
    requires |rs| > 0
    ensures forall r :: r in rs <==> r in rs[..|rs| - 1] || r == rs[|rs| - 1]
    ensures Ascending(rs) ==> Ascending(rs[..|rs| - 1])
    ensures forall r :: r in rs ==> Ascending(rs) ==> r <= rs[|rs| - 1]
    ensures Ascending(rs) ==> forall r :: r in rs[..|rs| - 1] <==> r in rs && r != rs[|rs| - 1]
  {
    assert rs == rs[..|rs| - 1] + [rs[|rs| - 1]];
  }

  /**
   * The ranks `check_books` books, in the order it books them: the complete
   * ranks of the hand, in ascending order.
   */
  function BookOrder(hand: Cards): (bs: seq<Rank>)
    ensures forall r {:trigger r in bs} :: r in bs <==> r in FullRanks(hand)
  {
    RanksIter(FullRanks(hand))
  }

  /** The ranks are booked in ascending order. */
  lemma BookOrderAscending(hand: Cards)
    ensures Ascending(BookOrder(hand))
  {
    RanksIterAscending(FullRanks(hand));
  }

  /**
   * The loop of `check_books` walks the ranks of the cards held, in
   * ascending order, and books those complete in the hand: that is
   * `BookOrder`.
   */
  lemma BookOrderIsKept(hand: Cards)
    ensures Keep(RanksIter(RanksOfCards(Iter(hand))), FullRanks(hand)) == BookOrder(hand)
  {
    var held := RanksOfCards(Iter(hand));
    var kept := Keep(RanksIter(held), FullRanks(hand));
    forall r | r in FullRanks(hand)
      ensures r in held
    {
      BookIsHeld(hand, r);
    }
    RanksIterAscending(held);
    KeepAscending(RanksIter(held), FullRanks(hand));
    BookOrderAscending(hand);
    AscendingUnique(kept, BookOrder(hand));
  }

  /** Two increasing sequences with the same members are equal. */
  lemma {:induction false} AscendingUnique(a: seq<Rank>, b: seq<Rank>)
    requires Ascending(a) && Ascending(b)
    requires forall r :: r in a <==> r in b
    ensures a == b
  {
    assert |a| > 0 ==> a[0] in b;
    assert |b| > 0 ==> b[0] in a;
    if |a| > 0 {
      var a', b' := a[..|a| - 1], b[..|b| - 1];
      LastIsGreatest(a);
      LastIsGreatest(b);
      assert a[|a| - 1] in b && b[|b| - 1] in a;
      assert a[|a| - 1] == b[|b| - 1];
      forall r | r in a'
        ensures r in b'
      {
        assert r in a && r != a[|a| - 1];
      }
      forall r | r in b'
        ensures r in a'
      {
        assert r in b && r != b[|b| - 1];
      }
      AscendingUnique(a', b');
      assert a == a' + [a[|a| - 1]];
      assert b == b' + [b[|b| - 1]];
    }
  }

  /** A complete rank is among the ranks of the cards held. */
  lemma BookIsHeld(hand: Cards, r: Rank)
    requires IsBook(hand, r)
    ensures r in RanksOfCards(Iter(hand))
  {
    IsBookMeans(hand, r);
    assert r in CardsOfRank(r);
    var cs := Iter(hand);
    assert r in cs;
    var i :| 0 <= i < |cs| && cs[i] == r;
    assert RankOf(cs[i]) == r;
  }

  /** One `GotBook` announcement per rank of `rs`, in that order. */
  function GotBooks(p: PlayerId, rs: seq<Rank>): (anns: seq<Announcement>)
    ensures |anns| == |rs|
    ensures forall i :: 0 <= i < |rs| ==> anns[i] == GotBook(p, rs[i])
  {
    if |rs| == 0 then [] else GotBooks(p, rs[..|rs| - 1]) + [GotBook(p, rs[|rs| - 1])]
  }

  /** One more rank, one more announcement. */
  lemma GotBooksStep(p: PlayerId, rs: seq<Rank>, r: Rank)
    ensures GotBooks(p, rs + [r]) == GotBooks(p, rs) + [GotBook(p, r)]
  {
    assert (rs + [r])[..|rs|] == rs;
  }

  /**
   * Hearing the `GotBook` announcements of player `p` takes the ranks
   * booked out of `p`'s tracked hand and leaves every other hand alone.
   */
  lemma {:induction false} ReplayGotBooks(pid: PlayerId, p: PlayerId, rs: seq<Rank>, hand: Cards)
    ensures forall c: Card :: c in Replay(pid, GotBooks(p, rs), hand) <==>
      c in hand && !(pid == p && RankOf(c) in rs)
  {
    if |rs| > 0 {
      var init := rs[..|rs| - 1];
      assert GotBooks(p, rs)[..|rs| - 1] == GotBooks(p, init);
      ReplayGotBooks(pid, p, init, hand);
      assert forall r :: r in rs <==> r in init || r == rs[|rs| - 1];
    }
  }

  /** The hand with its complete ranks taken out holds no complete rank. */
  lemma NoBookLeft(hand: Cards, r: Rank)
    ensures !IsBook(hand - CardsOfRanks(FullRanks(hand)), r)
  {
    var rest := hand - CardsOfRanks(FullRanks(hand));
    IsBookMeans(rest, r);
    IsBookMeans(hand, r);
    assert r in CardsOfRank(r);
    if !IsBook(hand, r) {
      var c :| c in CardsOfRank(r) && c !in hand;
      assert c !in rest;
    }
  }

  /** A hand made of complete ranks only is empty once they are booked. */
  lemma AllBooked(hand: Cards)
    requires forall c :: c in hand ==> CardsOfRank(RankOf(c)) <= hand
    ensures hand - CardsOfRanks(FullRanks(hand)) == {}
  {
    forall c | c in hand
      ensures RankOf(c) in FullRanks(hand)
    {
      IsBookMeans(hand, RankOf(c));
    }
  }
}
