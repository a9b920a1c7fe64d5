/**
 * Cards, ranks and card sets of `fish-engine/src/cards.rs`.
 *
 * A card is the index `rank + 13 * suit` below 52. The source keeps a set of
 * cards as a 64-bit mask whose bit `i` stands for card `i`; here a set of
 * cards is the set of indices whose bits are set, and `Ranks` (a 13-bit
 * mask) is the set of ranks whose bits are set.
 */
module CardSet {
  import opened Options

  /** Ranks RA, R2, ..., R10, RJ, RQ, RK are 0 .. 12. */
  type Rank = r: nat | r < 13
  /** Suits Spades, Hearths, Diamonds, Clubs are 0 .. 3. */
  type Suit = s: nat | s < 4
  /** A card is its index `rank + 13 * suit`. */
  type Card = c: nat | c < 52
  /** The card mask `Cards`, as the set of cards whose bits are set. */
  type Cards = set<Card>
  /** The rank mask `Ranks`, as the set of ranks whose bits are set. */
  type Ranks = set<Rank>

  const RA: Rank := 0
  const RK: Rank := 12

  // ---------------------------------------------------------------- cards

  function NewCard(rank: Rank, suit: Suit): (c: Card)
    ensures RankOf(c) == rank && SuitOf(c) == suit
  {
    rank + suit * 13
  }

  function RankOf(c: Card): (r: Rank)
  {
    c % 13
  }

  /** The suit of a card; with its rank it gives the card index back. */
  function SuitOf(c: Card): (s: Suit)
    ensures c == RankOf(c) + 13 * s
  {
    c / 13
  }

  /** The cards of rank `r`: what one book accounts for. */
  ghost function CardsOfRank(r: Rank): (cs: set<Card>)
  {
    set c: Card | RankOf(c) == r
  }

  /** The cards of every rank in `rs`: what a player's books account for. */
  ghost function CardsOfRanks(rs: Ranks): (cs: set<Card>)
  {
    set c: Card | RankOf(c) in rs
  }

  // ---------------------------------------------------------------- ranks

  /** The cyclic successor: RK wraps round to RA. */
  function Next(r: Rank): (n: Rank)
  {
    if r == RK then RA else r + 1
  }

  /** `next` is the successor modulo 13. */
  lemma NextIsModular(r: Rank)
    ensures Next(r) == (r + 1) % 13
  {
  }

  /** `Next` applied `k` times. */
  function Advance(r: Rank, k: nat): (a: Rank)
  {
    if k == 0 then r else Next(Advance(r, k - 1))
  }

  lemma {:induction false} AdvanceIsModular(r: Rank, k: nat)
    ensures Advance(r, k) == (r + k) % 13
  {
    if k > 0 {
      AdvanceIsModular(r, k - 1);
      NextIsModular(Advance(r, k - 1));
      ModNext(r + k - 1);
    }
  }

  lemma ModNext(x: nat)
    ensures (x % 13 + 1) % 13 == (x + 1) % 13
  {
    var q, m := x / 13, x % 13;
    assert x == 13 * q + m;
    if m == 12 {
      assert x + 1 == 13 * (q + 1);
    } else {
      assert x + 1 == 13 * q + (m + 1);
    }
  }

  /** Thirteen steps of `Next` come back to the start. */
  lemma NextCycle(r: Rank)
    ensures Advance(r, 13) == r
  {
    AdvanceIsModular(r, 13);
  }

  /** `Ranks::iter` for the ranks below `n`: the members, in ascending order. */
  function RanksBelow(rs: Ranks, n: nat): (r: seq<Rank>)
    requires n <= 13
    ensures forall x: Rank {:trigger x in r} :: x in r <==> x in rs && x < n
  {
    if n == 0 then []
    else RanksBelow(rs, n - 1) + (if n - 1 in rs then [n - 1] else [])
  }

  /** The ranks below `n` come out in ascending order. */
  lemma {:induction false} RanksBelowAscending(rs: Ranks, n: nat)
    requires n <= 13
    ensures forall i, j :: 0 <= i < j < |RanksBelow(rs, n)| ==> RanksBelow(rs, n)[i] < RanksBelow(rs, n)[j]
  {
    if n > 0 {
      RanksBelowAscending(rs, n - 1);
      var below := RanksBelow(rs, n - 1);
      assert forall i :: 0 <= i < |below| ==> below[i] in below;
    }
  }

  /** `Ranks::iter`: RA .. RK filtered by membership. */
  function RanksIter(rs: Ranks): (r: seq<Rank>)
    ensures forall x: Rank {:trigger x in r} :: x in r <==> x in rs
  {
    RanksBelow(rs, 13)
  }

  /** `Ranks::iter` lists the ranks in ascending order. */
  lemma RanksIterAscending(rs: Ranks)
    ensures forall i, j :: 0 <= i < j < |RanksIter(rs)| ==> RanksIter(rs)[i] < RanksIter(rs)[j]
  {
    RanksBelowAscending(rs, 13);
  }

  // ---------------------------------------------------------------- Cards

  function Empty(): (r: Cards)
    ensures forall c: Card :: c !in r
    ensures |r| == 0
  {
    {}
  }

  /**
   * The `n` cards from index `lo` on: the mask `(1 << n) - 1` shifted left by
   * `lo` bits.
   */
  function Span(lo: nat, n: nat): (r: Cards)
    requires lo + n <= 52
    ensures forall c: Card {:trigger c in r} :: c in r <==> lo <= c < lo + n
    ensures |r| == n
  {
    if n == 0 then {} else Span(lo, n - 1) + {lo + n - 1}
  }

  /** All 52 cards: the mask `(1 << 52) - 1`. */
  function All(): (r: Cards)
    ensures forall c: Card :: c in r
    ensures |r| == 52
  {
    var r := set k: nat, s: nat | k < 13 && s < 4 :: NewCard(k, s);
    forall c: Card
      ensures c in r
    {
      assert c == NewCard(RankOf(c), SuitOf(c));
    }
    CountFull(r, 52);
    r
  }

  /** A set holding exactly the naturals below `n` has `n` elements. */
  lemma {:induction false} CountFull(r: set<nat>, n: nat)
    requires forall c: nat :: c in r <==> c < n
    ensures |r| == n
  {
    if n > 0 {
      CountFull(r - {n - 1}, n - 1);
    }
  }

  /**
   * The cards whose rank is below `n`: the low `n` bits of each of the four
   * 13-bit suit blocks.
   */
  function AllBounded(n: nat): (r: Cards)
    requires n <= 13
    ensures forall c: Card {:trigger c in r} :: c in r <==> RankOf(c) < n
    ensures |r| == 4 * n
  {
    var r := Span(0, n) + Span(13, n) + Span(13 * 2, n) + Span(13 * 3, n);
    BlocksDisjoint(n);
    forall c: Card ensures c in r <==> RankOf(c) < n {
      BlockMember(n, c);
    }
    r
  }

  /** Card `c` lies in the block of its suit, at the offset of its rank. */
  lemma BlockMember(n: nat, c: Card)
    requires n <= 13
    ensures c in Span(0, n) + Span(13, n) + Span(26, n) + Span(39, n) <==> RankOf(c) < n
  {
    var a, b, d, e := Span(0, n), Span(13, n), Span(26, n), Span(39, n);
    assert c in a + b + d + e <==> c in a || c in b || c in d || c in e;
    var k, s: nat := RankOf(c), SuitOf(c);
    assert c == k + 13 * s;
    if s == 0 {
      assert c == k && c !in b && c !in d && c !in e;
    } else if s == 1 {
      assert c == k + 13 && c !in a && c !in d && c !in e;
    } else if s == 2 {
      assert c == k + 26 && c !in a && c !in b && c !in e;
    } else {
      assert c == k + 39 && c !in a && c !in b && c !in d;
    }
  }

  lemma BlocksDisjoint(n: nat)
    requires n <= 13
    ensures |Span(0, n) + Span(13, n) + Span(26, n) + Span(39, n)| == 4 * n
  {
    var a, b, c, d := Span(0, n), Span(13, n), Span(26, n), Span(39, n);
    assert a !! b;
    assert a + b !! c;
    assert a + b + c !! d;
  }

  function IsEmpty(s: Cards): (b: bool)
    ensures b <==> forall c: Card :: c !in s
  {
    s == {}
  }

  function Add(s: Cards, c: Card): (r: Cards)
    ensures forall x: Card {:trigger x in r} :: x in r <==> x in s || x == c
  {
    s + {c}
  }

  function Remove(s: Cards, t: Cards): (r: Cards)
    ensures forall x: Card {:trigger x in r} :: x in r <==> x in s && x !in t
  {
    s - t
  }

  /** Clears the bit of one card; the same as removing the singleton set. */
  function RemoveOne(s: Cards, c: Card): (r: Cards)
    ensures forall x: Card {:trigger x in r} :: x in r <==> x in s && x != c
    ensures r == Remove(s, Add(Empty(), c))
  {
    s - {c}
  }

  function Intersection(s: Cards, t: Cards): (r: Cards)
    ensures forall x: Card {:trigger x in r} :: x in r <==> x in s && x in t
  {
    s * t
  }

  function Union(s: Cards, t: Cards): (r: Cards)
    ensures forall x: Card {:trigger x in r} :: x in r <==> x in s || x in t
  {
    s + t
  }

  /** Membership, tested as a non-empty intersection with the singleton. */
  function Has(s: Cards, c: Card): (b: bool)
    ensures b <==> c in s
  {
    var both := Intersection(s, Add(Empty(), c));
    assert c in s ==> c in both;
    !IsEmpty(both)
  }

  /** The members below `n`, in ascending order: `iter` cut off at `n`. */
  function IterBelow(s: Cards, n: nat): (r: seq<Card>)
    requires n <= 52
    ensures forall c: Card {:trigger c in r} :: c in r <==> c in s && c < n
  {
    if n == 0 then []
    else IterBelow(s, n - 1) + (if n - 1 in s then [n - 1] else [])
  }

  /** The members below `n` come out in ascending order. */
  lemma {:induction false} IterBelowAscending(s: Cards, n: nat)
    requires n <= 52
    ensures forall i, j :: 0 <= i < j < |IterBelow(s, n)| ==> IterBelow(s, n)[i] < IterBelow(s, n)[j]
  {
    if n > 0 {
      IterBelowAscending(s, n - 1);
      var below := IterBelow(s, n - 1);
      assert forall i :: 0 <= i < |below| ==> below[i] in below;
    }
  }

  /** The members below `n` as a set. */
  ghost function MembersBelow(s: Cards, n: nat): (m: set<Card>)
  {
    set c | c in s && c < n
  }

  lemma MembersBelowStep(s: Cards, n: nat)
    requires 0 < n <= 52
    ensures n - 1 in s ==> MembersBelow(s, n) == MembersBelow(s, n - 1) + {n - 1}
    ensures n - 1 !in s ==> MembersBelow(s, n) == MembersBelow(s, n - 1)
    ensures n - 1 !in MembersBelow(s, n - 1)
  {
  }

  /** Each member is listed once, so the listing is as long as the set. */
  lemma {:induction false} IterBelowCount(s: Cards, n: nat)
    requires n <= 52
    ensures |IterBelow(s, n)| == |MembersBelow(s, n)|
  {
    if n > 0 {
      IterBelowCount(s, n - 1);
      MembersBelowStep(s, n);
    }
  }

  /** `iter`: the indices 0 .. 51 whose bits are set, in ascending order. */
  function Iter(s: Cards): (r: seq<Card>)
    ensures forall c: Card {:trigger c in r} :: c in r <==> c in s
  {
    IterBelow(s, 52)
  }

  /** `iter` lists the members in ascending order. */
  lemma IterAscending(s: Cards)
    ensures forall i, j :: 0 <= i < j < |Iter(s)| ==> Iter(s)[i] < Iter(s)[j]
  {
    IterBelowAscending(s, 52);
  }

  /**
   * `num`: the number of set bits. The source asserts that it equals the
   * length of `iter`; the ensures clause proves that assertion always holds.
   */
  function Num(s: Cards): (n: nat)
    ensures n == |Iter(s)|
    ensures n == 0 <==> IsEmpty(s)
  {
    IterBelowCount(s, 52);
    assert MembersBelow(s, 52) == s;
    |s|
  }

  /**
   * `choose_random`: `None` for the empty set, otherwise the member at index
   * `rand % num()` of `iter`. `rand` stands for the random number drawn.
   */
  function ChooseRandom(s: Cards, rand: nat): (r: Option<Card>)
    ensures r.None? <==> IsEmpty(s)
    ensures r.Some? ==> r.value in s
  {
    if IsEmpty(s) then None
    else
      var i := rand % Num(s);
      assert Iter(s)[i] in Iter(s);
      Some(Iter(s)[i])
  }

  /** Every member of a set can be the one `choose_random` returns. */
  lemma ChooseRandomReaches(s: Cards, c: Card)
    requires c in s
    ensures exists rand: nat :: ChooseRandom(s, rand) == Some(c)
  {
    var xs := Iter(s);
    assert c in xs;
    var i :| 0 <= i < |xs| && xs[i] == c;
    assert !IsEmpty(s);
    var n := Num(s);
    assert n == |xs|;
    ModSmall(i, n);
    assert ChooseRandom(s, i) == Some(xs[i]);
  }

  lemma ModSmall(i: nat, n: nat)
    requires i < n
    ensures i % n == i
  {
  }

  /** `Rank::in_all_suits`: the four cards of one rank. */
  function InAllSuits(r: Rank): (res: Cards)
    ensures forall c: Card {:trigger c in res} :: c in res <==> RankOf(c) == r
  {
    InSuitsBelow(r, 4)
  }

  /**
   * The cards of rank `r` in the first `n` suits, added one suit at a time
   * in the order of `in_all_suits`: those of rank `r` below `13 * n`.
   */
  function InSuitsBelow(r: Rank, n: nat): (res: Cards)
    requires n <= 4
    ensures forall c: Card {:trigger c in res} :: c in res <==> RankOf(c) == r && c < 13 * n
  {
    if n == 0 then Empty()
    else
      InSuitsStep(r, n);
      Add(InSuitsBelow(r, n - 1), NewCard(r, n - 1))
  }

  /** Of the cards of rank `r` below `13 * n`, only the one of suit `n - 1` is not below `13 * (n - 1)`. */
  lemma InSuitsStep(r: Rank, n: nat)
    requires 0 < n <= 4
    ensures forall c: Card :: RankOf(c) == r && c < 13 * n ==> c < 13 * (n - 1) || c == NewCard(r, n - 1)
  {
    forall c: Card | RankOf(c) == r && c < 13 * n
      ensures c < 13 * (n - 1) || c == NewCard(r, n - 1)
    {
      assert c == r + 13 * SuitOf(c);
    }
  }

  /** `in_all_suits` is the whole rank: one card per suit, four in all. */
  lemma InAllSuitsIsRank(r: Rank)
    ensures InAllSuits(r) == CardsOfRank(r)
    ensures InAllSuits(r) == {r, r + 13, r + 26, r + 39}
    ensures |InAllSuits(r)| == 4
  {
    var cs := InAllSuits(r);
    forall c: Card
      ensures c in cs <==> c in {r, r + 13, r + 26, r + 39}
    {
      var k, s: nat := RankOf(c), SuitOf(c);
      assert c == k + 13 * s;
      if s == 0 { assert c == k; }
      else if s == 1 { assert c == k + 13; }
      else if s == 2 { assert c == k + 26; }
      else { assert c == k + 39; }
    }
    assert cs == {r, r + 13, r + 26, r + 39};
  }

  /**
   * `!hand.intersection(r.in_all_suits()).is_empty()`: whether the hand holds
   * a card of rank `r`.
   */
  predicate HoldsRank(hand: Cards, r: Rank)
  {
    !IsEmpty(Intersection(hand, InAllSuits(r)))
  }

  /** A hand holds rank `r` exactly when one of its cards has rank `r`. */
  lemma HoldsRankMeans(hand: Cards, r: Rank)
    ensures HoldsRank(hand, r) <==> exists c: Card :: c in hand && RankOf(c) == r
  {
    var both := Intersection(hand, InAllSuits(r));
    assert forall c: Card :: c in both <==> c in hand && RankOf(c) == r;
  }

  /** The ranks a hand holds at least one card of. */
  function RanksIn(hand: Cards): (rs: Ranks)
    ensures forall r: Rank :: r in rs <==> HoldsRank(hand, r)
  {
    set r: Rank | 0 <= r < 13 && HoldsRank(hand, r)
  }
}
