/**
 * The `Wiki` strategy of `fish-engine/src/wiki_strat.rs`: ask a random
 * opponent for the next rank held, going round the ranks in order from the
 * rank of the last card received.
 */
module WikiStrat {
  import opened CardSet
  import opened Options
  import opened Protocol
  import opened CommonStrat
  import opened Picking

  /**
   * The first rank of `held` going forward from `r` (wrapping from RK to
   * RA), looking at no more than `budget` ranks.
   */
  function FirstHeld(held: Ranks, r: Rank, budget: nat): (found: Option<Rank>)
    decreases budget
  {
    if budget == 0 then None
    else if r in held then Some(r)
    else FirstHeld(held, Next(r), budget - 1)
  }

  /** The search stops at a held rank. */
  lemma FirstHeldHere(held: Ranks, r: Rank, budget: nat)
    requires r in held && budget > 0
    ensures FirstHeld(held, r, budget) == Some(r)
  {
  }

  /** The search passes over a rank not held. */
  lemma FirstHeldSkip(held: Ranks, r: Rank, budget: nat)
    requires r !in held && budget > 0
    ensures FirstHeld(held, r, budget) == FirstHeld(held, Next(r), budget - 1)
  {
  }

  /**
   * One turn of the search loop: a rank not held is passed over, the result
   * stays the same and the held rank `t` comes one step closer.
   */
  lemma SeekStep(hand: Cards, r: Rank, t: Rank, budget: nat)
    requires HoldsRank(hand, t) && !HoldsRank(hand, r) && Distance(r, t) < budget
    ensures budget > 0
    ensures FirstHeld(RanksIn(hand), r, budget) == FirstHeld(RanksIn(hand), Next(r), budget - 1)
    ensures Distance(Next(r), t) < budget - 1
  {
    FirstHeldSkip(RanksIn(hand), r, budget);
    DistanceStep(r, t);
  }

  /** How many `Next` steps lead from `r` to `t`. */
  function Distance(r: Rank, t: Rank): (d: nat)
    ensures d < 13
    ensures d == 0 <==> r == t
  {
    if t >= r then t - r else t + 13 - r
  }

  /** One step of `Next` brings a different rank one step closer. */
  lemma DistanceStep(r: Rank, t: Rank)
    requires r != t
    ensures Distance(Next(r), t) == Distance(r, t) - 1
  {
  }

  /**
   * A rank of `held` that is `Distance(r, t)` steps ahead is reached within
   * the budget, and what is found is a member of `held`.
   */
  lemma {:induction false} FirstHeldFinds(held: Ranks, r: Rank, t: Rank, budget: nat)
    requires t in held && Distance(r, t) < budget
    ensures FirstHeld(held, r, budget).Some?
    ensures FirstHeld(held, r, budget).value in held
    decreases Distance(r, t)
  {
    if r !in held {
      DistanceStep(r, t);
      FirstHeldFinds(held, Next(r), t, budget - 1);
    }
  }

  /**
   * With any card in hand, a held rank is found within one round of the 13
   * ranks, whatever the starting rank.
   */
  lemma FirstHeldInOneRound(hand: Cards, r: Rank)
    requires !IsEmpty(hand)
    ensures FirstHeld(RanksIn(hand), r, 13).Some?
    ensures HoldsRank(hand, FirstHeld(RanksIn(hand), r, 13).value)
  {
    var t := SomeRankHeld(hand);
    FirstHeldFinds(RanksIn(hand), r, t, 13);
  }

  /** A hand with a card in it holds some rank. */
  lemma SomeRankHeld(hand: Cards) returns (t: Rank)
    requires !IsEmpty(hand)
    ensures HoldsRank(hand, t)
  {
    var c: Card :| c in hand;
    t := RankOf(c);
    HoldsRankMeans(hand, t);
  }

  class Wiki {
    const pid: PlayerId
    var hand: Cards
    var nextRank: Rank

    /** `init`: no cards yet, and the search starts at RA. */
    constructor Init(pid: PlayerId)
      ensures this.pid == pid && IsEmpty(hand) && nextRank == RA
    {
      this.pid := pid;
      hand := Empty();
      nextRank := RA;
    }

    /** `deal_card`: remember the card, and look for its rank next. */
    method DealCard(card: Card)
      modifies this
      ensures hand == Add(old(hand), card)
      ensures nextRank == RankOf(card)
    {
      nextRank := RankOf(card);
      hand := Add(hand, card);
    }

    /**
     * `action`: nothing when no opponent holds cards; otherwise the opponent
     * `pick` draws with `rand` is asked for the first rank held from
     * `nextRank` on, and the search resumes after it next time. The loop
     * stops only when a card is held, hence the precondition.
     */
    method Action(ctx: Context, rand: nat) returns (a: Option<Action>)
      requires Opponents(ctx.Players(), pid) != [] ==> !IsEmpty(hand)
      modifies this
      ensures hand == old(hand)
      ensures a.None? <==> Opponents(ctx.Players(), pid) == []
      ensures a.None? ==> nextRank == old(nextRank)
      ensures a.Some? ==> a.value.askWho in Opponents(ctx.Players(), pid)
      ensures a.Some? ==> Pick(Opponents(ctx.Players(), pid), rand) == Some(a.value.askWho)
      ensures a.Some? ==> HoldsRank(hand, a.value.askFor)
      ensures a.Some? ==> FirstHeld(RanksIn(hand), old(nextRank), 13) == Some(a.value.askFor)
      ensures a.Some? ==> nextRank == Next(a.value.askFor)
    {
      var candidates := Opponents(ctx.Players(), pid);
      var who := Pick(candidates, rand);
      if who.None? {
        return None;
      }
      var askWho := who.value;
      var askFor := Seek();
      return Some(Protocol.Action(askWho, askFor));
    }

    /**
     * The loop of `action`: step `nextRank` round the ranks until one is
     * held, ask for it, and move past it.
     */
    method Seek() returns (askFor: Rank)
      requires !IsEmpty(hand)
      modifies this
      ensures hand == old(hand)
      ensures HoldsRank(hand, askFor)
      ensures FirstHeld(RanksIn(hand), old(nextRank), 13) == Some(askFor)
      ensures nextRank == Next(askFor)
    {
      ghost var target := SomeRankHeld(hand);
      ghost var ranks := RanksIn(hand);
      ghost var budget: nat := 13;
      ghost var found := FirstHeld(ranks, nextRank, budget);
      while !HoldsRank(hand, nextRank)
        invariant hand == old(hand)
        invariant HoldsRank(hand, target)
        invariant found == FirstHeld(ranks, nextRank, budget)
        invariant Distance(nextRank, target) < budget
        decreases Distance(nextRank, target)
      {
        SeekStep(hand, nextRank, target, budget);
        nextRank := Next(nextRank);
        budget := budget - 1;
      }
      FirstHeldHere(ranks, nextRank, budget);
      askFor := nextRank;
      nextRank := Next(nextRank);
    }

    /** `react`: forget the cards the announcement takes from this player. */
    method React(ann: Announcement)
      modifies this
      ensures hand == UpdateHand(pid, ann, old(hand))
      ensures nextRank == old(nextRank)
    {
      hand := UpdateHand(pid, ann, hand);
    }
  }
}
