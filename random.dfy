/**
 * The `Random` strategy of `fish-engine/src/random_strat.rs`: ask a random
 * opponent for the rank of a random card in hand.
 */
module RandomStrat {
  import opened CardSet
  import opened Options
  import opened Protocol
  import opened CommonStrat
  import opened Picking

  class Random {
    const pid: PlayerId
    var hand: Cards

    /** `init`: no cards yet. */
    constructor Init(pid: PlayerId)
      ensures this.pid == pid && IsEmpty(hand)
    {
      this.pid := pid;
      hand := Empty();
    }

    /** `deal_card`: remember the card. */
    method DealCard(card: Card)
      modifies this
      ensures hand == Add(old(hand), card)
    {
      hand := Add(hand, card);
    }

    /**
     * `action`: nothing when no opponent holds cards or the own hand is
     * empty; otherwise the opponent `pick` draws with `randWho`, asked for the
     * rank of the card `choose_random` draws with `randCard`. Changes nothing.
     */
    method Action(ctx: Context, randWho: nat, randCard: nat) returns (a: Option<Action>)
      ensures a.None? <==> Opponents(ctx.Players(), pid) == [] || IsEmpty(hand)
      ensures a.Some? ==> a.value.askWho in Opponents(ctx.Players(), pid)
      ensures a.Some? ==> HoldsRank(hand, a.value.askFor)
      ensures a.Some? ==> Pick(Opponents(ctx.Players(), pid), randWho) == Some(a.value.askWho)
      ensures a.Some? ==> ChooseRandom(hand, randCard).Some?
                          && RankOf(ChooseRandom(hand, randCard).value) == a.value.askFor
    {
      var options := Opponents(ctx.Players(), pid);
      var who := Pick(options, randWho);
      if who.None? {
        return None;
      }
      var card := ChooseRandom(hand, randCard);
      if card.None? {
        return None;
      }
      HoldsRankMeans(hand, RankOf(card.value));
      return Some(Protocol.Action(who.value, RankOf(card.value)));
    }

    /** `react`: forget the cards the announcement takes from this player. */
    method React(ann: Announcement)
      modifies this
      ensures hand == UpdateHand(pid, ann, old(hand))
    {
      hand := UpdateHand(pid, ann, hand);
    }
  }

  /**
   * Every opponent that holds cards and every rank in hand can make up the
   * action: some pair of random draws asks exactly that.
   */
  lemma ActionReaches(ctx: Context, pid: PlayerId, hand: Cards, who: PlayerId, c: Card)
    requires who in Opponents(ctx.Players(), pid) && c in hand
    ensures exists randWho: nat :: Pick(Opponents(ctx.Players(), pid), randWho) == Some(who)
    ensures exists randCard: nat :: ChooseRandom(hand, randCard).Some?
                                   && RankOf(ChooseRandom(hand, randCard).value) == RankOf(c)
  {
    var options := Opponents(ctx.Players(), pid);
    var i :| 0 <= i < |options| && options[i] == who;
    PickReaches(options, i);
    ChooseRandomReaches(hand, c);
  }
}
