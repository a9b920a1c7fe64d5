/**
 * The closed set of strategies of `fish-engine/src/strategy.rs`: the
 * `StratBuilder` that picks one, and the `Strat` that dispatches every call
 * of the engine to the chosen strategy object.
 */
module Strategy {
  import opened CardSet
  import opened Options
  import opened Protocol
  import opened CommonStrat
  import opened Picking
  import opened RandomStrat
  import opened WikiStrat

  /** Which strategy a seat is played by. */
  datatype StratBuilder = RandomBuilder | WikiBuilder
  {
    /** `StratBuilder::init`: a fresh strategy of the chosen kind for `pid`. */
    method Init(pid: PlayerId) returns (s: Strat)
      ensures fresh(s.Obj())
      ensures s.RandomStrat? <==> this.RandomBuilder?
      ensures s.Pid() == pid && IsEmpty(s.Hand())
      ensures s.WikiStrat? ==> s.wiki.nextRank == RA
    {
      if RandomBuilder? {
        var r := new Random.Init(pid);
        s := RandomStrat(r);
      } else {
        var w := new Wiki.Init(pid);
        s := WikiStrat(w);
      }
    }
  }

  /** A strategy object of one of the two kinds. */
  datatype Strat = RandomStrat(random: Random) | WikiStrat(wiki: Wiki)
  {
    /** The object whose state the strategy keeps. */
    function Obj(): (o: object)
    {
      match this
      case RandomStrat(r) => r
      case WikiStrat(w) => w
    }

    /** The id the strategy was created for. */
    function Pid(): (pid: PlayerId)
    {
      match this
      case RandomStrat(r) => r.pid
      case WikiStrat(w) => w.pid
    }

    /** The cards the strategy believes its player holds. */
    function Hand(): (hand: Cards)
      reads Obj()
    {
      match this
      case RandomStrat(r) => r.hand
      case WikiStrat(w) => w.hand
    }

    /** `Strat::deal_card`: the strategy is told of a card dealt to it. */
    method DealCard(card: Card)
      modifies Obj()
      ensures Hand() == Add(old(Hand()), card)
      ensures WikiStrat? ==> wiki.nextRank == RankOf(card)
    {
      match this
      case RandomStrat(r) => r.DealCard(card);
      case WikiStrat(w) => w.DealCard(card);
    }

    /**
     * `Strat::action`: the move of the wrapped strategy. When some opponent
     * holds cards and the own hand is not empty, both strategies ask an
     * opponent holding cards for a rank in hand; with no opponent holding
     * cards, neither asks. `randWho` and `randCard` stand for the random
     * numbers drawn.
     */
    method Action(ctx: Context, randWho: nat, randCard: nat) returns (a: Option<Action>)
      requires WikiStrat? && Opponents(ctx.Players(), Pid()) != [] ==> !IsEmpty(Hand())
      modifies Obj()
      ensures Hand() == old(Hand())
      ensures a.None? <==> Opponents(ctx.Players(), Pid()) == [] || IsEmpty(Hand())
      ensures a.Some? ==> a.value.askWho in Opponents(ctx.Players(), Pid())
      ensures a.Some? ==> HoldsRank(Hand(), a.value.askFor)
      ensures a.Some? ==> Pick(Opponents(ctx.Players(), Pid()), randWho) == Some(a.value.askWho)
      ensures RandomStrat? && a.Some? ==>
        ChooseRandom(Hand(), randCard).Some? && RankOf(ChooseRandom(Hand(), randCard).value) == a.value.askFor
      ensures WikiStrat? && a.None? ==> wiki.nextRank == old(wiki.nextRank)
      ensures WikiStrat? && a.Some? ==>
        FirstHeld(RanksIn(Hand()), old(wiki.nextRank), 13) == Some(a.value.askFor) &&
        wiki.nextRank == Next(a.value.askFor)
    {
      match this
      case RandomStrat(r) => a := r.Action(ctx, randWho, randCard);
      case WikiStrat(w) => a := w.Action(ctx, randWho);
    }

    /** `Strat::react`: the strategy is told of an announcement. */
    method React(ann: Announcement)
      modifies Obj()
      ensures Hand() == UpdateHand(Pid(), ann, old(Hand()))
      ensures WikiStrat? ==> wiki.nextRank == old(wiki.nextRank)
    {
      match this
      case RandomStrat(r) => r.React(ann);
      case WikiStrat(w) => w.React(ann);
    }
  }
}
