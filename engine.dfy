/**
 * The game state machine of `fish-engine/src/lib.rs`: the `Game` that deals
 * the cards round the table, lets the strategies ask each other for ranks,
 * lays down books, and tells every strategy what happened.
 */
module Engine {
  import opened CardSet
  import opened Options
  import opened Players
  import opened Protocol
  import opened CommonStrat
  import opened Strategy
  import opened Conservation
  import opened Books

  /** `GameStage`: whose turn it is, while dealing, while playing, and at the end. */
  datatype GameStage = Dealing(whoNext: PlayerId) | Playing(whoNext: PlayerId) | Done(whoNext: PlayerId)

  /**
   * The random numbers one step may use, one per call of the generator: the
   * card dealt, the opponent and the card a strategy picks, the card fished.
   */
  datatype Draws = Draws(deal: nat, askWho: nat, askCard: nat, fish: nat)

  /** `(w + 1) % n`: the next seat round the table. */
  function NextSeat(w: nat, n: nat): (r: nat)
    requires w < n
    ensures r < n
    ensures r == if w + 1 == n then 0 else w + 1
  {
    if w + 1 < n then ModSmall(w + 1, n); (w + 1) % n
    else (w + 1) % n
  }

  // ------------------------------------------------------------ helpers

  /** A player after `check_books`: complete ranks moved from the hand to the books. */
  ghost function AfterBooks(p: Player<Strat>): (q: Player<Strat>)
  {
    p.(hand := p.hand - CardsOfRanks(FullRanks(p.hand)), books := p.books + FullRanks(p.hand))
  }

  /**
   * The `GotBook` announcements of `check_books` run for seats `0 .. n - 1`
   * in seat order: each seat's complete ranks, in ascending order.
   */
  ghost function SeatBooks(ps: seq<Player<Strat>>, n: nat): (anns: seq<Announcement>)
    requires n <= |ps|
  {
    if n == 0 then [] else SeatBooks(ps, n - 1) + GotBooks(n - 1, BookOrder(ps[n - 1].hand))
  }

  /**
   * The strategies' tracked hands `tracked` become the players' hands once
   * the `pending` announcements are heard.
   */
  ghost predicate Synced(ps: seq<Player<Strat>>, pending: seq<Announcement>, tracked: seq<Cards>)
  {
    |tracked| == |ps| && forall i :: 0 <= i < |ps| ==> Replay(i, pending, tracked[i]) == ps[i].hand
  }

  /** Hearing the first pending announcement, then the rest. */
  lemma ReplayFirst(pid: PlayerId, anns: seq<Announcement>, hand: Cards)
    requires |anns| > 0
    ensures Replay(pid, anns, hand) == Replay(pid, anns[1..], UpdateHand(pid, anns[0], hand))
  {
    assert anns == [anns[0]] + anns[1..];
    ReplayAppend(pid, [anns[0]], anns[1..], hand);
    assert [anns[0]][..0] == [];
  }

  /** `check_books` of player `p` keeps the tracked hands in step. */
  lemma SyncBooks(ps: seq<Player<Strat>>, pending: seq<Announcement>, tracked: seq<Cards>, p: nat)
    requires Synced(ps, pending, tracked) && p < |ps|
    ensures Synced(ps[p := AfterBooks(ps[p])], pending + GotBooks(p, BookOrder(ps[p].hand)), tracked)
  {
    var bs := BookOrder(ps[p].hand);
    var ps' := ps[p := AfterBooks(ps[p])];
    forall i | 0 <= i < |ps|
      ensures Replay(i, pending + GotBooks(p, bs), tracked[i]) == ps'[i].hand
    {
      ReplayAppend(i, pending, GotBooks(p, bs), tracked[i]);
      ReplayGotBooks(i, p, bs, Replay(i, pending, tracked[i]));
    }
  }

  /**
   * `check_books` of seats `0 .. n - 1` in turn keeps the tracked hands in
   * step once their `GotBook`s are heard.
   */
  lemma {:induction false} SyncSeats(ps0: seq<Player<Strat>>, pending: seq<Announcement>, tracked: seq<Cards>,
                                     ps: seq<Player<Strat>>, n: nat)
    requires Synced(ps0, pending, tracked) && n <= |ps0| == |ps|
    requires forall j :: 0 <= j < |ps| ==> ps[j] == if j < n then AfterBooks(ps0[j]) else ps0[j]
    ensures Synced(ps, pending + SeatBooks(ps0, n), tracked)
    decreases n
  {
    if n == 0 {
      assert ps == ps0;
      assert pending + [] == pending;
    } else {
      var before := ps[n - 1 := ps0[n - 1]];
      assert forall j :: 0 <= j < |before| ==> before[j] == if j < n - 1 then AfterBooks(ps0[j]) else ps0[j];
      SyncSeats(ps0, pending, tracked, before, n - 1);
      var log := pending + SeatBooks(ps0, n - 1);
      SyncBooks(before, log, tracked, n - 1);
      assert before[n - 1 := AfterBooks(ps0[n - 1])] == ps;
      Associative(pending, SeatBooks(ps0, n - 1), GotBooks(n - 1, BookOrder(ps0[n - 1].hand)));
    }
  }

  /** Dealing card `c` to `w`, and telling its strategy, keeps the tracked hands in step. */
  lemma SyncDeal(ps: seq<Player<Strat>>, tracked: seq<Cards>, w: nat, c: Card)
    requires Synced(ps, [], tracked) && w < |ps|
    ensures Synced(ps[w := ps[w].(hand := ps[w].hand + {c})], [], tracked[w := tracked[w] + {c}])
  {
  }

  /**
   * The lone player with cards takes the pool and books everything: all
   * hands end empty, and so do the tracked hands once the books are heard.
   */
  lemma SyncAbsorb(pool: Cards, ps: seq<Player<Strat>>, tracked: seq<Cards>, i: nat)
    requires Conserved(pool, ps) && Synced(ps, [], tracked) && i < |ps|
    requires forall j :: 0 <= j < |ps| && j != i ==> ps[j].hand == {}
    ensures AfterBooks(ps[i].(hand := ps[i].hand + pool)).hand == {}
    ensures Synced(ps[i := AfterBooks(ps[i].(hand := ps[i].hand + pool))],
                   GotBooks(i, BookOrder(ps[i].hand + pool)), tracked)
  {
    var h := ps[i].hand + pool;
    forall c | c in h
      ensures CardsOfRank(RankOf(c)) <= h
    {
      LoneHandRanks(pool, ps, i, c);
    }
    AllBooked(h);
    var ps' := ps[i := AfterBooks(ps[i].(hand := h))];
    forall j | 0 <= j < |ps|
      ensures Replay(j, GotBooks(i, BookOrder(h)), tracked[j]) == ps'[j].hand
    {
      ReplayGotBooks(j, i, BookOrder(h), tracked[j]);
      assert Replay(j, [], tracked[j]) == tracked[j];
    }
  }

  /**
   * After an ask, the asked player's tracked hand only needs the ranks asked
   * for taken out; everybody else's already agrees.
   */
  lemma SyncAsk(ps: seq<Player<Strat>>, tracked: seq<Cards>, ann: Announcement)
    requires ann.Asked? && ann.playerAsked < |ps| && |tracked| == |ps|
    requires forall i :: 0 <= i < |ps| && i != ann.playerAsked ==> tracked[i] == ps[i].hand
    requires tracked[ann.playerAsked] - CardsOfRank(ann.askedFor) == ps[ann.playerAsked].hand
    ensures Synced(ps, [ann], tracked)
  {
    forall i | 0 <= i < |ps|
      ensures Replay(i, [ann], tracked[i]) == ps[i].hand
    {
      assert [ann][..0] == [];
    }
  }

  /** Seats counted round the table from the first dealer. */
  function Turn(i: nat, first: nat, n: nat): (t: int)
  {
    if i >= first then i - first else i + n - first
  }

  /**
   * The shape of the deal so far: `rounds` full rounds from seat `first`,
   * and one more card for each seat before `w`; no books yet.
   */
  ghost predicate RoundRobin(ps: seq<Player<Strat>>, w: nat, first: nat, rounds: nat, s: nat)
  {
    (rounds < s || (rounds == s && w == first))
    && forall i :: 0 <= i < |ps| ==>
      ps[i].books == {} &&
      |ps[i].hand| == rounds + (if Turn(i, first, |ps|) < Turn(w, first, |ps|) then 1 else 0)
  }

  /** Dealing one more card to `w` keeps the round-robin shape. */
  lemma DealRoundRobin(ps: seq<Player<Strat>>, w: nat, first: nat, rounds: nat, s: nat, c: Card)
    requires RoundRobin(ps, w, first, rounds, s) && w < |ps| && first < |ps|
    requires c !in ps[w].hand && |ps[w].hand| != s
    ensures var w' := NextSeat(w, |ps|);
            RoundRobin(ps[w := ps[w].(hand := ps[w].hand + {c})], w', first,
                       if w' == first then rounds + 1 else rounds, s)
  {
  }

  /**
   * The deal stops with `s` cards in every hand: because the pool ran out
   * (then `s` hands each would not fit otherwise), or because the next
   * dealer already has `s` (then the deal has come full circle).
   */
  lemma RoundRobinFull(pool: Cards, ps: seq<Player<Strat>>, w: nat, first: nat, rounds: nat, s: nat)
    requires RoundRobin(ps, w, first, rounds, s) && w < |ps| && first < |ps|
    requires Conserved(pool, ps) && s * |ps| <= 52
    requires pool == {} || |ps[w].hand| == s
    ensures forall i :: 0 <= i < |ps| ==> |ps[i].hand| == s
  {
    if !(rounds == s && w == first) && pool == {} {
      EvenDeal(ps, s);
    }
  }

  /** The number of players with cards in hand. */
  function Holders(ps: seq<Player<Strat>>): (n: nat)
  {
    if |ps| == 0 then 0 else Holders(ps[..|ps| - 1]) + (if IsEmpty(ps[|ps| - 1].hand) then 0 else 1)
  }

  /** The first player with cards in hand, `|ps|` if there is none. */
  function FirstHolder(ps: seq<Player<Strat>>): (i: nat)
    ensures i <= |ps|
    ensures forall j :: 0 <= j < i ==> IsEmpty(ps[j].hand)
    ensures i < |ps| ==> !IsEmpty(ps[i].hand)
  {
    if |ps| == 0 then 0
    else if !IsEmpty(ps[0].hand) then 0
    else 1 + FirstHolder(ps[1..])
  }

  /** With exactly one holder, it is the first, and every other hand is empty. */
  lemma {:induction false} OneHolder(ps: seq<Player<Strat>>) returns (k: nat)
    requires Holders(ps) == 1
    ensures k < |ps| && k == FirstHolder(ps)
    ensures forall j :: 0 <= j < |ps| && j != k ==> ps[j].hand == {}
  {
    var n := |ps|;
    var init := ps[..n - 1];
    assert forall j :: 0 <= j < n - 1 ==> init[j] == ps[j];
    if IsEmpty(ps[n - 1].hand) {
      k := OneHolder(init);
    } else {
      NoHolders(init);
      k := n - 1;
    }
    var f := FirstHolder(ps);
    assert IsEmpty(ps[k].hand) == false;
    assert f <= k;
    assert f < n ==> ps[f].hand != {};
  }

  /** With no holder, every hand is empty. */
  lemma {:induction false} NoHolders(ps: seq<Player<Strat>>)
    requires Holders(ps) == 0
    ensures forall j :: 0 <= j < |ps| ==> ps[j].hand == {}
  {
    if |ps| > 0 {
      var init := ps[..|ps| - 1];
      assert forall j :: 0 <= j < |ps| - 1 ==> init[j] == ps[j];
      NoHolders(init);
    }
  }

  /** `players.iter().all(|p| p.hand.is_empty())`. */
  predicate AllEmpty(ps: seq<Player<Strat>>)
  {
    forall i :: 0 <= i < |ps| ==> IsEmpty(ps[i].hand)
  }

  /** A card in `pool` and `ps[..i]` together, with what `ps[i]` holds, that is counted twice. */
  lemma Overfull(pool: Cards, ps: seq<Player<Strat>>, i: nat, c: Card)
    requires i < |ps| && Count(pool, ps[..i], c) + Held(ps[i], c) >= 2
    ensures !Conserved(pool, ps)
  {
    HeldByPrefix(ps, i, c);
    HeldByPrefixBelow(ps, i + 1, c);
    assert Count(pool, ps, c) >= 2;
  }

  /**
   * The inner loop of `check_validity` for one player's books: the four
   * cards of each rank of `order` join `seen`. `clash` is the first card met
   * that was already seen; with none, `seen` has grown by exactly those
   * ranks, none of whose cards had been seen.
   */
  method SeeBooks(seen0: Cards, order: seq<Rank>) returns (clash: Option<Card>, seen: Cards)
    requires Ascending(order)
    ensures clash.Some? ==> clash.value in seen0 && RankOf(clash.value) in order
    ensures clash.None? ==> forall c: Card :: c in seen <==> c in seen0 || RankOf(c) in order
    ensures clash.None? ==> forall c: Card :: c in seen0 ==> RankOf(c) !in order
  {
    seen := seen0;
    var k := 0;
    while k < |order|
      invariant 0 <= k <= |order|
      invariant forall c: Card :: c in seen <==> c in seen0 || RankOf(c) in order[..k]
      invariant forall c: Card :: c in seen0 ==> RankOf(c) !in order[..k]
    {
      var rank := InAllSuits(order[k]);
      if !IsEmpty(Intersection(seen, rank)) {
        var c :| c in Intersection(seen, rank);
        assert RankOf(c) !in order[..k];
        return Some(c), seen;
      }
      seen := Union(rank, seen);
      assert order[..k + 1] == order[..k] + [order[k]];
      k := k + 1;
    }
    assert order[..k] == order;
    return None, seen;
  }

  // ------------------------------------------------------------ the game

  /**
   * The players of `Game::new`: seat `i` gets a fresh strategy from
   * `builders[i]`, told its id `i`, and starts with no cards and no books.
   */
  method NewPlayers(builders: seq<StratBuilder>) returns (ps: seq<Player<Strat>>)
    ensures |ps| == |builders|
    ensures forall i :: 0 <= i < |ps| ==>
      ps[i].hand == {} && ps[i].books == {} && fresh(ps[i].strategy.Obj()) &&
      ps[i].strategy.Pid() == i && ps[i].strategy.Hand() == {} &&
      (ps[i].strategy.RandomStrat? <==> builders[i].RandomBuilder?)
    ensures forall i, j :: 0 <= i < j < |ps| ==> ps[i].strategy.Obj() != ps[j].strategy.Obj()
  {
    ps := [];
    var i := 0;
    while i < |builders|
      invariant 0 <= i <= |builders| && |ps| == i
      invariant forall j :: 0 <= j < i ==>
        ps[j].hand == {} && ps[j].books == {} && fresh(ps[j].strategy.Obj()) &&
        ps[j].strategy.Pid() == j && ps[j].strategy.Hand() == {} &&
        (ps[j].strategy.RandomStrat? <==> builders[j].RandomBuilder?)
      invariant forall j, k :: 0 <= j < k < i ==> ps[j].strategy.Obj() != ps[k].strategy.Obj()
    {
      var s := builders[i].Init(i);
      ps := ps + [NewPlayer(s)];
      i := i + 1;
    }
  }


  /** `Game`: the cards in the pool, the players, what has been announced, and the stage. */
  class Game {
    const startingCards: nat
    var pool: Cards
    var players: seq<Player<Strat>>
    var announcements: seq<Announcement>
    var stage: GameStage
    const ctx: Context
    /** The strategy objects, one per seat, as created. */
    ghost const strats: seq<Strat>
    /** The seat the deal started at, and the full rounds dealt since. */
    ghost const firstDealer: nat
    ghost var rounds: nat

    /** The strategies' state. */
    ghost function Objs(): (os: set<object>)
    {
      set i | 0 <= i < |strats| :: strats[i].Obj()
    }

    /** The hands the strategies keep track of. */
    ghost function Tracked(): (t: seq<Cards>)
      reads Objs()
      ensures |t| == |strats|
      ensures forall i :: 0 <= i < |strats| ==> t[i] == strats[i].Hand()
    {
      seq(|strats|, i requires 0 <= i < |strats| reads Objs() => strats[i].Hand())
    }

    /**
     * The seats, fixed at creation: one strategy per seat, each with its own
     * object and the id of its seat, none of them the game or its context.
     */
    ghost predicate Seats()
    {
      |strats| >= 1 && firstDealer < |strats|
      && (forall i :: 0 <= i < |strats| ==> strats[i].Pid() == i)
      && (forall i, j :: 0 <= i < j < |strats| ==> strats[i].Obj() != strats[j].Obj())
      && ctx !in Objs() && this !in Objs()
    }

    /** One player per seat, playing the seat's strategy. */
    ghost predicate Shape()
      reads this`players, ctx`players
    {
      Seats() && |players| == |strats| && |ctx.players| == |players|
      && startingCards * |players| <= 52
      && (forall i :: 0 <= i < |players| ==> players[i].strategy == strats[i])
    }

    /**
     * The invariant between steps, with the announcements from `from` on not
     * yet told to the strategies: every card in exactly one place, the
     * tracked hands right once those announcements are heard, and while
     * dealing, the round-robin shape of the deal.
     */
    ghost predicate Between(from: nat)
      reads this, ctx, Objs()
    {
      Shape() && stage.whoNext < |players| && Conserved(pool, players)
      && from <= |announcements| && Synced(players, announcements[from..], Tracked())
      && (stage.Dealing? ==> RoundRobin(players, stage.whoNext, firstDealer, rounds, startingCards))
      && (stage.Done? ==> forall i :: 0 <= i < |players| ==> players[i].hand == {})
    }

    /** The invariant of a game between two steps. */
    ghost predicate Valid()
      reads this, ctx, Objs()
    {
      Between(|announcements|)
    }

    /**
     * `Game::new`: the whole deck in the pool, one player per builder with
     * an empty hand, and the deal starting at seat `randFirst % |builders|`.
     */
    constructor (startingCards: nat, builders: seq<StratBuilder>, randFirst: nat)
      requires |builders| >= 1 && startingCards * |builders| <= 52
      ensures Valid() && fresh(ctx) && fresh(Objs())
      ensures this.startingCards == startingCards && pool == All() && announcements == []
      ensures |players| == |builders|
      ensures forall i :: 0 <= i < |players| ==>
        players[i].hand == {} && players[i].books == {} &&
        (players[i].strategy.RandomStrat? <==> builders[i].RandomBuilder?)
      ensures stage == Dealing(randFirst % |builders|)
    {
      var n := |builders|;
      var c := new Context(n);
      var ps := NewPlayers(builders);
      this.startingCards := startingCards;
      pool := All();
      players := ps;
      announcements := [];
      stage := Dealing(randFirst % n);
      ctx := c;
      strats := seq(n, j requires 0 <= j < n => ps[j].strategy);
      firstDealer := randFirst % n;
      rounds := 0;
      new;
      NewConserved(players);
    }

    /** `Player::deal_card`: the strategy hears of the card, then it joins the hand. */
    method DealCard(i: nat, c: Card)
      requires Shape() && i < |players|
      modifies this, strats[i].Obj()
      ensures Shape()
      ensures players == old(players)[i := old(players[i]).(hand := old(players[i].hand) + {c})]
      ensures Tracked() == old(Tracked())[i := old(Tracked()[i]) + {c}]
      ensures pool == old(pool) && announcements == old(announcements)
      ensures stage == old(stage) && rounds == old(rounds)
    {
      players[i].strategy.DealCard(c);
      players := players[i := players[i].(hand := Add(players[i].hand, c))];
    }

    /**
     * `check_validity`: walks the pool, then each hand and each book,
     * collecting the cards seen. The result is `false` exactly where the
     * source panics: a card seen twice, or a card seen nowhere; so it is
     * `true` exactly when every card is in exactly one place.
     */
    method CheckValidity() returns (ok: bool)
      ensures ok <==> Conserved(pool, players)
    {
      var ps := players;
      var seen := pool;
      var i := 0;
      while i < |ps|
        invariant 0 <= i <= |ps|
        invariant forall c: Card :: c in seen <==> Count(pool, ps[..i], c) >= 1
        invariant forall c: Card :: Count(pool, ps[..i], c) <= 1
      {
        var p := ps[i];
        if !IsEmpty(Intersection(pool, p.hand)) {
          var c :| c in Intersection(pool, p.hand);
          Overfull(pool, ps, i, c);
          return false;
        }
        if !IsEmpty(Intersection(seen, p.hand)) {
          var c :| c in Intersection(seen, p.hand);
          Overfull(pool, ps, i, c);
          return false;
        }
        forall c: Card | c in p.hand
          ensures c !in seen
        {
          assert c !in Intersection(seen, p.hand);
        }
        ghost var before := seen;
        seen := Union(p.hand, seen);
        assert forall c: Card :: c in seen <==> c in p.hand || c in before;
        var order := RanksIter(p.books);
        RanksIterAscending(p.books);
        var clash, next := SeeBooks(seen, order);
        if clash.Some? {
          Overfull(pool, ps, i, clash.value);
          return false;
        }
        seen := next;
        forall c: Card
          ensures Count(pool, ps[..i + 1], c) == Count(pool, ps[..i], c) + Held(p, c)
        {
          HeldByPrefix(ps, i, c);
        }
        i := i + 1;
      }
      assert ps[..i] == ps;
      if seen != All() {
        var c :| c !in seen;
        return false;
      }
      return true;
    }

    /**
     * The body of `check_books` for one complete rank: its four cards leave
     * player `p`'s hand, a `GotBook` is announced, the rank joins the books.
     */
    method Book(p: nat, rank: Rank)
      requires Seats() && p < |players|
      modifies this
      ensures players == old(players)[p := old(players[p]).(hand := old(players[p].hand) - CardsOfRank(rank),
                                                            books := old(players[p].books) + {rank})]
      ensures announcements == old(announcements) + [GotBook(p, rank)]
      ensures pool == old(pool) && stage == old(stage) && rounds == old(rounds)
      ensures Tracked() == old(Tracked())
    {
      InAllSuitsIsRank(rank);
      players := players[p := players[p].(hand := Remove(players[p].hand, InAllSuits(rank)))];
      announcements := announcements + [GotBook(p, rank)];
      players := players[p := players[p].(books := players[p].books + {rank})];
    }

    /**
     * `Game::step`: refresh the public view, take one step, then tell every
     * strategy each announcement the step made, in order. The invariant is
     * kept and the announcement log only grows.
     */
    method Step(draws: Draws) returns (ghost action: Option<Action>)
      requires Valid()
      modifies this, ctx, Objs()
      ensures Valid()
      ensures |announcements| >= old(|announcements|)
      ensures announcements[..old(|announcements|)] == old(announcements)
      ensures old(stage).Done? ==>
        stage == old(stage) && pool == old(pool) && players == old(players) && announcements == old(announcements)
      ensures old(stage).Dealing? ==>
        old(stage).whoNext < old(|players|) &&
        DealingStep(startingCards, old(stage).whoNext, draws.deal, old(pool), old(players), old(announcements),
                    pool, players, announcements, stage)
      ensures old(stage).Playing? ==>
        old(stage).whoNext < old(|players|) &&
        PlayingStep(old(stage).whoNext, draws.fish, action, old(pool), old(players), old(announcements),
                    pool, players, announcements, stage)
    {
      ctx.Update(players);
      var prevCount := |announcements|;
      action := StepInner(draws);
      Broadcast(prevCount);
    }

    /** The loop of `Game::step`: every strategy hears every announcement from `from` on. */
    method Broadcast(from: nat)
      requires Shape() && from <= |announcements| && Synced(players, announcements[from..], Tracked())
      modifies Objs()
      ensures Synced(players, [], Tracked())
    {
      var k := from;
      while k < |announcements|
        invariant from <= k <= |announcements|
        invariant Synced(players, announcements[k..], Tracked())
      {
        ghost var heard := Tracked();
        Tell(announcements[k]);
        forall i | 0 <= i < |players|
          ensures Replay(i, announcements[k + 1..], Tracked()[i]) == players[i].hand
        {
          ReplayFirst(i, announcements[k..], heard[i]);
          assert announcements[k..][1..] == announcements[k + 1..];
        }
        k := k + 1;
      }
    }

    /** Every strategy, in seat order, reacts to the announcement `ann`. */
    method Tell(ann: Announcement)
      requires Shape()
      modifies Objs()
      ensures forall i :: 0 <= i < |players| ==> Tracked()[i] == UpdateHand(i, ann, old(Tracked()[i]))
    {
      ghost var heard := Tracked();
      var j := 0;
      while j < |players|
        invariant 0 <= j <= |players|
        invariant forall i :: 0 <= i < j ==> Tracked()[i] == UpdateHand(i, ann, heard[i])
        invariant forall i :: j <= i < |players| ==> Tracked()[i] == heard[i]
      {
        players[j].strategy.React(ann);
        j := j + 1;
      }
    }

    /** `step_inner`: one transition of the stage machine. */
    method StepInner(draws: Draws) returns (ghost action: Option<Action>)
      requires Valid()
      modifies this, ctx, Objs()
      ensures Between(old(|announcements|))
      ensures announcements[..old(|announcements|)] == old(announcements)
      ensures old(stage).Dealing? ==>
        old(stage).whoNext < old(|players|) &&
        DealingStep(startingCards, old(stage).whoNext, draws.deal, old(pool), old(players), old(announcements),
                    pool, players, announcements, stage)
      ensures old(stage).Playing? ==>
        old(stage).whoNext < old(|players|) &&
        PlayingStep(old(stage).whoNext, draws.fish, action, old(pool), old(players), old(announcements),
                    pool, players, announcements, stage)
      ensures old(stage).Done? ==>
        stage == old(stage) && pool == old(pool) && players == old(players) && announcements == old(announcements)
    {
      action := None;
      match stage
      case Dealing(w) => StepDealing(w, draws.deal);
      case Playing(w) => action := StepPlaying(w, draws);
      case Done(_) =>
    }

    /**
     * The `Dealing` stage: once the pool is empty or the next player already
     * holds `startingCards`, play starts; otherwise the next player is dealt
     * one random card and the turn moves round the table.
     */
    method StepDealing(w: nat, rand: nat)
      requires Valid() && stage == Dealing(w)
      modifies this, Objs()
      ensures Between(old(|announcements|))
      ensures announcements[..old(|announcements|)] == old(announcements)
      ensures |players| == old(|players|)
      ensures old(IsEmpty(pool) || Num(players[w].hand) == startingCards) ==>
        stage == Playing(w) && pool == old(pool) &&
        (forall i :: 0 <= i < |players| ==>
          |old(players[i].hand)| == startingCards && players[i] == AfterBooks(old(players[i]))) &&
        announcements == old(announcements) + SeatBooks(old(players), |players|)
      ensures !old(IsEmpty(pool) || Num(players[w].hand) == startingCards) ==>
        ChooseRandom(old(pool), rand).Some? &&
        (var c := ChooseRandom(old(pool), rand).value;
         c !in old(players[w].hand) && pool == old(pool) - {c} &&
         players == old(players)[w := old(players[w]).(hand := old(players[w].hand) + {c})]) &&
        stage == Dealing(NextSeat(w, |players|)) && announcements == old(announcements)
    {
      if IsEmpty(pool) || Num(players[w].hand) == startingCards {
        StartPlaying(w);
      } else {
        DealNext(w, rand);
      }
    }

    /**
     * From `Dealing` to `Playing`: every player holds exactly
     * `startingCards` (the `assert_eq!` cannot fail), and each one's books
     * are laid down in seat order.
     */
    method StartPlaying(w: nat)
      requires Valid() && stage == Dealing(w)
      requires IsEmpty(pool) || Num(players[w].hand) == startingCards
      modifies this
      ensures Between(old(|announcements|)) && stage == Playing(w) && pool == old(pool)
      ensures |players| == old(|players|)
      ensures forall i :: 0 <= i < |players| ==>
        |old(players[i].hand)| == startingCards && players[i] == AfterBooks(old(players[i]))
      ensures announcements == old(announcements) + SeatBooks(old(players), |players|)
    {
      assert IsEmpty(pool) ==> pool == {};
      RoundRobinFull(pool, players, w, firstDealer, rounds, startingCards);
      stage := Playing(w);
      BookEach(|announcements|);
    }

    /** `check_books` for every player, in seat order. */
    method BookEach(ghost from: nat)
      requires Between(from) && stage.Playing?
      modifies this
      ensures Between(from) && stage == old(stage) && pool == old(pool)
      ensures |players| == old(|players|)
      ensures forall i :: 0 <= i < |players| ==> players[i] == AfterBooks(old(players[i]))
      ensures announcements == old(announcements) + SeatBooks(old(players), |players|)
    {
      ghost var ps0, a0, t0 := players, announcements, Tracked();
      BookSeats();
      SyncSeats(ps0, a0[from..], t0, players, |players|);
      DropAppend(a0[..from], a0[from..], SeatBooks(ps0, |players|), a0);
    }

    /** The loop of `check_books` calls over the seats, in seat order. */
    method BookSeats()
      requires Shape() && Conserved(pool, players)
      modifies this
      ensures Shape() && Conserved(pool, players) && Tracked() == old(Tracked())
      ensures stage == old(stage) && pool == old(pool) && rounds == old(rounds)
      ensures |players| == old(|players|)
      ensures forall j :: 0 <= j < |players| ==> players[j] == AfterBooks(old(players[j]))
      ensures announcements == old(announcements) + SeatBooks(old(players), |players|)
    {
      ghost var ps0, a0 := players, announcements;
      var i := 0;
      while i < |players|
        invariant 0 <= i <= |players| == |ps0|
        invariant Shape() && Conserved(pool, players) && Tracked() == old(Tracked())
        invariant stage == old(stage) && pool == old(pool) && rounds == old(rounds)
        invariant forall j :: 0 <= j < |players| ==> players[j] == if j < i then AfterBooks(ps0[j]) else ps0[j]
        invariant announcements == a0 + SeatBooks(ps0, i)
      {
        BookSeat(i, ps0, a0);
        i := i + 1;
      }
    }

    /** One turn of that loop: `check_books` for seat `i`. */
    method BookSeat(i: nat, ghost ps0: seq<Player<Strat>>, ghost a0: seq<Announcement>)
      requires i < |players| == |ps0| && Shape() && Conserved(pool, players)
      requires forall j :: 0 <= j < |players| ==> players[j] == if j < i then AfterBooks(ps0[j]) else ps0[j]
      requires announcements == a0 + SeatBooks(ps0, i)
      modifies this
      ensures |players| == |ps0| && Shape() && Conserved(pool, players) && Tracked() == old(Tracked())
      ensures stage == old(stage) && pool == old(pool) && rounds == old(rounds)
      ensures forall j :: 0 <= j < |players| ==> players[j] == if j <= i then AfterBooks(ps0[j]) else ps0[j]
      ensures announcements == a0 + SeatBooks(ps0, i + 1)
    {
      ghost var ps1 := players;
      CheckBooks(i);
      assert players == ps1[i := AfterBooks(ps0[i])];
      Associative(a0, SeatBooks(ps0, i), GotBooks(i, BookOrder(ps0[i].hand)));
    }

    /** One card of the pool, drawn with `rand`, dealt to `w`; the turn moves on. */
    method DealNext(w: nat, rand: nat)
      requires Valid() && stage == Dealing(w)
      requires !IsEmpty(pool) && Num(players[w].hand) != startingCards
      modifies this, strats[w].Obj()
      ensures Valid()
      ensures ChooseRandom(old(pool), rand).Some?
      ensures var c := ChooseRandom(old(pool), rand).value;
              c !in old(players[w].hand) && pool == old(pool) - {c} &&
              players == old(players)[w := old(players[w]).(hand := old(players[w].hand) + {c})]
      ensures stage == Dealing(NextSeat(w, |players|)) && announcements == old(announcements)
    {
      // `let Some(c) = self.pool.choose_random() else { panic!(..) }`: the pool is not empty
      var c := ChooseRandom(pool, rand).value;
      ghost var ps0 := players;
      DealTo(w, c);
      DealRoundRobin(ps0, w, firstDealer, rounds, startingCards, c);
      PassDeal(w);
      assert announcements[|announcements|..] == [];
    }

    /** The deal moves on to the next seat; back at the first dealer, one more round is complete. */
    method PassDeal(w: nat)
      requires Shape() && w < |players|
      modifies this`stage, this`rounds
      ensures Shape() && Tracked() == old(Tracked())
      ensures stage == Dealing(NextSeat(w, |players|))
      ensures rounds == if NextSeat(w, |players|) == firstDealer then old(rounds) + 1 else old(rounds)
    {
      var next := NextSeat(w, |players|);
      stage := Dealing(next);
      if next == firstDealer {
        rounds := rounds + 1;
      }
    }

    /**
     * The card `c` leaves the pool and is dealt to `w`, whose strategy hears
     * of it: every card stays in one place and the tracked hands in step.
     */
    method DealTo(w: nat, c: Card)
      requires Shape() && w < |players| && c in pool
      requires Conserved(pool, players) && Synced(players, [], Tracked())
      modifies this, strats[w].Obj()
      ensures Shape() && Conserved(pool, players) && Synced(players, [], Tracked())
      ensures c !in old(players[w].hand)
      ensures pool == old(pool) - {c} && players == old(players)[w := old(players[w]).(hand := old(players[w].hand) + {c})]
      ensures announcements == old(announcements) && stage == old(stage) && rounds == old(rounds)
    {
      ghost var pool0, ps0, t0 := pool, players, Tracked();
      DealConserved(pool, players, w, c);
      SyncDeal(players, Tracked(), w, c);
      pool := RemoveOne(pool, c);
      assert pool == pool0 - {c};
      assert Tracked() == t0;
      DealCard(w, c);
      assert Tracked() == t0[w := t0[w] + {c}];
    }

    /**
     * The `Playing` stage: with no cards in any hand the game is done; with
     * one hand left, it takes the pool; a player without cards is skipped;
     * otherwise the player's strategy asks, the ask is resolved and the
     * asker's books are laid down. A player left without cards passes the
     * turn on.
     */
    method StepPlaying(w: nat, draws: Draws) returns (ghost action: Option<Action>)
      requires Valid() && stage == Playing(w)
      modifies this, ctx, Objs()
      ensures Between(old(|announcements|))
      ensures announcements[..old(|announcements|)] == old(announcements)
      ensures |players| == old(|players|)
      ensures old(AllEmpty(players)) ==>
        stage == Done(w) && players == old(players) && pool == old(pool) && announcements == old(announcements)
      ensures old(!AllEmpty(players) && Holders(players) == 1) ==>
        stage == Playing(w) && pool == {} && (forall i :: 0 <= i < |players| ==> players[i].hand == {}) &&
        var i := FirstHolder(old(players));
        i < |players| &&
        players == old(players)[i := AfterBooks(old(players[i]).(hand := old(players[i].hand) + old(pool)))] &&
        announcements == old(announcements) + GotBooks(i, BookOrder(old(players[i].hand) + old(pool)))
      ensures old(!AllEmpty(players) && Holders(players) != 1) ==>
        (action.Some? ==> action.value.askWho < |players| && action.value.askWho != w) &&
        TurnTaken(old(pool), old(players), old(announcements), w, action, draws.fish, pool, players, announcements, stage)
    {
      if AllEmpty(players) {
        stage := Done(w);
        return None;
      }
      if Holders(players) == 1 {
        Absorb();
        return None;
      }
      action := TakeTurn(w, draws);
    }

    /**
     * An ordinary turn of player `w`: with no cards the turn passes on;
     * otherwise the strategy may ask, and the ask is played out.
     */
    method TakeTurn(w: nat, draws: Draws) returns (ghost action: Option<Action>)
      requires Valid() && stage == Playing(w)
      modifies this, ctx, Objs()
      ensures Between(old(|announcements|))
      ensures announcements[..old(|announcements|)] == old(announcements)
      ensures |players| == old(|players|)
      ensures IsEmpty(old(players[w].hand)) ==> action.None?
      ensures action.Some? ==>
        action.value.askWho < |players| && action.value.askWho != w && HoldsRank(old(players[w].hand), action.value.askFor)
      ensures TurnTaken(old(pool), old(players), old(announcements), w, action, draws.fish, pool, players, announcements, stage)
    {
      Inform();
      if IsEmpty(players[w].hand) {
        stage := Playing(NextSeat(w, |players|));
        return None;
      }
      assert announcements[|announcements|..] == [];
      var a := Decide(w, draws.askWho, draws.askCard);
      action := a;
      if a.Some? {
        var asked := Play(w, a.value, draws.fish);
        if !asked {
          return;
        }
      }
      if IsEmpty(players[w].hand) {
        PassTurn(old(|announcements|), NextSeat(w, |players|));
      }
    }

    /**
     * `p.strategy.action(&self.ctx)` for the player `w` to move, who holds
     * cards: an ask, if any, goes to another seat and names a rank the player
     * holds. The strategy's tracked hands stay as they are.
     */
    method Decide(w: nat, randWho: nat, randCard: nat) returns (a: Option<Action>)
      requires Shape() && w < |players| && !IsEmpty(players[w].hand) && Synced(players, [], Tracked())
      requires forall i :: 0 <= i < |players| ==> ctx.players[i] == Info(players[i])
      modifies strats[w].Obj()
      ensures Tracked() == old(Tracked())
      ensures a.Some? ==> a.value.askWho < |players| && a.value.askWho != w
      ensures a.Some? ==> HoldsRank(players[w].hand, a.value.askFor)
    {
      assert Tracked()[w] == players[w].hand;
      ghost var t0 := Tracked();
      a := players[w].strategy.Action(ctx, randWho, randCard);
      assert forall i :: 0 <= i < |strats| ==> Tracked()[i] == t0[i];
      OpponentsInContext(ctx, w);
      // `panic!("Tried to ask self for cards!")` cannot happen
      assert a.Some? ==> a.value.askWho != w;
    }

    /**
     * The ask `action` of player `w`, then, when it was made with a rank in
     * hand, `w`'s books: `asked` says whether the ask was made.
     */
    method Play(w: nat, action: Action, fish: nat) returns (asked: bool)
      requires Valid() && stage == Playing(w)
      requires action.askWho < |players| && action.askWho != w
      modifies this, ctx, strats[w].Obj()
      ensures Between(old(|announcements|))
      ensures announcements[..old(|announcements|)] == old(announcements)
      ensures asked <==> HoldsRank(old(players[w].hand), action.askFor)
      ensures !asked ==> players == old(players) && pool == old(pool) && announcements == old(announcements) && stage == old(stage)
      ensures asked ==> stage == Playing(NextSeat(w, |players|))
      ensures asked ==> AskPlayed(old(pool), old(players), old(announcements), w, action, fish, pool, players, announcements)
    {
      var response := Ask(w, action, fish);
      if response.None? {
        return false;
      }
      assert response.value == Answer(old(players), action.askWho, action.askFor);
      assert (pool, players) == Exchanged(old(pool), old(players), w, action.askWho, action.askFor, fish);
      ghost var pending := announcements[old(|announcements|)..];
      SyncBooks(players, pending, Tracked(), w);
      DropAppend(old(announcements), pending, GotBooks(w, BookOrder(players[w].hand)), announcements);
      CheckBooks(w);
      return true;
    }

    /** The turn passes to seat `next`. */
    method PassTurn(ghost from: nat, next: nat)
      requires Between(from) && stage.Playing? && next < |players|
      modifies this`stage
      ensures Between(from) && stage == Playing(next)
    {
      stage := Playing(next);
    }

    /**
     * The endgame: the one player with cards takes the whole pool and lays
     * down its books, which leaves every hand and the pool empty.
     */
    method Absorb()
      requires Valid() && stage.Playing? && Holders(players) == 1
      modifies this
      ensures Between(old(|announcements|)) && stage == old(stage)
      ensures pool == {} && forall i :: 0 <= i < |players| ==> players[i].hand == {}
      ensures var i := FirstHolder(old(players));
              i < |players| &&
              players == old(players)[i := AfterBooks(old(players[i]).(hand := old(players[i].hand) + old(pool)))] &&
              announcements == old(announcements) + GotBooks(i, BookOrder(old(players[i].hand) + old(pool)))
    {
      var idx := FirstHolder(players);
      ghost var k := OneHolder(players);
      ghost var pool0, ps0, t0, a0 := pool, players, Tracked(), announcements;
      TakePool(idx);
      ghost var ps1 := players;
      CheckBooks(idx);
      SyncAbsorb(pool0, ps0, t0, idx);
      UpdateTwice(ps0, idx, ps1[idx], AfterBooks(ps1[idx]));
      assert players == ps0[idx := AfterBooks(ps0[idx].(hand := ps0[idx].hand + pool0))];
      assert announcements[|a0|..] == GotBooks(idx, BookOrder(ps0[idx].hand + pool0));
    }

    /** The pool joins the hand of player `i` and is left empty. */
    method TakePool(i: nat)
      requires Shape() && i < |players| && Conserved(pool, players)
      modifies this
      ensures Shape() && Conserved(pool, players)
      ensures pool == {} && players == old(players)[i := old(players[i]).(hand := old(players[i].hand) + old(pool))]
      ensures Tracked() == old(Tracked())
      ensures announcements == old(announcements) && stage == old(stage) && rounds == old(rounds)
    {
      AbsorbConserved(pool, players, i);
      players := players[i := players[i].(hand := Union(players[i].hand, pool))];
      pool := Empty();
    }

    /**
     * Resolving the ask of player `w`: nothing happens when `w` holds no card
     * of the rank. Otherwise the asked player hands over all its cards of
     * the rank, or, holding none, sends `w` fishing in the pool; the ask is
     * announced and the turn moves on.
     */
    method Ask(w: nat, action: Action, fish: nat) returns (response: Option<Response>)
      requires Valid() && stage == Playing(w)
      requires action.askWho < |players| && action.askWho != w
      modifies this, ctx, strats[w].Obj()
      ensures response.None? <==> !HoldsRank(old(players[w].hand), action.askFor)
      ensures response.None? ==>
        Valid() && players == old(players) && pool == old(pool) &&
        announcements == old(announcements) && stage == old(stage)
      ensures response.Some? ==>
        Between(old(|announcements|)) && stage == Playing(NextSeat(w, |players|)) &&
        announcements == old(announcements) + [Asked(w, action.askWho, action.askFor, response.value)] &&
        (response.value.GoFish? <==> !HoldsRank(old(players[action.askWho].hand), action.askFor))
      ensures response == Some(GoFish) ==> Fished(old(pool), old(players), w, fish, pool, players)
      ensures response.Some? && response.value.TakeThese? ==>
        var had := old(players[action.askWho].hand) * CardsOfRank(action.askFor);
        response.value.count == |had| && pool == old(pool) &&
        players == old(players)[action.askWho := old(players[action.askWho]).(hand := old(players[action.askWho].hand) - had)]
                               [w := old(players[w]).(hand := old(players[w].hand) + had)]
    {
      var rank := action.askFor;
      if IsEmpty(Intersection(players[w].hand, InAllSuits(rank))) {
        InAllSuitsIsRank(rank);
        return None;
      }
      var r := Resolve(w, action.askWho, rank, fish);
      response := Some(r);
    }

    /** An ask of `w` to `asked` for a rank `w` holds: the cards change hands, the ask is announced, the turn passes. */
    method Resolve(w: nat, asked: nat, rank: Rank, fish: nat) returns (r: Response)
      requires Valid() && stage == Playing(w)
      requires asked < |players| && asked != w
      modifies this, ctx, strats[w].Obj()
      ensures Between(old(|announcements|)) && stage == Playing(NextSeat(w, |players|))
      ensures announcements == old(announcements) + [Asked(w, asked, rank, r)]
      ensures r.GoFish? <==> !HoldsRank(old(players[asked].hand), rank)
      ensures r.GoFish? ==> Fished(old(pool), old(players), w, fish, pool, players)
      ensures r.TakeThese? ==>
        var had := old(players[asked].hand) * CardsOfRank(rank);
        r.count == |had| && pool == old(pool) &&
        players == old(players)[asked := old(players[asked]).(hand := old(players[asked].hand) - had)]
                               [w := old(players[w]).(hand := old(players[w].hand) + had)]
    {
      Inform();
      assert announcements[|announcements|..] == [];
      r := Exchange(w, asked, rank, fish);
      Announce(Asked(w, asked, rank, r), NextSeat(w, |players|));
    }

    /** `self.ctx.update(&self.players)`: the context shows the players as they are. */
    method Inform()
      requires Shape()
      modifies ctx
      ensures Shape() && Tracked() == old(Tracked())
      ensures forall i :: 0 <= i < |players| ==> ctx.players[i] == Info(players[i])
    {
      ctx.Update(players);
    }

    /** The announcement `ann` is pushed and the turn passes to seat `next`. */
    method Announce(ann: Announcement, next: nat)
      requires Shape() && Synced(players, [ann], Tracked())
      modifies this`announcements, this`stage
      ensures Shape() && Tracked() == old(Tracked())
      ensures announcements == old(announcements) + [ann] && stage == Playing(next)
      ensures Synced(players, announcements[old(|announcements|)..], Tracked())
    {
      announcements := announcements + [ann];
      stage := Playing(next);
      assert announcements[old(|announcements|)..] == [ann];
    }

    /**
     * The cards change hands for an ask of `w` to `asked` for `rank`: all of
     * them when `asked` holds the rank, else `w` goes fishing. The strategies
     * are in step once they hear the ask.
     */
    method Exchange(w: nat, asked: nat, rank: Rank, fish: nat) returns (r: Response)
      requires Shape() && w < |players| && asked < |players| && w != asked
      requires Conserved(pool, players) && Synced(players, [], Tracked())
      modifies this, strats[w].Obj()
      ensures Shape() && Conserved(pool, players) && Synced(players, [Asked(w, asked, rank, r)], Tracked())
      ensures r.GoFish? <==> !HoldsRank(old(players[asked].hand), rank)
      ensures r.GoFish? ==> Fished(old(pool), old(players), w, fish, pool, players)
      ensures r.TakeThese? ==>
        var had := old(players[asked].hand) * CardsOfRank(rank);
        r.count == |had| && pool == old(pool) &&
        players == old(players)[asked := old(players[asked]).(hand := old(players[asked].hand) - had)]
                               [w := old(players[w]).(hand := old(players[w].hand) + had)]
      ensures announcements == old(announcements) && stage == old(stage) && rounds == old(rounds)
    {
      InAllSuitsIsRank(rank);
      if IsEmpty(Intersection(players[asked].hand, InAllSuits(rank))) {
        Fish(w, fish);
        r := GoFish;
      } else {
        var count := HandOver(w, asked, rank);
        r := TakeThese(count);
      }
      SyncAsk(players, Tracked(), Asked(w, asked, rank, r));
    }

    /**
     * Go fish: when the pool has cards, one drawn with `fish` is dealt to
     * `w`; the validity check that follows cannot fail.
     */
    method Fish(w: nat, fish: nat)
      requires Shape() && w < |players| && Conserved(pool, players) && Synced(players, [], Tracked())
      modifies this, strats[w].Obj()
      ensures Shape() && Conserved(pool, players) && Synced(players, [], Tracked())
      ensures Fished(old(pool), old(players), w, fish, pool, players)
      ensures announcements == old(announcements) && stage == old(stage) && rounds == old(rounds)
    {
      var drawn := ChooseRandom(pool, fish);
      if drawn.Some? {
        DealTo(w, drawn.value);
      }
      var ok := CheckValidity();
      assert ok;
    }

    /**
     * The asked player `asked` gives every card of `rank` it holds to `w`,
     * one by one; `count` is how many.
     */
    method HandOver(w: nat, asked: nat, rank: Rank) returns (count: nat)
      requires Shape() && w < |players| && asked < |players| && w != asked
      requires Conserved(pool, players)
      modifies this, strats[w].Obj()
      ensures Shape() && Conserved(pool, players)
      ensures count == |old(players[asked].hand) * CardsOfRank(rank)|
      ensures players == Moved(old(players), asked, w, old(players[asked].hand) * CardsOfRank(rank))
      ensures Tracked() == old(Tracked())[w := old(Tracked()[w]) + old(players[asked].hand) * CardsOfRank(rank)]
      ensures pool == old(pool) && announcements == old(announcements) && stage == old(stage) && rounds == old(rounds)
    {
      ghost var ps0, t0 := players, Tracked();
      var had := Intersection(players[asked].hand, InAllSuits(rank));
      InAllSuitsIsRank(rank);
      assert had == ps0[asked].hand * CardsOfRank(rank);
      MoveConserved(pool, players, asked, w, had);
      var cs := Iter(had);
      assert Listed(cs) == had;
      TakeEach(asked, cs);
      ghost var ps1 := players;
      assert ps1[w] == ps0[w];
      assert Tracked() == t0;
      DealEach(w, cs);
      assert players == ps1[w := ps0[w].(hand := ps0[w].hand + had)];
      count := Num(had);
    }

    /** `for c in had.iter() { asked.take(c) }`. */
    method TakeEach(asked: nat, cs: seq<Card>)
      requires asked < |players|
      modifies this
      ensures players == old(players)[asked := old(players[asked]).(hand := old(players[asked].hand) - Listed(cs))]
      ensures pool == old(pool) && announcements == old(announcements) && stage == old(stage) && rounds == old(rounds)
    {
      ghost var p0 := players[asked];
      var k := 0;
      assert Listed(cs[..0]) == {};
      assert p0.(hand := p0.hand - Listed(cs[..0])) == p0;
      assert players == old(players)[asked := p0];
      while k < |cs|
        invariant 0 <= k <= |cs|
        invariant pool == old(pool) && announcements == old(announcements) && stage == old(stage) && rounds == old(rounds)
        invariant players == old(players)[asked := p0.(hand := p0.hand - Listed(cs[..k]))]
      {
        ghost var q := p0.(hand := p0.hand - Listed(cs[..k]));
        ghost var q' := p0.(hand := p0.hand - Listed(cs[..k + 1]));
        ListedStep(cs, k);
        assert Take(q, cs[k]) == q';
        UpdateTwice(old(players), asked, q, q');
        players := players[asked := Take(players[asked], cs[k])];
        k := k + 1;
      }
      assert cs[..k] == cs;
    }

    /** `for c in had.iter() { p.deal_card(&self.ctx, c) }`. */
    method DealEach(w: nat, cs: seq<Card>)
      requires Shape() && w < |players|
      modifies this, strats[w].Obj()
      ensures Shape()
      ensures players == old(players)[w := old(players[w]).(hand := old(players[w].hand) + Listed(cs))]
      ensures Tracked() == old(Tracked())[w := old(Tracked()[w]) + Listed(cs)]
      ensures pool == old(pool) && announcements == old(announcements) && stage == old(stage) && rounds == old(rounds)
    {
      ghost var p0 := players[w];
      ghost var t0 := Tracked()[w];
      var k := 0;
      assert Listed(cs[..0]) == {};
      assert p0.(hand := p0.hand + Listed(cs[..0])) == p0;
      assert players == old(players)[w := p0];
      assert t0 + Listed(cs[..0]) == t0;
      assert Tracked() == old(Tracked())[w := t0];
      while k < |cs|
        invariant 0 <= k <= |cs|
        invariant Shape()
        invariant pool == old(pool) && announcements == old(announcements) && stage == old(stage) && rounds == old(rounds)
        invariant players == old(players)[w := p0.(hand := p0.hand + Listed(cs[..k]))]
        invariant Tracked() == old(Tracked())[w := t0 + Listed(cs[..k])]
      {
        ghost var q := p0.(hand := p0.hand + Listed(cs[..k]));
        ghost var q' := p0.(hand := p0.hand + Listed(cs[..k + 1]));
        ListedStep(cs, k);
        UpdateTwice(old(players), w, q, q');
        UpdateTwice(old(Tracked()), w, t0 + Listed(cs[..k]), t0 + Listed(cs[..k + 1]));
        assert q.(hand := q.hand + {cs[k]}) == q';
        assert t0 + Listed(cs[..k]) + {cs[k]} == t0 + Listed(cs[..k + 1]);
        DealCard(w, cs[k]);
        k := k + 1;
      }
      assert cs[..k] == cs;
    }

    /**
     * `check_books`: for each rank of player `p`'s cards, ascending, that is
     * complete in the hand as it was on entry, the four cards leave the hand,
     * a `GotBook` is announced and the rank joins the books. Every card stays
     * in exactly one place.
     */
    method CheckBooks(p: nat)
      requires Shape() && p < |players| && Conserved(pool, players)
      modifies this
      ensures Shape() && Conserved(pool, players)
      ensures players == old(players)[p := AfterBooks(old(players[p]))]
      ensures announcements == old(announcements) + GotBooks(p, BookOrder(old(players[p].hand)))
      ensures pool == old(pool) && stage == old(stage) && rounds == old(rounds)
      ensures Tracked() == old(Tracked())
    {
      ghost var ps0 := players;
      var hand := players[p].hand;
      var order := RanksIter(RanksOfCards(Iter(hand)));
      RanksIterAscending(RanksOfCards(Iter(hand)));
      BookRanks(p, hand, order);
      BookOrderIsKept(hand);
      CheckBooksConserved(pool, ps0, p);
    }

    /** The loop of `check_books`: book each rank of `order` complete in `hand`. */
    method BookRanks(p: nat, hand: Cards, order: seq<Rank>)
      requires Seats() && p < |players| && hand == players[p].hand
      requires forall i, j :: 0 <= i < j < |order| ==> order[i] < order[j]
      modifies this
      ensures players == old(players)[p := Booked(old(players[p]), Keep(order, FullRanks(hand)))]
      ensures announcements == old(announcements) + GotBooks(p, Keep(order, FullRanks(hand)))
      ensures pool == old(pool) && stage == old(stage) && rounds == old(rounds)
      ensures Tracked() == old(Tracked())
    {
      ghost var full := FullRanks(hand);
      ghost var p0 := players[p];
      var k := 0;
      ghost var kept: seq<Rank> := [];
      assert Booked(p0, kept) == p0;
      while k < |order|
        invariant 0 <= k <= |order|
        invariant pool == old(pool) && stage == old(stage) && rounds == old(rounds)
        invariant Tracked() == old(Tracked())
        invariant kept == Keep(order[..k], full)
        invariant players == old(players)[p := Booked(p0, kept)]
        invariant announcements == old(announcements) + GotBooks(p, kept)
      {
        var rank := order[k];
        KeepStep(order, k, full);
        if Intersection(InAllSuits(rank), hand) == InAllSuits(rank) {
          assert rank !in order[..k];
          BookedSnoc(p0, kept, rank);
          GotBooksStep(p, kept, rank);
          UpdateTwice(old(players), p, Booked(p0, kept), Booked(p0, kept + [rank]));
          Associative(old(announcements), GotBooks(p, kept), [GotBook(p, rank)]);
          Book(p, rank);
          kept := kept + [rank];
        } else {
          assert rank !in full;
        }
        k := k + 1;
      }
      assert order[..k] == order;
    }
  }

  /**
   * Going fishing with `fish`: from an empty pool nothing is drawn; otherwise
   * the card `choose_random` picks leaves the pool `pool` for the hand of `w`.
   */
  ghost predicate Fished(pool: Cards, ps: seq<Player<Strat>>, w: nat, fish: nat,
                         pool': Cards, ps': seq<Player<Strat>>)
    requires w < |ps|
  {
    if IsEmpty(pool) then pool' == pool && ps' == ps
    else
      var c := ChooseRandom(pool, fish).value;
      pool' == pool - {c} && ps' == ps[w := ps[w].(hand := ps[w].hand + {c})]
  }

  /** The cards `had` moved from the hand of `from` to the hand of `to`. */
  function Moved(ps: seq<Player<Strat>>, from: nat, to: nat, had: Cards): (r: seq<Player<Strat>>)
    requires from < |ps| && to < |ps|
  {
    ps[from := ps[from].(hand := ps[from].hand - had)][to := ps[to].(hand := ps[to].hand + had)]
  }

  /** The answer of `asked` to an ask for `rank`: how many cards of the rank it hands over, or "go fish". */
  ghost function Answer(ps: seq<Player<Strat>>, asked: nat, rank: Rank): (r: Response)
    requires asked < |ps|
  {
    if HoldsRank(ps[asked].hand, rank) then TakeThese(|ps[asked].hand * CardsOfRank(rank)|) else GoFish
  }

  /**
   * The pool and the players once the cards change hands for an ask of `w`
   * to `asked` for `rank`: all of `asked`'s cards of the rank, or one card
   * fished from the pool with `fish`, if the pool has any.
   */
  ghost function Exchanged(pool: Cards, ps: seq<Player<Strat>>, w: nat, asked: nat, rank: Rank, fish: nat)
    : (r: (Cards, seq<Player<Strat>>))
    requires w < |ps| && asked < |ps|
    ensures |r.1| == |ps|
  {
    if HoldsRank(ps[asked].hand, rank) then (pool, Moved(ps, asked, w, ps[asked].hand * CardsOfRank(rank)))
    else if IsEmpty(pool) then (pool, ps)
    else
      var c := ChooseRandom(pool, fish).value;
      (pool - {c}, ps[w := ps[w].(hand := ps[w].hand + {c})])
  }

  /**
   * The ask `a` of `w` played out from `pool0`, `ps0` and the log `anns0`:
   * the cards change hands, the ask and its answer are announced, and then
   * `w`'s books are laid down.
   */
  ghost predicate AskPlayed(pool0: Cards, ps0: seq<Player<Strat>>, anns0: seq<Announcement>, w: nat, a: Action, fish: nat,
                            pool: Cards, ps: seq<Player<Strat>>, anns: seq<Announcement>)
    requires w < |ps0| && a.askWho < |ps0|
  {
    var ex := Exchanged(pool0, ps0, w, a.askWho, a.askFor, fish);
    pool == ex.0 && ps == ex.1[w := AfterBooks(ex.1[w])] &&
    anns == anns0 + [Asked(w, a.askWho, a.askFor, Answer(ps0, a.askWho, a.askFor))] + GotBooks(w, BookOrder(ex.1[w].hand))
  }

  /**
   * An ordinary turn of `w` whose strategy chose `action`: an ask made with
   * a rank in hand is played out and the turn passes; otherwise nothing
   * changes, and the turn passes only when `w` has no cards.
   */
  ghost predicate TurnTaken(pool0: Cards, ps0: seq<Player<Strat>>, anns0: seq<Announcement>, w: nat,
                            action: Option<Action>, fish: nat,
                            pool: Cards, ps: seq<Player<Strat>>, anns: seq<Announcement>, stage: GameStage)
    requires w < |ps0|
  {
    if action.Some? && action.value.askWho < |ps0| && HoldsRank(ps0[w].hand, action.value.askFor) then
      AskPlayed(pool0, ps0, anns0, w, action.value, fish, pool, ps, anns) && stage == Playing(NextSeat(w, |ps0|))
    else
      pool == pool0 && ps == ps0 && anns == anns0 &&
      stage == Playing(if IsEmpty(ps0[w].hand) then NextSeat(w, |ps0|) else w)
  }

  /**
   * A step in the `Dealing` stage at seat `w`, with `s` starting cards and
   * the draw `rand`: once the pool is empty or `w` holds `s` cards, play
   * starts at `w`, every hand held exactly `s` cards, and each seat's
   * complete ranks are booked in seat order; otherwise the card drawn from
   * the pool goes to `w` and the deal moves to the next seat.
   */
  ghost predicate DealingStep(s: nat, w: nat, rand: nat, pool0: Cards, ps0: seq<Player<Strat>>, anns0: seq<Announcement>,
                              pool: Cards, ps: seq<Player<Strat>>, anns: seq<Announcement>, stage: GameStage)
    requires w < |ps0|
  {
    |ps| == |ps0| &&
    if IsEmpty(pool0) || Num(ps0[w].hand) == s then
      stage == Playing(w) && pool == pool0 &&
      (forall i :: 0 <= i < |ps| ==> |ps0[i].hand| == s && ps[i] == AfterBooks(ps0[i])) &&
      anns == anns0 + SeatBooks(ps0, |ps0|)
    else
      ChooseRandom(pool0, rand).Some? &&
      (var c := ChooseRandom(pool0, rand).value;
       c !in ps0[w].hand && pool == pool0 - {c} && ps == ps0[w := ps0[w].(hand := ps0[w].hand + {c})]) &&
      stage == Dealing(NextSeat(w, |ps0|)) && anns == anns0
  }

  /**
   * A step in the `Playing` stage at seat `w`, whose strategy chose `action`:
   * with no cards left the game is done; with one hand left it takes the
   * pool and books everything; otherwise an ordinary turn is taken.
   */
  ghost predicate PlayingStep(w: nat, fish: nat, action: Option<Action>, pool0: Cards, ps0: seq<Player<Strat>>,
                              anns0: seq<Announcement>, pool: Cards, ps: seq<Player<Strat>>, anns: seq<Announcement>,
                              stage: GameStage)
    requires w < |ps0|
  {
    |ps| == |ps0| &&
    if AllEmpty(ps0) then
      stage == Done(w) && ps == ps0 && pool == pool0 && anns == anns0
    else if Holders(ps0) == 1 then
      var i := FirstHolder(ps0);
      stage == Playing(w) && pool == {} && (forall j :: 0 <= j < |ps| ==> ps[j].hand == {}) &&
      i < |ps0| && ps == ps0[i := AfterBooks(ps0[i].(hand := ps0[i].hand + pool0))] &&
      anns == anns0 + GotBooks(i, BookOrder(ps0[i].hand + pool0))
    else
      (action.Some? ==> action.value.askWho < |ps0| && action.value.askWho != w) &&
      TurnTaken(pool0, ps0, anns0, w, action, fish, pool, ps, anns, stage)
  }

  /** The elements of a list, as a set. */
  ghost function Listed<T>(cs: seq<T>): (s: set<T>)
  {
    set c | c in cs
  }

  /** One more element of the list. */
  lemma ListedStep<T>(cs: seq<T>, k: nat)
    requires k < |cs|
    ensures Listed(cs[..k + 1]) == Listed(cs[..k]) + {cs[k]}
  {
    assert cs[..k + 1] == cs[..k] + [cs[k]];
  }

  /** The part of a log after `n` entries, once more entries are appended. */
  lemma DropAppend(old0: seq<Announcement>, pending: seq<Announcement>, more: seq<Announcement>,
                   anns: seq<Announcement>)
    requires |old0| <= |anns| && anns[..|old0|] == old0 && anns[|old0|..] == pending
    ensures anns + more == old0 + (pending + more)
    ensures (anns + more)[..|old0|] == old0 && (anns + more)[|old0|..] == pending + more
  {
    assert anns == old0 + pending;
  }

  lemma UpdateTwice<T>(s: seq<T>, i: nat, x: T, y: T)
    requires i < |s|
    ensures s[i := x][i := y] == s[i := y]
  {
  }

  lemma Associative<T>(a: seq<T>, b: seq<T>, c: seq<T>)
    ensures a + b + c == a + (b + c)
  {
  }

  /** A player with the ranks `ks` booked. */
  ghost function Booked(pl: Player<Strat>, ks: seq<Rank>): (q: Player<Strat>)
  {
    var rs := Listed(ks);
    pl.(hand := pl.hand - CardsOfRanks(rs), books := pl.books + rs)
  }

  /**
   * A complete rank not yet booked is still whole in the hand, and booking
   * it books one more rank.
   */
  lemma BookedSnoc(pl: Player<Strat>, ks: seq<Rank>, r: Rank)
    requires r !in ks && IsBook(pl.hand, r)
    ensures CardsOfRank(r) <= Booked(pl, ks).hand
    ensures var q := Booked(pl, ks);
            Booked(pl, ks + [r]) == q.(hand := q.hand - CardsOfRank(r), books := q.books + {r})
  {
    IsBookMeans(pl.hand, r);
  }

  /** Booking distinct complete ranks keeps every card in exactly one place. */
  lemma {:induction false} BookedConserved(pool: Cards, ps: seq<Player<Strat>>, p: nat, ks: seq<Rank>)
    requires Conserved(pool, ps) && p < |ps|
    requires Ascending(ks) && forall r :: r in ks ==> IsBook(ps[p].hand, r)
    ensures Conserved(pool, ps[p := Booked(ps[p], ks)])
  {
    if ks == [] {
      assert Listed(ks) == {};
      var q := Booked(ps[p], ks);
      assert q.hand == ps[p].hand;
      assert q == ps[p];
      assert ps[p := q] == ps;
    } else {
      var init, last := ks[..|ks| - 1], ks[|ks| - 1];
      LastIsGreatest(ks);
      BookedConserved(pool, ps, p, init);
      var ps1 := ps[p := Booked(ps[p], init)];
      BookedSnoc(ps[p], init, last);
      BookConserved(pool, ps1, p, last);
      assert init + [last] == ks;
      assert ps1[p := ps1[p].(hand := ps1[p].hand - CardsOfRank(last), books := ps1[p].books + {last})]
        == ps[p := Booked(ps[p], ks)];
    }
  }

  /**
   * Booking the ranks of `BookOrder` is what `AfterBooks` does, and it keeps
   * every card in exactly one place.
   */
  lemma CheckBooksConserved(pool: Cards, ps: seq<Player<Strat>>, p: nat)
    requires Conserved(pool, ps) && p < |ps|
    ensures ps[p := Booked(ps[p], BookOrder(ps[p].hand))] == ps[p := AfterBooks(ps[p])]
    ensures Conserved(pool, ps[p := AfterBooks(ps[p])])
  {
    BookedAll(ps[p]);
    BookOrderAscending(ps[p].hand);
    BookedConserved(pool, ps, p, BookOrder(ps[p].hand));
  }

  /** Booking the ranks of `BookOrder` is what `AfterBooks` does. */
  lemma BookedAll(pl: Player<Strat>)
    ensures Booked(pl, BookOrder(pl.hand)) == AfterBooks(pl)
  {
    RanksListed(BookOrder(pl.hand), FullRanks(pl.hand));
  }

  /** The ranks listed in `ks` are `rs` when the two have the same members. */
  lemma RanksListed(ks: seq<Rank>, rs: Ranks)
    requires forall r :: r in ks <==> r in rs
    ensures Listed(ks) == rs
  {
  }
}
