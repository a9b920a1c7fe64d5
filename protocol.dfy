/**
 * The vocabulary shared by the engine and the strategies, from
 * `fish-engine/src/strategy.rs`: player ids, actions, responses,
 * announcements and the public `Context` every strategy reads.
 */
module Protocol {
  import opened CardSet
  import opened Players

  /** `PlayerId(u32)`: the index of a player in the game. */
  type PlayerId = nat

  /** A strategy's move: ask player `askWho` for cards of rank `askFor`. */
  datatype Action = Action(askWho: PlayerId, askFor: Rank)

  /** The answer to an ask: go fish, or hand over `count` cards. */
  datatype Response = GoFish | TakeThese(count: nat)

  /** The public log entries every player is told about. */
  datatype Announcement =
    | Asked(playerAsking: PlayerId, playerAsked: PlayerId, askedFor: Rank, response: Response)
    | GotBook(player: PlayerId, book: Rank)

  /** What everybody can see of a player: the hand size and the books. */
  datatype PublicPlayerInfo = PublicPlayerInfo(cardsOnHand: nat, books: Ranks)

  /** The public view of one player. */
  function Info<S>(p: Player<S>): (info: PublicPlayerInfo)
  {
    PublicPlayerInfo(Num(p.hand), p.books)
  }

  /** `players()`: every entry paired with its id, ids counting from `from`. */
  function Enumerate(infos: seq<PublicPlayerInfo>, from: nat): (r: seq<(PlayerId, PublicPlayerInfo)>)
    ensures |r| == |infos|
    ensures forall i :: 0 <= i < |r| ==> r[i] == (from + i, infos[i])
  {
    if |infos| == 0 then [] else [(from, infos[0])] + Enumerate(infos[1..], from + 1)
  }

  /**
   * The ids other than `me` whose owners hold cards, in the order of `ps`:
   * the candidates both strategies pick whom to ask from.
   */
  function Opponents(ps: seq<(PlayerId, PublicPlayerInfo)>, me: PlayerId): (r: seq<PlayerId>)
    ensures forall x :: x in r <==> exists k :: 0 <= k < |ps| && ps[k].0 == x && x != me && ps[k].1.cardsOnHand > 0
  {
    if |ps| == 0 then []
    else
      var rest := Opponents(ps[1..], me);
      assert forall k :: 0 < k < |ps| ==> ps[k] == ps[1..][k - 1];
      (if ps[0].0 != me && ps[0].1.cardsOnHand > 0 then [ps[0].0] else []) + rest
  }

  /** `Context`: the public snapshot of every player. */
  class Context {
    var players: seq<PublicPlayerInfo>

    /** `Context::new`: `numPlayers` entries with no cards and no books. */
    constructor (numPlayers: nat)
      ensures |players| == numPlayers
      ensures forall i :: 0 <= i < numPlayers ==> players[i] == PublicPlayerInfo(0, {})
    {
      players := seq(numPlayers, _ => PublicPlayerInfo(0, {}));
    }

    /**
     * `Context::update`: the entries of the players given (as far as both
     * lists go) are overwritten with their current public view.
     */
    method Update<S>(ps: seq<Player<S>>)
      modifies this
      ensures |players| == |old(players)|
      ensures forall i :: 0 <= i < |players| ==>
        players[i] == if i < |ps| then Info(ps[i]) else old(players[i])
    {
      var i := 0;
      while i < |ps| && i < |players|
        invariant 0 <= i <= |players|
        invariant |players| == |old(players)|
        invariant forall k :: 0 <= k < |players| ==>
          players[k] == if k < i && k < |ps| then Info(ps[k]) else old(players[k])
      {
        players := players[i := Info(ps[i])];
        i := i + 1;
      }
    }

    /** `Context::players`: each entry with its id, ids ascending from 0. */
    function Players(): (r: seq<(PlayerId, PublicPlayerInfo)>)
      reads this
      ensures |r| == |players|
      ensures forall i :: 0 <= i < |r| ==> r[i].0 == i && r[i].1 == players[i]
    {
      Enumerate(players, 0)
    }
  }

  /** The opponents a strategy sees in a context, by id. */
  lemma OpponentsInContext(ctx: Context, me: PlayerId)
    ensures forall x: PlayerId :: x in Opponents(ctx.Players(), me) <==>
      x < |ctx.players| && x != me && ctx.players[x].cardsOnHand > 0
  {
    var ps := ctx.Players();
    forall x: PlayerId | x < |ctx.players| && x != me && ctx.players[x].cardsOnHand > 0
      ensures x in Opponents(ps, me)
    {
      assert ps[x].0 == x;
    }
  }
}
