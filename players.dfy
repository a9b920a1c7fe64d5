/**
 * `Player` of `fish-engine/src/lib.rs`: a hand, the books laid down and the
 * player's strategy. The strategy type is a parameter so that the strategy
 * contract can refer to players without a cycle between modules.
 */
module Players {
  import opened CardSet

  datatype Player<S> = Player(hand: Cards, books: Ranks, strategy: S)

  /** `Player::new`: an empty hand and no books. */
  function NewPlayer<S>(strategy: S): (p: Player<S>)
    ensures IsEmpty(p.hand) && p.books == {} && p.strategy == strategy
  {
    Player(Empty(), {}, strategy)
  }

  /** `Player::take`: the card leaves the hand; nothing else changes. */
  function Take<S>(p: Player<S>, c: Card): (q: Player<S>)
    ensures c !in q.hand
    ensures forall x: Card :: x != c ==> (x in q.hand <==> x in p.hand)
    ensures q.books == p.books && q.strategy == p.strategy
  {
    p.(hand := Remove(p.hand, Add(Empty(), c)))
  }
}
