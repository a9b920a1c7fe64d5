/**
 * `update_hand_on_announcement` of `fish-engine/src/common_strat.rs`: the
 * rule both strategies use to keep their private copy of their own hand in
 * step with the public announcements.
 */
module CommonStrat {
  import opened CardSet
  import opened Options
  import opened Protocol

  /**
   * The rank an announcement takes out of player `pid`'s hand: the rank
   * `pid` was asked for (whatever the response), or the rank `pid` booked.
   */
  function RankTaken(pid: PlayerId, ann: Announcement): (r: Option<Rank>)
  {
    match ann
    case Asked(_, asked, rank, _) => if asked == pid then Some(rank) else None
    case GotBook(player, book) => if player == pid then Some(book) else None
  }

  /** The new value the source writes through `&mut hand`. */
  function UpdateHand(pid: PlayerId, ann: Announcement, hand: Cards): (r: Cards)
    ensures r <= hand
    ensures forall c: Card {:trigger c in r} :: c in r <==>
      c in hand && !(RankTaken(pid, ann).Some? && RankOf(c) == RankTaken(pid, ann).value)
    ensures RankTaken(pid, ann).None? ==> r == hand
  {
    match ann
    case Asked(_, playerAsked, askedFor, _) =>
      if playerAsked == pid then Remove(hand, InAllSuits(askedFor)) else hand
    case GotBook(player, book) =>
      if player == pid then Remove(hand, InAllSuits(book)) else hand
  }

  /** Hearing the same announcement twice changes nothing more. */
  lemma UpdateHandIdempotent(pid: PlayerId, ann: Announcement, hand: Cards)
    ensures UpdateHand(pid, ann, UpdateHand(pid, ann, hand)) == UpdateHand(pid, ann, hand)
  {
    var once := UpdateHand(pid, ann, hand);
    var twice := UpdateHand(pid, ann, once);
    assert forall c: Card :: c in twice <==> c in once;
  }

  /** The hand after hearing `anns` in order. */
  function Replay(pid: PlayerId, anns: seq<Announcement>, hand: Cards): (r: Cards)
    ensures r <= hand
  {
    if |anns| == 0 then hand
    else UpdateHand(pid, anns[|anns| - 1], Replay(pid, anns[..|anns| - 1], hand))
  }

  /** Hearing `a` and then `b` is hearing `a + b`. */
  lemma {:induction false} ReplayAppend(pid: PlayerId, a: seq<Announcement>, b: seq<Announcement>, hand: Cards)
    ensures Replay(pid, a + b, hand) == Replay(pid, b, Replay(pid, a, hand))
  {
    if |b| > 0 {
      var b' := b[..|b| - 1];
      assert (a + b)[..|a + b| - 1] == a + b';
      ReplayAppend(pid, a, b', hand);
    } else {
      assert a + b == a;
    }
  }
}
