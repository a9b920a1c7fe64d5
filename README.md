# Go Fish engine, modelled and verified in Dafny

This project models `fish-engine`, the engine of a Go Fish card game.

- **The card-set algebra** (`cards.dfy`, module `CardSet`). A card is the index `rank + 13 * suit` below 52. A `Cards` mask is the set of cards whose bits are set. A `Ranks` mask is a set of ranks. `Rank::next` cycles RA, R2, ..., RK, RA.
- **The players and the strategy contract**:
  - `players.dfy`: a player is a hand, its books and its strategy.
  - `protocol.dfy`: the announcements, the public `Context` snapshot, and the list of opponents a strategy may ask.
  - `common.dfy`: the one rule both strategies use to keep their private copy of their hand in step with the announcements.
  - `random.dfy`, `wiki.dfy`: the `Random` and `Wiki` strategies.
  - `strategy.dfy`: the `StratBuilder`/`Strat` dispatch.
- **The game state machine** (`engine.dfy`, class `Engine.Game`). It has:
  - a pool;
  - one player per seat;
  - an announcement log that only grows;
  - a stage: `Dealing`, `Playing` or `Done`, each with the seat to move.

  `Step` makes one transition, then tells every strategy of every new announcement.
- **Card conservation** (`conservation.dfy`, `books.dfy`). This is the invariant `check_validity` tests: every card of the deck is in exactly one place.
  - The places are the pool, one hand, or a book of its rank.
  - It is stated card by card: the number of places accounting for a card is 1.
  - `Game.Valid` is the invariant between steps. It contains conservation.
  - `Game.Valid` also holds that every strategy's tracked hand equals its player's real hand once the announcements not yet told are heard.
  - While dealing, `Game.Valid` also fixes the round-robin shape of the deal.
  - The constructor establishes `Valid` and `Step` preserves it. So the fatal checks of the engine can never fire: the validity check after going fishing, the hand-count `assert_eq!` when play starts, and the self-ask `panic!`.

Randomness is modelled as oracle arguments. Each call of the generator becomes a `nat` parameter: `randFirst` of the constructor, and the `Draws` of a step. `pick` and `choose_random` take the element at index `rand % length`. The lemmas `Picking.PickReaches`, `CardSet.ChooseRandomReaches` and `RandomStrat.ActionReaches` show that every element can be drawn.

## Model

| member | source | states |
|---|---|---|
| CardSet.NewCard | fish-engine/src/cards.rs:82-85 | the card built from a rank and a suit has that rank and that suit (round trip of `new` with `rank`/`suit`) |
| CardSet.SuitOf | fish-engine/src/cards.rs:110-118 | rank and suit give the card index back: `c == rank + 13 * suit` |
| CardSet.NextIsModular | fish-engine/src/cards.rs:129-145 | `next` is `(r + 1) mod 13`: RK wraps round to RA |
| CardSet.AdvanceIsModular | fish-engine/src/cards.rs:129-145 | applying `next` k times is adding k modulo 13 |
| CardSet.NextCycle | fish-engine/src/cards.rs:129-145 | applying `next` 13 times gives the rank back |
| CardSet.RanksBelow | fish-engine/src/cards.rs:53-55 | the ranks of a mask below `n`, listed: exactly the members below `n` |
| CardSet.RanksBelowAscending | fish-engine/src/cards.rs:53-55 | that listing is strictly ascending |
| CardSet.RanksIter | fish-engine/src/cards.rs:53-55 | `Ranks::iter` yields exactly the members of the mask |
| CardSet.RanksIterAscending | fish-engine/src/cards.rs:53-55 | `Ranks::iter` yields them in strictly ascending rank order |
| CardSet.Empty | fish-engine/src/cards.rs:179-181 | `empty` contains no card and has size 0 |
| CardSet.Span | fish-engine/src/cards.rs:187-191 | the mask `((1 << n) - 1) << lo` holds exactly the cards `lo .. lo + n - 1`, which is n cards |
| CardSet.All | fish-engine/src/cards.rs:182-186 | `all` contains every card, 52 in all |
| CardSet.CountFull | fish-engine/src/cards.rs:182-186 | a set holding exactly the indices below n has n members |
| CardSet.AllBounded | fish-engine/src/cards.rs:187-194 | `all_bounded(n)`, for `n <= 13`, holds card c iff `rank(c) < n`, and has `4 * n` cards |
| CardSet.BlockMember | fish-engine/src/cards.rs:190-191 | the four shifted blocks of the mask together hold exactly the cards of rank below n |
| CardSet.BlocksDisjoint | fish-engine/src/cards.rs:190-191 | the four blocks do not overlap: together they have `4 * n` cards |
| CardSet.IsEmpty | fish-engine/src/cards.rs:195-197 | `is_empty` holds iff no card is a member |
| CardSet.Add | fish-engine/src/cards.rs:198-202 | `add(c)` is `S ∪ {c}`, member by member |
| CardSet.Remove | fish-engine/src/cards.rs:203-207 | `remove(T)` is `S \ T`, member by member |
| CardSet.RemoveOne | fish-engine/src/cards.rs:208-213 | `remove_one(c)` is `S \ {c}`, and equals `remove(empty().add(c))` |
| CardSet.Intersection | fish-engine/src/cards.rs:214-218 | `intersection` is set intersection, member by member |
| CardSet.Union | fish-engine/src/cards.rs:219-223 | `union` is set union, member by member |
| CardSet.Has | fish-engine/src/cards.rs:224-226 | `has(c)` holds iff c is a member |
| CardSet.IterBelow | fish-engine/src/cards.rs:256-264 | the filter over `0..n` yields exactly the members below n |
| CardSet.IterBelowAscending | fish-engine/src/cards.rs:256-264 | it yields them in strictly ascending order |
| CardSet.IterBelowCount | fish-engine/src/cards.rs:256-264 | its length is the number of members below n |
| CardSet.Iter | fish-engine/src/cards.rs:256-264 | `iter` yields exactly the members of the set |
| CardSet.IterAscending | fish-engine/src/cards.rs:256-264 | `iter` yields the members in strictly ascending index order, so each once |
| CardSet.Num | fish-engine/src/cards.rs:227-231 | the popcount equals the length of `iter` (so the `assert_eq!` never fires), and it is 0 iff the set is empty |
| CardSet.ChooseRandom | fish-engine/src/cards.rs:232-255 | `None` iff the set is empty, otherwise a member (the `todo!` is unreachable) |
| CardSet.ChooseRandomReaches | fish-engine/src/cards.rs:246-251 | every member is returned for some random draw |
| CardSet.InAllSuits | fish-engine/src/cards.rs:122-128 | `in_all_suits(r)` holds exactly the cards of rank r |
| CardSet.InSuitsBelow | fish-engine/src/cards.rs:122-128 | the first n suits added give exactly the cards of rank r below `13 * n` |
| CardSet.InAllSuitsIsRank | fish-engine/src/cards.rs:122-128 | `in_all_suits(r)` is `{r, r+13, r+26, r+39}`: four distinct cards, each of rank r |
| CardSet.HoldsRankMeans | fish-engine/src/lib.rs:236 | a non-empty intersection with `in_all_suits(r)` means some card of the hand has rank r |
| CardSet.RanksIn | fish-engine/src/wiki_strat.rs:45-51 | a definition, not a source operation: the ranks the hand holds a card of, which the Wiki search tests; `CardSet.HoldsRankMeans` ties that test to the cards held |
| Players.NewPlayer | fish-engine/src/lib.rs:46-52 | a new player has an empty hand, no books and the strategy given |
| Players.Take | fish-engine/src/lib.rs:59-61 | `take(c)` removes exactly card c from the hand and changes nothing else |
| Picking.Pick | fish-engine/src/lib.rs:16-26 | `pick` is `None` iff the slice is empty, otherwise an element of it |
| Picking.PickReaches | fish-engine/src/lib.rs:20 | every element is picked for some random draw |
| Protocol.Enumerate | fish-engine/src/strategy.rs:104-109 | entry i is paired with id `from + i`, and there are no other pairs |
| Protocol.Opponents | fish-engine/src/wiki_strat.rs:33-42 | the candidate list holds exactly the ids other than the caller's whose entries show cards in hand |
| Protocol.Context.constructor | fish-engine/src/strategy.rs:91-95 | `Context::new(n)` has n entries, each with no cards and no books |
| Protocol.Context.Update | fish-engine/src/strategy.rs:96-103 | entry i becomes the player's card count and books for every i the two lists share; later entries are kept; the length stays |
| Protocol.Context.Players | fish-engine/src/strategy.rs:104-109 | `players()` yields `(i, entry i)` for i ascending, and nothing else |
| Protocol.OpponentsInContext | fish-engine/src/random_strat.rs:29-38 | an id is a candidate iff it is a seat of the context, not the caller's, and that seat holds cards |
| CommonStrat.UpdateHand | fish-engine/src/common_strat.rs:6-20 | the hand loses exactly the cards of the rank that was asked of this player (whatever the response) or booked by this player; every other announcement leaves it as it was; the result is a subset |
| CommonStrat.UpdateHandIdempotent | fish-engine/src/common_strat.rs:13-16 | hearing the same announcement twice gives the hand of hearing it once |
| CommonStrat.Replay | fish-engine/src/common_strat.rs:6-20 | hearing a list of announcements only ever removes cards |
| CommonStrat.ReplayAppend | fish-engine/src/lib.rs:134-138 | hearing `a` then `b` is hearing `a + b`: reactions compose in log order |
| RandomStrat.Random.Init | fish-engine/src/random_strat.rs:17-22 | a new strategy has the given id and an empty hand |
| RandomStrat.Random.DealCard | fish-engine/src/random_strat.rs:24-26 | the dealt card joins the tracked hand |
| RandomStrat.Random.Action | fish-engine/src/random_strat.rs:28-55 | `None` iff no opponent holds cards or the tracked hand is empty; otherwise it asks the opponent `pick` draws for the rank of the card `choose_random` draws, so the opponent holds cards and the rank is in hand |
| RandomStrat.Random.React | fish-engine/src/random_strat.rs:57-59 | the tracked hand is updated by `update_hand_on_announcement` |
| RandomStrat.ActionReaches | fish-engine/src/random_strat.rs:47-53 | every opponent holding cards and every rank in hand can be what is asked |
| WikiStrat.FirstHeldHere | fish-engine/src/wiki_strat.rs:45-51 | the search stops at once on a rank held |
| WikiStrat.FirstHeldSkip | fish-engine/src/wiki_strat.rs:45-51 | a rank not held is stepped over with `next` |
| WikiStrat.Distance | fish-engine/src/wiki_strat.rs:45-51 | the number of `next` steps from one rank to another is below 13, and 0 iff they are equal |
| WikiStrat.DistanceStep | fish-engine/src/wiki_strat.rs:50 | one `next` step brings the search one closer to a held rank |
| WikiStrat.SeekStep | fish-engine/src/wiki_strat.rs:45-51 | one loop iteration keeps the search result and decreases the distance to a held rank |
| WikiStrat.FirstHeldFinds | fish-engine/src/wiki_strat.rs:45-51 | a held rank within the budget of steps is found, and what is found is held |
| WikiStrat.FirstHeldInOneRound | fish-engine/src/wiki_strat.rs:45-51 | with a non-empty hand the search ends within 13 steps on a rank held |
| WikiStrat.SomeRankHeld | fish-engine/src/wiki_strat.rs:45-51 | a non-empty hand holds some rank |
| WikiStrat.Wiki.Init | fish-engine/src/wiki_strat.rs:19-25 | the given id, an empty hand and `next_rank == RA` |
| WikiStrat.Wiki.DealCard | fish-engine/src/wiki_strat.rs:27-30 | the card joins the hand and `next_rank` becomes its rank |
| WikiStrat.Wiki.Action | fish-engine/src/wiki_strat.rs:32-57 | `None` iff no opponent holds cards, and then `next_rank` is unchanged; otherwise it asks an opponent holding cards for the first rank held from `next_rank` on, and `next_rank` becomes that rank's `next` |
| WikiStrat.Wiki.Seek | fish-engine/src/wiki_strat.rs:45-54 | the loop ends on the first rank held from `next_rank` on, then steps past it |
| WikiStrat.Wiki.React | fish-engine/src/wiki_strat.rs:59-61 | the hand is updated by `update_hand_on_announcement`, and `next_rank` stays |
| Strategy.StratBuilder.Init | fish-engine/src/strategy.rs:27-33 | the builder makes a fresh strategy of its own kind, for the id given, with an empty hand; a Wiki strategy starts its search at the ace |
| Strategy.Strat.DealCard | fish-engine/src/strategy.rs:49-54 | dispatch: the wrapped strategy's hand gains the card, and a Wiki strategy looks for that card's rank next |
| Strategy.Strat.Action | fish-engine/src/strategy.rs:56-61 | dispatch, as the wrapped strategy: `None` iff no opponent holds cards or the hand is empty; an ask goes to an opponent holding cards, for a rank in hand; for Random, the opponent `pick` draws and the rank of the card `choose_random` draws; for Wiki, the first rank held from the cursor on, after which the cursor moves past it (no ask leaves the cursor) |
| Strategy.Strat.React | fish-engine/src/strategy.rs:63-68 | dispatch: the wrapped strategy applies `update_hand_on_announcement`; a Wiki strategy's cursor stays |
| Conservation.HeldByAtLeast | fish-engine/src/lib.rs:108-124 | one player's share of a card is part of all players' share |
| Conservation.HeldByNone | fish-engine/src/lib.rs:108-124 | a card no player accounts for is counted 0 times |
| Conservation.HeldBySome | fish-engine/src/lib.rs:108-124 | a card counted by the players is accounted for by some one of them |
| Conservation.HeldByUpdate | fish-engine/src/lib.rs:108-124 | replacing one player changes the count by exactly that player's difference |
| Conservation.HeldByPrefix | fish-engine/src/lib.rs:108-124 | the count over the first i+1 players is that over the first i plus player i's share |
| Conservation.HeldByPrefixBelow | fish-engine/src/lib.rs:108-124 | the count over some players is at most the count over all |
| Conservation.HeldByTwo | fish-engine/src/lib.rs:108-124 | two different players' shares together are at most the total count |
| Conservation.NewConserved | fish-engine/src/lib.rs:86-104 | the full pool with empty hands and no books conserves every card |
| Conservation.PoolCardFree | fish-engine/src/lib.rs:109-111 | under conservation, no player holds a card of the pool |
| Conservation.DealConserved | fish-engine/src/lib.rs:186-190 | moving a pool card into a hand keeps conservation, and the card was not in that hand |
| Conservation.MoveConserved | fish-engine/src/lib.rs:262-270 | moving cards from one hand to another keeps conservation |
| Conservation.AbsorbConserved | fish-engine/src/lib.rs:209-211 | the pool joining a hand, leaving the pool empty, keeps conservation |
| Conservation.BookConserved | fish-engine/src/lib.rs:152-161 | booking a complete rank keeps conservation, and the rank was not booked already |
| Conservation.LoneHandRanks | fish-engine/src/lib.rs:202-213 | with one hand left, every rank in that hand and the pool lies wholly in them |
| Conservation.InHandsBound | fish-engine/src/lib.rs:170-183 | the cards in hands are at most as many as the hand sizes add up to |
| Conservation.InHandsHas | fish-engine/src/lib.rs:170-183 | before any book, a card a player accounts for is in a hand |
| Conservation.DealtBound | fish-engine/src/lib.rs:170-183 | hands of at most s cards add up to at most `s * N`, and to exactly `s * N` only if every hand has s |
| Conservation.EvenDeal | fish-engine/src/lib.rs:170-183 | with the pool empty, no books, no hand above s and `s * N <= 52`, every hand has exactly s cards |
| Conservation.AllInHands | fish-engine/src/lib.rs:170-183 | with an empty pool and no books, every card is in some hand |
| Conservation.WholeDeck | fish-engine/src/cards.rs:182-186 | a set holding every card has 52 members |
| Books.IsBookMeans | fish-engine/src/lib.rs:152 | the `check_books` test holds iff all four cards of the rank are in hand |
| Books.FullRanks | fish-engine/src/lib.rs:151-152 | a definition, not a source operation: the complete ranks of the hand; `Books.IsBookMeans` ties the source's test to it |
| Books.RanksOfCards | fish-engine/src/lib.rs:146-149 | the fold over the hand gives exactly the ranks of its cards |
| Books.Keep | fish-engine/src/lib.rs:151-163 | the loop books exactly the listed ranks that pass the test |
| Books.KeepAscending | fish-engine/src/lib.rs:151-163 | the booked ranks keep the ascending order of the loop |
| Books.KeepStep | fish-engine/src/lib.rs:151-163 | one more loop iteration books the rank iff it passes the test |
| Books.BookOrder | fish-engine/src/lib.rs:151-163 | the ranks booked are exactly the complete ranks of the hand |
| Books.BookOrderAscending | fish-engine/src/lib.rs:151-163 | they are booked, and announced, in ascending rank order |
| Books.BookOrderIsKept | fish-engine/src/lib.rs:146-163 | walking the ranks of the cards held in ascending order and keeping the complete ones gives `BookOrder` |
| Books.AscendingUnique | fish-engine/src/lib.rs:151-163 | two ascending rank lists with the same members are equal |
| Books.BookIsHeld | fish-engine/src/lib.rs:146-152 | a complete rank is among the ranks of the cards held, so the loop reaches it |
| Books.GotBooks | fish-engine/src/lib.rs:157-160 | one `GotBook` for the player per rank, in the order of the ranks |
| Books.GotBooksStep | fish-engine/src/lib.rs:157-160 | one more rank booked, one more `GotBook` at the end |
| Books.ReplayGotBooks | fish-engine/src/common_strat.rs:15-17 | hearing the `GotBook`s of a player takes exactly those ranks out of that player's tracked hand, and out of no other |
| Books.NoBookLeft | fish-engine/src/lib.rs:151-163 | after booking, no rank has all four suits in hand |
| Books.AllBooked | fish-engine/src/lib.rs:209-213 | a hand made of complete ranks only is empty once booked |
| Engine.NextSeat | fish-engine/src/lib.rs:191-193 | `(w + 1) % N` is a seat: the next one, or seat 0 after the last |
| Engine.ReplayFirst | fish-engine/src/lib.rs:134-138 | hearing the first announcement, then the rest, is hearing all of them |
| Engine.SyncBooks | fish-engine/src/lib.rs:140-164 | after `check_books`, the tracked hands are right once its `GotBook`s are heard |
| Engine.SyncSeats | fish-engine/src/lib.rs:173-184 | after `check_books` for seats 0 to n - 1 in turn, the tracked hands are right once all their `GotBook`s are heard |
| Engine.SyncDeal | fish-engine/src/lib.rs:54-57 | dealing a card to hand and strategy together keeps them in step |
| Engine.SyncAbsorb | fish-engine/src/lib.rs:202-216 | after the lone player absorbs the pool and books, its hand is empty and every tracked hand is right once the `GotBook`s are heard, although the strategy was never told of the pool cards |
| Engine.SyncAsk | fish-engine/src/lib.rs:245-283 | after an ask resolves, every tracked hand is right once the ask is heard |
| Engine.DealRoundRobin | fish-engine/src/lib.rs:185-194 | dealing one card and moving to the next seat keeps the round-robin shape of the deal |
| Engine.RoundRobinFull | fish-engine/src/lib.rs:170-183 | when the deal stops (pool empty, or the next seat has `starting_cards`), every hand has exactly `starting_cards`: the `assert_eq!` never fires |
| Engine.FirstHolder | fish-engine/src/lib.rs:203-208 | the `find` gives the first seat with cards, or N if there is none |
| Engine.OneHolder | fish-engine/src/lib.rs:202-208 | with exactly one hand non-empty, `find` gives it and every other hand is empty |
| Engine.NoHolders | fish-engine/src/lib.rs:197 | with no hand non-empty, every hand is empty |
| Engine.Overfull | fish-engine/src/lib.rs:109-121 | a card seen twice while walking the players breaks conservation |
| Engine.SeeBooks | fish-engine/src/lib.rs:117-123 | walking a player's books: a clash is a card already seen whose rank is booked; without one, the seen cards grow by exactly the booked ranks, none of which were seen |
| Engine.NewPlayers | fish-engine/src/lib.rs:93-97 | one player per builder: seat i gets an empty hand, no books and a fresh strategy of the builder's kind with id i, each with its own object |
| Engine.Game.Tracked | fish-engine/src/lib.rs:42 | a definition, not a source operation: the hands the seats' strategies keep track of, one per seat, which the invariant compares with the real hands |
| Engine.Game.constructor | fish-engine/src/lib.rs:86-104 | `Game::new`: full pool, empty hands and books, empty log, `Dealing` at a random seat; the invariant holds |
| Engine.Game.DealCard | fish-engine/src/lib.rs:54-57 | `Player::deal_card`: the strategy and the hand both gain the card; nothing else changes |
| Engine.Game.CheckValidity | fish-engine/src/lib.rs:105-127 | the walk finds no clash and sees every card iff every card is in exactly one place (pool, a hand, or a book) |
| Engine.Game.Book | fish-engine/src/lib.rs:152-161 | one complete rank: its cards leave the hand, a `GotBook` is appended, the rank joins the books |
| Engine.Game.Step | fish-engine/src/lib.rs:128-139 | one step keeps the invariant (conservation and tracked hands in step after every reaction), never changes or removes a log entry, and does exactly what the stage calls for: `Dealing` deals the drawn card or starts play with every seat's books (`DealingStep`), `Playing` ends the game, absorbs the pool or plays a turn (`PlayingStep`), and `Done` changes nothing, the log included |
| Engine.Game.Broadcast | fish-engine/src/lib.rs:134-138 | every strategy hears every new announcement in log order, after which all tracked hands are right |
| Engine.Game.Tell | fish-engine/src/lib.rs:135-137 | each strategy applies `update_hand_on_announcement` for the one announcement |
| Engine.Game.StepInner | fish-engine/src/lib.rs:165-303 | one transition keeps conservation and only appends to the log; `Dealing` is the step `DealingStep` describes, `Playing` the one `PlayingStep` describes, and `Done` changes nothing, the log included |
| Engine.Game.StepDealing | fish-engine/src/lib.rs:167-194 | pool empty or `starting_cards` in hand: `Playing` at the same seat, every hand held exactly `starting_cards`, each player's complete ranks move to its books, and the log gains each seat's `GotBook`s in seat order; otherwise the card `choose_random` draws moves from the pool to the seat's hand and `Dealing` moves to the next seat, with the log unchanged |
| Engine.Game.StartPlaying | fish-engine/src/lib.rs:170-184 | every hand holds exactly `starting_cards`; then each player's complete ranks move to its books, and the log gains exactly each seat's `GotBook`s, seat by seat, in ascending rank order; the pool stays |
| Engine.Game.BookEach | fish-engine/src/lib.rs:173-184 | `check_books` for every seat in order: each player's complete ranks move to its books, and the log gains exactly the `GotBook`s of seat 0, then seat 1, and so on, each in ascending rank order; the invariant holds again |
| Engine.Game.BookSeats | fish-engine/src/lib.rs:173-184 | the loop over the seats: each player's complete ranks move to its books, the log gains each seat's `GotBook`s in seat order, and conservation and the tracked hands are kept |
| Engine.Game.BookSeat | fish-engine/src/lib.rs:183 | one turn of that loop: seat i is booked and its `GotBook`s follow those of the seats before it |
| Engine.Game.DealNext | fish-engine/src/lib.rs:185-194 | exactly one card moves from the pool to the seat's hand, the one `choose_random` draws, and the stage moves to the next seat |
| Engine.Game.PassDeal | fish-engine/src/lib.rs:191-193 | the deal moves to the next seat |
| Engine.Game.DealTo | fish-engine/src/lib.rs:189-190 | the card leaves the pool for the hand and the strategy hears of it; conservation and tracking are kept |
| Engine.Game.StepPlaying | fish-engine/src/lib.rs:196-300 | all hands empty: `Done` at the same seat with nothing else changed; one hand left: the first holder takes the pool and books the merged hand, the pool and every hand end empty, and the log gains exactly that hand's `GotBook`s; otherwise the ordinary turn `TurnTaken` describes, for the action the strategy chose |
| Engine.Game.TakeTurn | fish-engine/src/lib.rs:218-299 | no cards: the turn passes and nothing else changes; an ask for a rank in hand is played out: the asked player's cards of the rank, or one fished card, move to the asker, the log gains the `Action` entry with its answer and then the asker's `GotBook`s, and the turn passes; with no ask nothing changes and the seat keeps the turn. The strategy only asks another seat for a rank in hand |
| Engine.Game.Decide | fish-engine/src/lib.rs:228-232 | the strategy's ask never names its own seat (the self-ask `panic!` cannot fire) and names a rank the player holds; no tracked hand changes |
| Engine.Game.Play | fish-engine/src/lib.rs:228-289 | an ask for a rank not held changes nothing; any other ask plays out as `AskPlayed` says: all the asked player's cards of the rank, or one card fished from the pool, move to the asker; the log gains exactly one `Action` entry with that answer, then the asker's `GotBook`s; the turn moves to the next seat |
| Engine.Game.PassTurn | fish-engine/src/lib.rs:294-299 | the turn passes, still in the invariant |
| Engine.Game.Absorb | fish-engine/src/lib.rs:202-216 | the first player with cards takes the pool and books; the pool and every hand end empty, and the `GotBook`s are those of the merged hand |
| Engine.Game.TakePool | fish-engine/src/lib.rs:209-211 | the pool joins the hand directly, the strategy is not told, and the pool is left empty |
| Engine.Game.Ask | fish-engine/src/lib.rs:234-287 | no card of the rank in the asker's hand: nothing changes; otherwise `GoFish` iff the asked held none, `TakeThese(n)` moves exactly the asked player's cards of the rank, n of them; one `Action` entry is appended and the turn moves on |
| Engine.Game.Resolve | fish-engine/src/lib.rs:244-287 | the exchange, then exactly one `Action` announcement, then `Playing` at the next seat |
| Engine.Game.Inform | fish-engine/src/lib.rs:244 | the context shows every player's card count and books |
| Engine.Game.Announce | fish-engine/src/lib.rs:283-287 | the announcement is appended and the turn passes |
| Engine.Game.Exchange | fish-engine/src/lib.rs:246-273 | `GoFish` iff the asked player holds none of the rank, then the asker fishes; otherwise exactly the asked player's cards of that rank change hands |
| Engine.Game.Fish | fish-engine/src/lib.rs:246-260 | an empty pool gives nothing; otherwise the drawn card moves from the pool to the asker; the validity check that follows passes |
| Engine.Game.HandOver | fish-engine/src/lib.rs:262-272 | the asked player's cards of the rank move to the asker, and the count is their number |
| Engine.Game.TakeEach | fish-engine/src/lib.rs:264-266 | `take` of each listed card removes exactly those cards |
| Engine.Game.DealEach | fish-engine/src/lib.rs:268-270 | `deal_card` of each listed card adds exactly those cards to the hand and the tracked hand |
| Engine.Game.CheckBooks | fish-engine/src/lib.rs:140-164 | exactly the complete ranks leave the hand for the books; one `GotBook` per rank is appended, in ascending order; nothing else changes |
| Engine.Game.BookRanks | fish-engine/src/lib.rs:151-163 | the loop over the listed ranks books exactly those complete in the hand, in list order |
| Engine.ListedStep | fish-engine/src/lib.rs:264-270 | the cards listed so far grow by one per iteration |
| Engine.BookedSnoc | fish-engine/src/lib.rs:151-163 | booking one more complete rank takes its four cards, which are still in hand |
| Engine.BookedConserved | fish-engine/src/lib.rs:151-163 | booking complete ranks in ascending order keeps conservation |
| Engine.CheckBooksConserved | fish-engine/src/lib.rs:140-164 | `check_books` keeps conservation |
| Engine.BookedAll | fish-engine/src/lib.rs:140-164 | booking the `BookOrder` ranks one by one moves all complete ranks at once |
| Engine.RanksListed | fish-engine/src/lib.rs:161 | a rank list with the members of a rank set gives that set |

## Left out

- Randomness: `fastrand` is not modelled. Each draw is an oracle `nat` argument, reduced modulo the range as the source's range draw does. Uniformity is not stated.
- Bit masks: `Cards` (a `u64`) and `Ranks` (a `bitflags` mask) are modelled as sets. The engine only ever makes cards below 52, so bits at 52 and above are never set. `Suits` is not used by the engine.
- Integer widths: `u32`/`usize` counters and the `as` casts are unbounded integers. No value in the engine comes near the bounds.
- Serialisation and formatting: `Serialize`, `Display`, `Debug`, typeshare, `ranks_to_vec`, `Ranks::to_vec` and `Strat::random`/`Strat::wiki` are left out, as are `log::info!`/`log::error!`, the WASM binding, the CLI simulator and the web UI. None of them changes the game state.
- The `seen` accumulator in `check_books` (fish-engine/src/lib.rs:144, 154-156) is never read, so it is left out.
- Strategy dispatch: the `Strategy` trait is modelled as the closed `Strat` datatype over the two strategies. The unused `&Context` argument of `deal_card` and `react` is dropped.
- Fatal checks: `check_validity`'s `panic!`/`assert_eq!` become the `false` result of `Engine.Game.CheckValidity`. Every other `panic!`, `assert_eq!`, `todo!` and `unwrap` of the core is proved unreachable, as an `assert` or a precondition discharged by the invariant.
- Engine.Game.constructor: requires at least one seat and `startingCards * N <= 52`. With no seats, the source's seat draw from an empty range panics. When `startingCards * N > 52`, the `assert_eq!` at fish-engine/src/lib.rs:174-181 fails when play starts.
- Engine.Game.Step: does not state that a game ends. Each step is a single transition, and no bound on the number of steps is proved.
- WikiStrat.Wiki.Action: requires a non-empty tracked hand whenever some opponent holds cards. Otherwise the source's `while` loop never ends. The engine only calls `action` for a player with cards, and tracked hands equal real hands, so the precondition always holds there.
- WikiStrat.Wiki.Seek: requires a non-empty tracked hand, for the same reason.
- Strategy.Strat.Action: for a Wiki strategy only, requires a non-empty tracked hand whenever some opponent holds cards, because it dispatches to `WikiStrat.Wiki.Action`.
- Engine.Game.TakeTurn: the action the strategy chose is a ghost result. The contract states what follows from it, and that it names another seat and a rank in hand, but not which action it is; `Strategy.Strat.Action` states that.
- Engine.Game.StepPlaying: the same holds for its ordinary turn.
- Engine.Game.StepInner: the same holds for a `Playing` step; it returns that action.
- Engine.Game.Step: the same holds for a `Playing` step; it returns that action.
- Decomposition: some methods split the inline code of `check_validity`, `step` and `step_inner` into named pieces, each citing the lines it covers. These are `SeeBooks`, `Broadcast`, `Tell`, `StepDealing`, `StartPlaying`, `BookEach`, `BookSeats`, `BookSeat`, `DealNext`, `PassDeal`, `DealTo`, `StepPlaying`, `TakeTurn`, `Decide`, `Play`, `PassTurn`, `Absorb`, `TakePool`, `Ask`, `Resolve`, `Inform`, `Announce`, `Exchange`, `Fish`, `HandOver`, `TakeEach`, `DealEach` and `BookRanks`. The order of state changes inside one step is kept.
- Ghost state: `Engine.Game` carries ghost fields for the proofs: the strategy objects, the first dealer, and the rounds dealt. The source has no such fields.
