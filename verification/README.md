# Round engine of a 36-card trick-taking game, in Dafny

This project models the round engine of the multiplayer card game service
(`GameService` in `src/game/services/game.py`) and proves properties of it.
The engine covers seven concerns:

- It fixes the 36-card deck: four suits H, D, C, S, values 6 to 14 (`deck.dfy`, module `Cards`).
- It derives the session's round schedule from the player count (`schedule.dfy`, module `Schedules`).
  The schedule runs `"1"`×n, then `"2".."m-1"`, then `"m"`×n, then `"m-1".."2"`, then `"1"`×n,
  then the blind round `BR`×n and the no-trump round `NTR`×n, where `m = 36 // n`.
- It rotates dealer and opener with a circular generator that starts at a random seat
  (`rotation.dfy`, module `Rotation`).
- It deals each round by drawing without replacement across all players of the round
  (`dealing.dfy`, module `Dealing`).
- It picks each round's trump from an undealt card. The trump is suppressed for a no-trump
  round or when the spade seven is drawn (`trump.dfy`, module `Trumps`).
- It materialises every round of a new session, numbered from 1, with only the first one
  current (`session.dfy`, module `Session`).
- It rebuilds the game view from flat rows: hands, the trick on the table, and the trump
  (`view.dfy`, module `GameView`).

`outcomes.dfy` holds `Option`, `Result` and the exceptions the engine raises.
`seqs.dfy` and `arith.dfy` hold generic facts about sequences, sets and integer division.

Modelling choices:

- Random draws (`random.choice`, `random.randint`) are Dafny's nondeterministic choice
  `:|`. Every postcondition holds for every possible draw. The distribution is not modelled.
- The exceptions the Python code raises are `Err` results. There are four of them:
  - `random.choice` on an empty pool gives `EmptyChoice`.
  - `36 // len(players)` with no players gives `ZeroDivision`.
  - `random.randint(0, -1)` gives `EmptyRandRange`.
  - indexing the first of no rows gives `EmptyIndex`.
- Round names are the datatype `Num(k) | BR | NTR` rather than strings. `isnumeric()` holds
  exactly for `Num`.
- The store calls (`self._uow.*.add`) become an in-memory list of `RoundRecord`s. Each
  record carries its dealings.
- The circular generator is infinite. `Rotation.CircularYields` produces the first `count`
  values it yields. The session takes exactly as many values as `create_sets_with_cards` consumes:
  two before the loop and one per round.

Facts about the code that the model keeps:

- The code has no guard on the player count (src/game/services/game.py:169), and neither does
  the model. With no players the start draw fails first (src/game/services/game.py:187).
  With 1 to 36 players every round can be dealt. With more than 36, the first one-card round
  runs the deck dry.
- `BR` is dealt `36 // n` cards per player (src/game/services/game.py:150). Its trump is picked
  like any other round's (src/game/services/game.py:199-208).
- The session picks each round's trump with `_pick_trump` as written
  (src/game/services/game.py:120). A no-trump round that deals the whole deck therefore gets a
  suit; this is the first row under Findings. The corrected pick, `Trumps.PickTrumpCorrected`,
  differs from it only on that round (`Trumps.RulesDifferOnlyOnFullNoTrump`).

## Model

| member | source | states |
|---|---|---|
| Cards.DeckMembership | src/game/services/game.py:17-21 | a card is in the deck exactly when its value lies in 6..14, whatever its suit |
| Cards.DeckCard | src/game/services/game.py:17-21 | the deck has exactly 36 distinct cards |
| Schedules.ScheduleLength | src/game/services/game.py:168-177 | the schedule has `5n + 2·max(m-2, 0)` rounds, which is `5n + 2(m-2)` for 2 ≤ n ≤ 18 |
| Schedules.ScheduleMatchesRoundAt | src/game/services/game.py:168-177 | every position of the schedule equals a reference definition that reads the round name off its position among the seven runs |
| Schedules.Schedule | src/game/services/game.py:168-177 | `_generate_sets` itself, the seven runs concatenated: it has at least `5n` rounds, opens with a one-card round and closes with a no-trump round; its positions and runs are stated by ScheduleMatchesRoundAt and ScheduleShape |
| Schedules.ScheduleShape | src/game/services/game.py:170-176 | the climb is strictly increasing and is exactly 2..m-1; the descent is the climb reversed; the peak run and both one-card runs each have n rounds; the last 2n rounds are n `BR` followed by n `NTR` |
| Schedules.ScheduleNamesInRange | src/game/services/game.py:169-173 | with 1 to 36 players every numeric round name lies in `[1, m]` |
| Schedules.ScheduleForFour | src/game/services/game.py:168-177 | the four-player schedule is exactly the 34 rounds 1,1,1,1,2..8,9,9,9,9,8..2,1,1,1,1,BR×4,NTR×4 |
| Rotation.CircularYields | src/game/services/game.py:187-193 | the nested loops of the generator yield `players[(start + k) mod n]` as their k-th value |
| Rotation.NextSeat | src/game/services/game.py:189-193 | each yield sits immediately after the previous one in seating order, wrapping from the last seat to the first |
| Rotation.EverySeatInLap | src/game/services/game.py:189-193 | any n consecutive yields include every seat |
| Rotation.SeatsDistinctInLap | src/game/services/game.py:189-193 | two yields fewer than n apart are different seats |
| Dealing.CardsPerPlayer | src/game/services/game.py:149-151 | a numeric round's hand size is its own number; `BR` and `NTR` get the largest `c` with `c·n ≤ 36 < (c+1)·n`; with no players `BR`/`NTR` fail by division by zero, and nothing else fails |
| Dealing.DrawCards | src/game/services/game.py:155-159 | a hand draws `count` cards, none already used in the round; the draw fails on an empty pool exactly when the round would need more than 36 cards |
| Dealing.DealRound | src/game/services/game.py:146-165 | one hand per player in seating order, each with `int(name)` cards (or `36 // n` for BR/NTR); no card repeats across the round; every card is a deck card; `used` is exactly the union of the hands and has `count·n` members; the deal fails exactly when `count·n > 36`; BR/NTR with no players divides by zero |
| Dealing.AllCardsMembership | src/game/services/game.py:153-165 | a card is among the round's dealt cards exactly when some hand holds it |
| Dealing.HandsDisjoint | src/game/services/game.py:153-159 | no card is in two hands of a round, and no hand holds a card twice |
| Dealing.DealSize | src/game/services/game.py:153-159 | a valid deal of `count` cards per player uses `count·n` distinct cards |
| Dealing.FullDealUsesDeck | src/game/services/game.py:149-159 | when n divides 36, a valid deal of `36 // n` cards per player uses every card of the deck |
| Dealing.ScheduleFitsDeck | src/game/services/game.py:149-151 | with 1 to 36 players every scheduled round has `count·n ≤ 36`, so a session never exhausts the deck |
| Trumps.PickTrump | src/game/services/game.py:195-208 | as written: if nothing is left undealt, a suit with no value for any round; otherwise no trump for `NTR`, no trump when the spade seven is drawn, and otherwise the suit and value of an undealt card, which no player holds |
| Trumps.RulesDifferOnlyOnFullNoTrump | src/game/services/game.py:199-208 | the rule as written and the corrected rule accept the same trumps on every round except a no-trump round that dealt the whole deck, where any trump allowed as written is refused by the corrected rule |
| Trumps.PickTrumpCorrected | src/game/services/game.py:199-208 | an `NTR` round never has a trump; other rounds follow the rule as written |
| Trumps.NoTrumpRoundAsWritten | src/game/services/game.py:199-201 | when n divides 36, an `NTR` round picked as written gets a trump suit with no value |
| Session.BuildRound | src/game/services/game.py:117-141 | one loop pass: the record carries the round name, number, current flag, dealer and opener it was given, with a valid deal and the trump `_pick_trump` returns as written; it fails exactly when the round does not fit the deck |
| Session.BuildRounds | src/game/services/game.py:115-143 | one record per scheduled round, in schedule order; `round_number = index + 1`; only the first is current; round i is dealt by yield i and opened by yield i+1; each round has a valid deal and the trump picked as written; it fails exactly when there are more than 36 players |
| Session.CreateSetsWithCards | src/game/services/game.py:107-143 | it succeeds exactly for 1 to 36 players, fails on the empty start range with no players and on the empty pool with more than 36, and otherwise yields a session that is well formed for some start seat |
| Session.ExactlyOneCurrent | src/game/services/game.py:115-131 | exactly one round of a new session is current, and it is the first |
| Session.OpenerDealsNext | src/game/services/game.py:142-143 | each round's opener deals the next round and sits immediately after that round's dealer |
| Session.DealerVisitsEverySeat | src/game/services/game.py:112-143 | among any n consecutive rounds every player deals at least once, and when player ids are distinct no two of those rounds share a dealer, so each player deals exactly once |
| Session.NoTrumpRoundKeepsSuit | src/game/services/game.py:120 | when n divides 36, every no-trump round of a session deals the whole deck and gets a trump suit with no value |
| Session.FourPlayerSession | src/game/services/game.py:116-141 | a four-player session has 34 rounds; only the first is current; it deals one card to each player, four in all |
| GameView.SplitRows | src/game/services/game.py:44-57 | the loop sends each row's card to the hand list when it has no trick and to the trick list otherwise, keeping row order; together the two lists hold every row's card exactly once |
| GameView.FilterPartition | src/game/services/game.py:54-57 | the hand and trick selections split the cards without loss or duplication |
| GameView.FullGameInfoAsWritten | src/game/services/game.py:42-79 | the view fails on an empty row list, because the first row is indexed unguarded, and exists otherwise |
| GameView.ViewAsWrittenTrick | src/game/services/game.py:54-78 | round and trump come from the first row; the trick is absent exactly when no row has a trick; otherwise it is keyed by the first trick row and holds exactly the trick cards |
| GameView.ViewAsWrittenUsers | src/game/services/game.py:58-72 | as written, the view has one user entry per row, carrying that row's user |
| GameView.ViewAsWrittenHands | src/game/services/game.py:61-72 | each user entry lists exactly that user's cards still in hand |
| GameView.FirstPerUserSpec | src/game/services/game.py:58 | the first row of each user names every user of the rows exactly once |
| GameView.FullGameInfoCorrected | src/game/services/game.py:42-79 | the corrected view fails on an empty row list and exists otherwise |
| GameView.ViewCorrectedUsers | src/game/services/game.py:58-72 | the corrected view lists each user exactly once and no other user: its set of user ids equals the rows' set of user ids, and no id repeats; round, trump and trick are as written |
| GameView.ViewCorrectedHands | src/game/services/game.py:61-72 | in the corrected view each user entry lists exactly that user's cards still in hand |
| GameView.DuplicateUserEntries | src/game/services/game.py:58-72 | two hand cards of one player give two identical user entries as written, and one entry when corrected |

## Left out

- `process_card` (src/game/services/game.py:28-40) is not modelled. It is a transactional wrapper over store operations this model does not include: the trick get-or-create, the card update, and advancing the current round. The round-advance state machine lives in those store operations.
- `create_game` (src/game/services/game.py:81-105) is not modelled. It inserts the game and player rows, commits or rolls back, and builds the reply; all of this is store plumbing. Its call into the session loop is `Session.CreateSetsWithCards`.
- Atomicity and rollback of the unit of work are not modelled. A failed session is an `Err` with no records.
- The random draws are modelled as a set of possible outcomes, not as probabilities. Uniformity is not stated.
- Authentication, the HTTP layer, migrations and configuration are not modelled. They hold no engine logic.
- Store ids are natural numbers. Usernames are strings. `created_at` timestamps are not modelled.

## Findings

| source | as written | input that shows it | evidently intended | confidence | as-written member | corrected member |
|---|---|---|---|---|---|---|
| src/game/services/game.py:199-208 | The no-trump check comes after the early return for a fully dealt deck. A no-trump round that deals all 36 cards therefore gets a random trump suit. | 4 players, round `NTR`: 9 cards each, nothing undealt, so a suit is returned. The same holds for every player count that divides 36. | An `NTR` round never has a trump. | high; not executed | Trumps.NoTrumpRoundAsWritten | Trumps.PickTrumpCorrected |
| src/game/services/game.py:58-72 | The users list keeps a row when its user id is in the set of all row user ids. That always holds, so the list has one entry per row, not one per user. | Two rows for cards 1 and 2, both in user 7's hand: the view lists user 7 twice, with the same cards each time. | One entry per distinct user. | medium; not executed | GameView.DuplicateUserEntries | GameView.ViewCorrectedUsers |
