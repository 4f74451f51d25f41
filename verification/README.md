# Verified models of the examples

A Dafny project that models five of the repository's examples and proves
properties of them. `dafny verify dfyconfig.toml` checks all of it.

- **War card game** (`CardTable`, `WarHands`, `WarGames`, `WarSimulator`; on which
  games have a winner `WarSteering`, `WarStandoff`, `WarLastRound`, `WarSweep`,
  `WarTricks`, `WarOpenDeals`, `WarDeals`). Players, the nine strategies,
  `play_hand` with wars nested to any depth, the game loop and the tally over many
  games. A shuffle is an arbitrary permutation and `rand()` an arbitrary bit, both
  indexed by how many were drawn before, so the laws hold for every run. Cards are
  conserved rank by rank: `Count(s, r)` is the multiplicity of `r` in `multiset(s)`
  (`CardTable.CountIsMultiplicity`). The enrichment tests compare quotients of small
  integers, which doubles order exactly as rationals do; they are modelled as
  rationals, with the comparisons against NaN false.
- **Tiny shell** (`LineEditor`, `Terminal`, `ShellTranscript`, `Shell`). The 256-byte buffer machine
  with its in-place tokenizer computes a line editor on strings, for every input
  stream, NUL characters included: an argument is the C string at its start. A
  terminal model shows that the echo keeps the screen in step with the buffer, for
  printable input plus newline, backspace and carriage return, and the transcript of
  typed command lines is given in full.
- **Flash storage** (`NorFlash`, `FlashArea`). Byte writes by read-modify-write of
  words on a NOR part with a mode register, and the area layer with its bounds
  tests and readback checks.
- **UART receive buffer** (`UartProtocol`, `UartPort`). `shell_port_getchar` and the
  receive interrupt as a step machine with a critical section.
- **Breakpoint unit** (`Breakpoints`) and **table interpolation**
  (`RealInterpolation`, `AdcLut`).

Objects that the source updates in place are classes here. Their methods are proved
to compute functions on values, and the laws are lemmas about those functions.

## Where the code does less than its name or its tests suggest

- `simulate` looks for an empty player only before a round, so a game decided in the
  last allowed round has no winner. A game that is decided gets one exactly when it
  is decided before the last round (`WarGames.DecidedInTime`); for a game that one
  player sweeps, the hands say which round that is (`WarSweep.SweptByOne`,
  `WarSweep.SweptByTwo`). The deck can be shuffled so that the decision falls in
  round 100000 (`WarLastRound.LastRoundGoesUnseen`).
- A game need not end at all, whatever the strategies
  (`WarStandoff.SomeGamesHaveNoWinner`), although the games of
  `war-card-game-monte-carlo/tests/src/test_main.cpp` are expected to have a winner.
  It does have one when the hands dealt are swept (`WarSweep.SweptDeal`). For deals
  without a tie in the first 26 rounds the cards dealt say whether every game has a
  winner: call the two cards of a round won a trick; one player's tricks must all
  beat the other's and be no fewer (`WarDeals.DealSettlesExactly`). From any other
  such deal, a rank in common between the piles aside, the players' shuffles can keep
  the game open for ever (`WarDeals.OpenDeal`).
- When both players run out of cards on a tie, player two wins from either seat; in
  no other case does the winner depend on the seats (`WarHands.SeatsAreFair`), and
  for some cards it does exactly if the same number of wars uses up both players
  (`WarHands.SeatsMatterExactly`). A new deck left unshuffled decides a game that way
  (`WarGames.SomeGameIsDecidedBySeats`).
- The receive interrupt stores at the read index, so the buffer keeps the order of
  bytes exactly when each interrupt finds it empty (`UartProtocol.OrderExactly`,
  `UartProtocol.TwoBytesWaiting`).
- The `uint32_t` interpolation has a slope of 0 or 1 for steps up to 2^31
  (`AdcLut.SlopeExactly`). On the shipped kind of table it returns the entry before
  the nearest reading (`AdcLut.OffByOneAtReadings`, `AdcLut.BetweenEntriesExactly`).
- The bounds tests of the flash areas add in 32 bits, so an accepted write can leave
  its area, and `flash_area_erase` tests alignment only (`FlashArea.OverrunsExactly`).
  A write to the primary slot can change the bootloader
  (`FlashArea.WriteIntoBootloader`), and an erase of the bootloader the primary slot
  (`FlashArea.EraseIntoPrimary`).

## Assumptions

- A handler of the shell is opaque: it sends characters depending on its arguments
  and, started on a blank row, leaves the cursor on a blank row. The shell's own
  help handler is shown to do so when names and help texts are printable. It does
  not call back into the receive function.
- The terminal has rows wide enough for a prompt and a full buffer, and a line feed
  moves to a blank row.
- Flash: an accepted call addresses bytes that exist (`FlashArea.OnFlash`), as every
  call inside an area of the flash does (`FlashArea.InAreaOnFlash`). Areas start on
  page boundaries, the identifier given to `flash_area_get_sectors` is known, its
  area has at most 2^32 - 4096 bytes and its caller provides room for the sectors.
  The hardware completes each store and erase. Address masks `& 3` and `& ~3` are
  written as remainder and rounding down.
- Breakpoint unit: registers behave as in section C1.11 of the ARMv7-M Architecture
  Reference Manual. `fpb.h` is not part of this model; its structures are read off
  from `fpb.c`.
- Interrupts are not nested, and one that arrives while masked is taken later.
- Interpolation tables are sorted in x; in the C++ one the step is not zero.

## Model

| member | source | states |
|---|---|---|
| CardTable.EnrichedCrosswise | war-card-game-monte-carlo/include/war-simulator/war-simulator.hpp:143-186 | the three enrichment tests hold exactly when the crosswise products say so: average card, share of aces, share of cards from the jack up; with the answers for an empty hand or pile |
| CardTable.PlainStrategies | war-card-game-monte-carlo/include/war-simulator/war-simulator.hpp:204-222 | strategies 0 to 2 by identifier: shuffle whatever was combined, combine and shuffle, combine a short hand |
| CardTable.AverageStrategies | war-card-game-monte-carlo/include/war-simulator/war-simulator.hpp:188-202 | strategies 3 and 4: shuffled, pile behind hand, one draw, exactly when the hand's average is above the pile's, or exactly when it is not; otherwise a short hand is combined and nothing drawn |
| CardTable.AceStrategies | war-card-game-monte-carlo/include/war-simulator/war-simulator.hpp:188-202 | strategies 5 and 6: the same for the share of aces, counted |
| CardTable.FaceCardStrategies | war-card-game-monte-carlo/include/war-simulator/war-simulator.hpp:188-202 | strategies 7 and 8: the same for the share of cards from the jack up, counted |
| CardTable.SumByRank | war-card-game-monte-carlo/include/war-simulator/war-simulator.hpp:143-149 | the sum behind the average weighs every rank by its number of cards |
| CardTable.StrategyKeepsCards | war-card-game-monte-carlo/include/war-simulator/war-simulator.hpp:188-222 | each of the nine strategies keeps every rank's count and the number of cards, and ends with `n` cards in hand or an empty pile, for any shuffle |
| CardTable.DecideKeepsCards | war-card-game-monte-carlo/include/war-simulator/war-simulator.hpp:224-232 | a shuffle decision moves no card between players and leaves each player with any card at all something to draw |
| CardTable.EveryStrategyHasOneId | war-card-game-monte-carlo/include/war-simulator/war-simulator.hpp:449-459 | the table lists every combination of strategy, enrichment test and sense once |
| WarHands.LayDown | war-card-game-monte-carlo/include/war-simulator/war-simulator.hpp:290-294 | a war takes min(4, ncards) cards from each player |
| WarHands.LayDownExactly | war-card-game-monte-carlo/include/war-simulator/war-simulator.hpp:110-122 | after the decision each player draws min(4, what it has in hand): the last card drawn is the flip, the ones before lie face down, the rest stays |
| WarHands.LayDownOfCombiners | war-card-game-monte-carlo/include/war-simulator/war-simulator.hpp:110-122 | the same for players who only combine, in terms of their hand and pile before the decision |
| WarHands.DescendCounts | war-card-game-monte-carlo/include/war-simulator/war-simulator.hpp:274-298 | after any number of wars each player has lost four cards a war or has run dry; a war needs two players with cards; only an empty player settles a tie |
| WarHands.DescendKeepsCards | war-card-game-monte-carlo/include/war-simulator/war-simulator.hpp:274-298 | what the players laid down and what they still hold is what they had, rank by rank and in number |
| WarHands.PayoutIsThePot | war-card-game-monte-carlo/include/war-simulator/war-simulator.hpp:300-357 | what the winner collects, innermost battle first, is every card on the table once, whatever the shuffles and coins |
| WarHands.HandConservesCards | war-card-game-monte-carlo/include/war-simulator/war-simulator.hpp:260-358 | `play_hand` always names a winner; ranks are conserved over p1, p2 and the two cards; the winner keeps its own and gains both cards and all the loser gave up; the loser keeps a part of its own |
| WarHands.HandAccounting | war-card-game-monte-carlo/include/war-simulator/war-simulator.hpp:266-336 | exact sizes of everything a hand moves and records, across nested wars: the loser's remaining cards as a function of the number of wars, its recorded losses as what it gave up less one flip a war, nothing recorded for the winner |
| WarHands.WarDepth | war-card-game-monte-carlo/include/war-simulator/war-simulator.hpp:260-298 | `nhands` grows by 1 to 1 + ceil(min / 4); by exactly 1 when there is no war; the deciding flips name the winner; a tie is settled by an empty loser |
| WarHands.WarDepthIsReached | war-card-game-monte-carlo/include/war-simulator/war-simulator.hpp:260-298 | the bound is reached by players holding one rank only, who tie in the last battle too |
| WarHands.DescendUsesLaterDraws | war-card-game-monte-carlo/include/war-simulator/war-simulator.hpp:260-298 | the battles of a hand depend on the shuffles from its own draws on, and on nothing drawn before |
| WarHands.ExchangeIsUndone | war-card-game-monte-carlo/include/war-simulator/war-simulator.hpp:224-232 | exchanging the two draws of a decision twice restores every draw |
| WarHands.DescendMirrors | war-card-game-monte-carlo/include/war-simulator/war-simulator.hpp:260-298 | for all strategies and shuffles: players who change places, each keeping its own shuffles, fight the same battles with sides exchanged, are left with the same cards and use as many draws |
| WarHands.SeatsAreFair | war-card-game-monte-carlo/include/war-simulator/war-simulator.hpp:260-336 | for all strategies and shuffles: exchanging the players exchanges the winner, except exactly when the last battle ties with both players out of cards; the number of hands and what a losing player loses are the same |
| WarHands.SeatsMatterExactly | war-card-game-monte-carlo/include/war-simulator/war-simulator.hpp:260-298 | for players holding m and n cards besides the two compared, exchanging them always exchanges the winner exactly when ceil(m / 4) and ceil(n / 4) differ |
| WarHands.TwinsTie | war-card-game-monte-carlo/include/war-simulator/war-simulator.hpp:260-298 | players with the same cards in the same order who only combine tie until both are out of cards, after ceil(n / 4) wars |
| WarHands.PlayAWar | war-card-game-monte-carlo/include/war-simulator/war-simulator.hpp:290-357 | a hand that goes to war, in terms of the hand its war leads to |
| WarHands.PlayAtOnce | war-card-game-monte-carlo/include/war-simulator/war-simulator.hpp:268-288 | a hand without a war |
| WarHands.OneWar | war-card-game-monte-carlo/include/war-simulator/war-simulator.hpp:260-358 | one war between players who only combine: the last of each stake decides, the winner is recorded nothing and the loser its face-down cards, and both keep what follows their stakes |
| WarGames.RoundConservesCards | war-card-game-monte-carlo/include/war-simulator/war-simulator.hpp:366-385 | no card enters or leaves a round |
| WarGames.RoundHands | war-card-game-monte-carlo/include/war-simulator/war-simulator.hpp:380-384 | a round is 1 to 1 + ceil(h / 4) hands, where h = floor((n - 2) / 2) for n cards in play |
| WarGames.RoundLosses | war-card-game-monte-carlo/include/war-simulator/war-simulator.hpp:380-384 | one player's list of losses grows in a round, by cards that player held |
| WarGames.RoundRecords | war-card-game-monte-carlo/include/war-simulator/war-simulator.hpp:366-385 | exactly what a round takes from its loser and records: the top card and four cards a war, or all; recorded are all but the top card and one flip a war |
| WarGames.RoundLossSize | war-card-game-monte-carlo/include/war-simulator/war-simulator.hpp:380-384 | a round records at most three lost cards for each of its wars |
| WarGames.GameConservesCards | war-card-game-monte-carlo/include/war-simulator/war-simulator.hpp:360-387 | the cards of both players together are the starting cards, for any length of game |
| WarGames.WinnerHoldsTheDeck | war-card-game-monte-carlo/include/war-simulator/war-simulator.hpp:366-387 | a declared winner holds all cards and the other none; no winner is declared exactly when all allowed rounds were played |
| WarGames.LongerGames | war-card-game-monte-carlo/include/war-simulator/war-simulator.hpp:366-387 | a decided game does not change with a larger allowance, an undecided one goes on from where it stopped |
| WarGames.NoWinnerButDecided | war-card-game-monte-carlo/include/war-simulator/war-simulator.hpp:366-377 | an undeclared game has an empty player exactly when one more allowed round would declare the other |
| WarGames.DecidedInTime | war-card-game-monte-carlo/include/war-simulator/war-simulator.hpp:366-387 | a winner is declared exactly when a player has run out of cards before the last allowed round |
| WarLastRound.LastRoundGoesUnseen | war-card-game-monte-carlo/include/war-simulator/war-simulator.hpp:360-413 | the real deck can be dealt and shuffled so that round 100000 takes player two's last cards and no winner is declared |
| WarLastRound.StandoffPass | war-card-game-monte-carlo/include/war-simulator/war-simulator.hpp:366-385 | a pass of that game before the last: 26 rounds after which both players have won back the cards they started with |
| WarLastRound.AllPasses | war-card-game-monte-carlo/include/war-simulator/war-simulator.hpp:360-387 | with the standing hands laid out and any number of passes to go, the rounds left take player two's last cards in the last allowed round |
| WarGames.SomeGameIsDecidedBySeats | war-card-game-monte-carlo/include/war-simulator/war-simulator.hpp:278-288 | the real deck can be dealt so that two players who differ in nothing but their seat tie through eight hands in round one, and player two wins whatever the coins |
| WarStandoff.StandoffGoesOn | war-card-game-monte-carlo/include/war-simulator/war-simulator.hpp:366-385 | for a class of hands, and players who do not shuffle or whose shuffles leave hands as they are, no number of rounds decides the game or empties a player |
| WarStandoff.SomeGamesHaveNoWinner | war-card-game-monte-carlo/include/war-simulator/war-simulator.hpp:360-413 | for every pair of strategies the real deck can be dealt and shuffled so that a game of all 100000 rounds has no winner and two players with cards |
| WarSweep.TakenByOne | war-card-game-monte-carlo/include/war-simulator/war-simulator.hpp:260-298 | from the two hands alone, wars of one to three cards included where players only combine: player one takes the hand, and what both keep |
| WarSweep.TakenByTwo | war-card-game-monte-carlo/include/war-simulator/war-simulator.hpp:260-298 | the same for player two, who also takes a last tie of two players out of cards |
| WarSweep.SweptByOne | war-card-game-monte-carlo/include/war-simulator/war-simulator.hpp:366-387 | a game that player one sweeps from the hands as they lie: declared exactly when more rounds are allowed than the sweep takes, player two empty exactly when as many are, for all shuffles and coins, and all strategies where no war is short of cards |
| WarSweep.SweptByTwo | war-card-game-monte-carlo/include/war-simulator/war-simulator.hpp:366-387 | the same for player two |
| WarSweep.DominatingSweeps | war-card-game-monte-carlo/include/war-simulator/war-simulator.hpp:278-284 | a hand that beats the other card by card sweeps it in as many rounds as the other has cards |
| WarSweep.SweptDeal | war-card-game-monte-carlo/include/war-simulator/war-simulator.hpp:389-413 | a dealt game that is swept is won by the sweeper, for all shuffles and coins |
| WarTricks.Pass | war-card-game-monte-carlo/include/war-simulator/war-simulator.hpp:366-385 | a pass through two hands without a tie gives each player the cards of the rounds it won, for all strategies, shuffles and coins |
| WarOpenDeals.NextIsLocked | war-card-game-monte-carlo/include/war-simulator/war-simulator.hpp:366-385 | tricks laid out as planned leave both players with tricks laid out as planned |
| WarOpenDeals.FindLock | war-card-game-monte-carlo/include/war-simulator/war-simulator.hpp:366-385 | two piles of tricks, neither all above the other, can be laid out so that neither player is emptied |
| WarOpenDeals.PlanFor | war-card-game-monte-carlo/include/war-simulator/war-simulator.hpp:366-385 | any two piles of tricks but a higher and no smaller one over a lower can be laid out pass after pass without end |
| WarOpenDeals.PlanGoesOn | war-card-game-monte-carlo/include/war-simulator/war-simulator.hpp:366-387 | players who always shuffle, steered by such a plan, are undecided after any number of rounds |
| WarDeals.CommandWins | war-card-game-monte-carlo/include/war-simulator/war-simulator.hpp:366-387 | two players with empty hands, one whose pile is no smaller and beats all of the other's: it wins within one pass, for all strategies, shuffles and coins |
| WarDeals.SettledDeal | war-card-game-monte-carlo/include/war-simulator/war-simulator.hpp:360-413 | a deal without a tie in the first pass in which one player's tricks beat all of the other's and are no fewer is won by that player, within 52 rounds, for all strategies, shuffles and coins |
| WarDeals.OpenDeal | war-card-game-monte-carlo/include/war-simulator/war-simulator.hpp:360-413 | any other deal without such ties, but for a rank in common between higher and lower tricks, can be shuffled so that no number of rounds decides the game |
| WarDeals.DealSettlesExactly | war-card-game-monte-carlo/include/war-simulator/war-simulator.hpp:360-413 | so the cards dealt say whether every game dealt that way has a winner |
| WarDeals.SomeDealIsSwept | war-card-game-monte-carlo/include/war-simulator/war-simulator.hpp:360-413 | some deals of the real deck are won by player one whatever the strategies, later shuffles and coins |
| WarDeals.SweptResults | war-card-game-monte-carlo/include/war-simulator/war-simulator.hpp:398-447 | a season of up to 2^32 games dealt that way is reported as won by player one throughout, whatever the strategies |
| WarGames.HandsPerRound | war-card-game-monte-carlo/include/war-simulator/war-simulator.hpp:360-387 | `nhands` lies between the rounds and 8 times the rounds for 52 cards |
| WarGames.LossesPerWar | war-card-game-monte-carlo/include/war-simulator/war-simulator.hpp:300-336 | over a whole game at most three cards are recorded as lost for each hand beyond one a round |
| WarGames.LostCardsWereInPlay | war-card-game-monte-carlo/include/war-simulator/war-simulator.hpp:313-331 | only ranks in play are ever recorded as lost |
| WarGames.DeckHasFourOfEach | war-card-game-monte-carlo/include/war-simulator/war-simulator.hpp:125-136 | the deck is four cards of each rank 2 to 14 |
| WarGames.DealIsFair | war-card-game-monte-carlo/include/war-simulator/war-simulator.hpp:389-396 | a deal is 26 cards each and the whole deck together, for any shuffle |
| WarGames.EveryGameIsCounted | war-card-game-monte-carlo/include/war-simulator/war-simulator.hpp:426-438 | wins of either side and ties add up to the games played |
| WarGames.SeasonLaws | war-card-game-monte-carlo/include/war-simulator/war-simulator.hpp:398-439 | over any number of games of any strategies every game keeps the deck whole, gives it to a declared winner, stays within 1 to 8 hands a round and records only playing cards as lost, at most three a war |
| WarSimulator.Player.Draw | war-card-game-monte-carlo/include/war-simulator/war-simulator.hpp:50-55 | removes and returns the front card |
| WarSimulator.Player.TakeAll | war-card-game-monte-carlo/include/war-simulator/war-simulator.hpp:315-327 | appends the cards to the pile in order |
| WarSimulator.Player.CombinePile | war-card-game-monte-carlo/include/war-simulator/war-simulator.hpp:59-62 | the pile goes behind the hand |
| WarSimulator.Player.CombineStrategy | war-card-game-monte-carlo/include/war-simulator/war-simulator.hpp:188-202 | in-place enrichment strategy computes its specification |
| WarSimulator.Player.PlayStrategy | war-card-game-monte-carlo/include/war-simulator/war-simulator.hpp:204-222 | each strategy, called through the table, computes its specification |
| WarSimulator.DecideShuffle | war-card-game-monte-carlo/include/war-simulator/war-simulator.hpp:224-232 | computes the specified decision; both assertions hold |
| WarSimulator.WarHand | war-card-game-monte-carlo/include/war-simulator/war-simulator.hpp:110-122 | draws the stake, last card as flip; the flip is 0 exactly for an empty hand; the assertion holds |
| WarSimulator.LayDownStakes | war-card-game-monte-carlo/include/war-simulator/war-simulator.hpp:290-296 | decision and both war hands; both validity assertions hold |
| WarSimulator.AwardDumps | war-card-game-monte-carlo/include/war-simulator/war-simulator.hpp:300-335 | shuffled dumps to the winner, the loser's dump recorded |
| WarSimulator.AwardFlips | war-card-game-monte-carlo/include/war-simulator/war-simulator.hpp:338-356 | the two cards, in coin order, to the winner |
| WarSimulator.PlayHand | war-card-game-monte-carlo/include/war-simulator/war-simulator.hpp:260-358 | the recursive, in-place `play_hand` terminates and computes the specified winner and the whole specified new state |
| WarSimulator.PlayRound | war-card-game-monte-carlo/include/war-simulator/war-simulator.hpp:379-384 | the loop body; the assertions before drawing hold |
| WarSimulator.Simulate | war-card-game-monte-carlo/include/war-simulator/war-simulator.hpp:360-387 | the game loop ends in the specified state with the specified winner; its deck-size assertion holds in every round |
| WarSimulator.FillDeck | war-card-game-monte-carlo/include/war-simulator/war-simulator.hpp:128-136 | the loop builds the deck |
| WarSimulator.MakePlayers | war-card-game-monte-carlo/include/war-simulator/war-simulator.hpp:389-396 | two players dealt from a shuffled deck, as specified |
| WarSimulator.CountGame | war-card-game-monte-carlo/include/war-simulator/war-simulator.hpp:415-438 | one game's counters, 32-bit tallies wrapping |
| WarSimulator.SimulateStrategy | war-card-game-monte-carlo/include/war-simulator/war-simulator.hpp:398-447 | the tally of the specified season of games; the averages are left as total and count |
| WarSimulator.GameCounts | war-card-game-monte-carlo/include/war-simulator/war-simulator.hpp:415-438 | what one more game changes in the results, column by column |
| WarSimulator.ResultsAddUp | war-card-game-monte-carlo/include/war-simulator/war-simulator.hpp:398-447 | p1 + p2 + tie equals ngames exactly when no 32-bit tally wrapped, so always for fewer than 2^32 games; each total of lost cards is 2 to 14 times its count |
| LineEditor.WordsAreWords | renode-bootloader/project/common/src/shell.c:91-103 | every argument is non-empty and free of delimiters |
| LineEditor.WordsOfJoin | renode-bootloader/project/common/src/shell.c:91-103 | splitting undoes joining with single spaces |
| LineEditor.WordsKeepText | renode-bootloader/project/common/src/shell.c:91-103 | the words in order are the line without its delimiters |
| LineEditor.FeedKeepsGoodLines | renode-bootloader/project/common/src/shell.c:130-154 | between characters the line is shorter than 256 and holds no newline, backspace or carriage return |
| LineEditor.BackspaceUndoes | renode-bootloader/project/common/src/shell.c:134-149 | a character and a backspace cancel exactly when the character did not fill the buffer |
| LineEditor.BackspaceUndoesAnywhere | renode-bootloader/project/common/src/shell.c:134-149 | the same in the middle of any stream |
| LineEditor.ReturnsAreIgnored | renode-bootloader/project/common/src/shell.c:131-133 | a stream and the stream without carriage returns have the same effect |
| LineEditor.FeedDispatchesLines | renode-bootloader/project/common/src/shell.c:83-154 | on streams without editing, exactly the argument lists of the lines are dispatched, cut at newlines and at 255 characters |
| LineEditor.CommandLine | renode-bootloader/project/common/src/shell.c:83-154 | a typed command line dispatches exactly its words, the first sixteen of them |
| Terminal.HelpIsPolite | renode-bootloader/project/common/src/shell.c:162-170 | the help handler started on a blank row ends on one |
| Terminal.ReplyLeavesBlank | renode-bootloader/project/common/src/shell.c:109-119 | any dispatch, of a command or of an unknown name, ends on a blank row |
| Terminal.ScreenFollowsLine | renode-bootloader/project/common/src/shell.c:38-49 | after each received character the screen shows the prompt and the line, cursor at the end, rest blank |
| Terminal.ScreenFollowsInput | renode-bootloader/project/common/src/shell.c:105-154 | the same after any input |
| Terminal.BootShowsPrompt | renode-bootloader/project/common/src/shell.c:124-128 | booting shows the prompt on a fresh row |
| Terminal.SessionShowsLine | renode-bootloader/project/common/src/shell.c:124-154 | from boot on, whatever the screen held, the screen agrees with the line being edited |
| ShellTranscript.LineTranscript | renode-bootloader/project/common/src/shell.c:83-154 | a typed line and the character that ends it are answered by the first command of that name, called with the first sixteen words, or by the notice that there is none; then comes the prompt; a full buffer gets a newline of its own |
| ShellTranscript.BlankTranscript | renode-bootloader/project/common/src/shell.c:83-154 | a line without words gets no answer |
| ShellTranscript.CommandTranscript | renode-bootloader/project/common/src/shell.c:83-154 | the whole output for a typed command line |
| ShellTranscript.SessionTranscript | renode-bootloader/project/common/src/shell.c:83-154 | the whole output for any sequence of command lines |
| ShellTranscript.KeyTranscript | renode-bootloader/project/common/src/shell.c:130-149 | what a backspace sends and does, on a line and on an empty one, and that a carriage return does nothing |
| ShellTranscript.BootTranscript | renode-bootloader/project/common/src/shell.c:124-128 | the boot message |
| ShellTranscript.HelpTranscript | renode-bootloader/project/common/src/shell.c:162-170 | the help handler sends one line for each command, its name, a colon and its help text |
| Terminal.Find | renode-bootloader/project/common/src/shell.c:74-81 | the first command of that name |
| Shell.Tokenize | renode-bootloader/project/common/src/shell.c:88-103 | in place: the starts of the first 16 words, apart and in order, each followed by a delimiter; only delimiters up to the end of the scan and the last character become NUL |
| Shell.ArgumentsInPlace | renode-bootloader/project/common/src/shell.c:88-118 | the C strings at those starts in the cut buffer are the words |
| Shell.ShellContext.SendEcho | renode-bootloader/project/common/src/shell.c:31-49 | echo expansion of newline and backspace |
| Shell.ShellContext.SendEchoStr | renode-bootloader/project/common/src/shell.c:64-68 | echoes a string character by character |
| Shell.ShellContext.ResetRxBuffer | renode-bootloader/project/common/src/shell.c:59-62 | clears the buffer |
| Shell.ShellContext.FindCommand | renode-bootloader/project/common/src/shell.c:74-81 | linear search for the first match |
| Shell.ShellContext.ShowHelp | renode-bootloader/project/common/src/shell.c:162-170 | the help handler's loop sends the specified text |
| Shell.ShellContext.Dispatch | renode-bootloader/project/common/src/shell.c:109-119 | what an argument list sends and logs |
| Shell.ShellContext.Process | renode-bootloader/project/common/src/shell.c:83-122 | a complete line is cut, dispatched, answered and cleared; an incomplete one is left alone |
| Shell.ShellContext.Boot | renode-bootloader/project/common/src/shell.c:124-128 | buffer cleared, prompt sent |
| Shell.ShellContext.ReceiveChar | renode-bootloader/project/common/src/shell.c:130-154 | one character: new line, dispatched arguments and echo as specified; nothing before boot |
| Shell.ShellContext.ProcessInput | renode-bootloader/project/common/src/shell_port.c:51-63 | the processing loop on any finite input equals the specified editor, dispatch log and output |
| NorFlash.LittleEndian | renode-bootloader/project/common/src/minimal_nrf52_flash.c:50-59 | the byte at the lowest address is the least significant one of its word |
| NorFlash.MergeDoesNotCarry | renode-bootloader/project/common/src/minimal_nrf52_flash.c:55-59 | the addition in `prv_write_byte` is a bitwise or |
| NorFlash.MergeSetsOneByte | renode-bootloader/project/common/src/minimal_nrf52_flash.c:55-59 | it sets one byte of the word and keeps the other three |
| NorFlash.StoreBurnsTheByte | renode-bootloader/project/common/src/minimal_nrf52_flash.c:55-66 | storing the word clears bits of that byte only as the value asks |
| NorFlash.StoreKeepsTheOthers | renode-bootloader/project/common/src/minimal_nrf52_flash.c:55-66 | and leaves the other bytes of the word |
| NorFlash.StoredBytes | renode-bootloader/project/common/src/minimal_nrf52_flash.c:55-66 | word read-modify-write refines a byte store on the whole memory |
| NorFlash.Nvmc.WriteByte | renode-bootloader/project/common/src/minimal_nrf52_flash.c:55-72 | programs one byte, in write mode, and returns to read mode |
| NorFlash.Nvmc.Write | renode-bootloader/project/common/src/minimal_nrf52_flash.c:74-80 | changes exactly the bytes of the range, each to old AND new |
| NorFlash.Nvmc.EraseSector | renode-bootloader/project/common/src/minimal_nrf52_flash.c:86-100 | erases exactly one page, in erase mode, and returns to read mode |
| FlashArea.AreasTile | renode-bootloader/project/common/src/mcuboot_port.c:15-47 | the areas follow each other from address 0 on page boundaries |
| FlashArea.AreasAre | renode-bootloader/project/common/src/mcuboot_port.c:15-64 | addresses, sizes and identifiers of the three areas, and the identifier of every slot |
| FlashArea.LookupArea | renode-bootloader/project/common/src/mcuboot_port.c:66-81 | the first area with that identifier, the argument truncated to 8 bits |
| FlashArea.SlotsOpen | renode-bootloader/project/common/src/mcuboot_port.c:49-81 | opening the identifier of a slot succeeds exactly for the two slots of image 0 |
| FlashArea.BoundsTestIsExact | renode-bootloader/project/common/src/mcuboot_port.c:134-139 | an accepted read or write lies in its area exactly when the true end offset fits in 32 bits |
| FlashArea.AcceptedExactly | renode-bootloader/project/common/src/mcuboot_port.c:128-185 | which calls get through, by cases on the true sum of offset and length: up to the size, or over 2^32 by no more than it; erases of whole pages; nothing on another device |
| FlashArea.OverrunsExactly | renode-bootloader/project/common/src/mcuboot_port.c:148-206 | an accepted write or erase touches a byte outside its area exactly when its range does not lie in the area: for a write when the end offset wraps, for an erase when it is too long |
| FlashArea.WriteIntoBootloader | renode-bootloader/project/common/src/mcuboot_port.c:154-163 | an accepted write of 4096 bytes at offset 0xFFFFF000 of the primary slot programs the last page of the bootloader |
| FlashArea.EraseIntoPrimary | renode-bootloader/project/common/src/mcuboot_port.c:181-194 | an accepted erase of 36 KiB of the bootloader clears the first page of the primary slot |
| FlashArea.BytesAreIndependent | renode-bootloader/project/common/src/mcuboot_port.c:128-206 | over any run of reads, writes and erases, at any 32-bit offset, each byte's value is its own history of covering operations |
| FlashArea.OtherAreasUntouched | renode-bootloader/project/common/src/mcuboot_port.c:128-206 | a run that stays in its areas changes no byte outside them |
| FlashArea.EraseWriteRead | renode-bootloader/project/common/src/mcuboot_port.c:128-206 | erase, then write leaves the data, with any other operations before, between and after that spare it |
| FlashArea.InAreaRoundTrip | renode-bootloader/project/common/src/mcuboot_port.c:128-206 | inside an area: after an erase of whole pages and a write into them, a read returns what was written, whatever else keeps off it |
| FlashArea.ReadbackIsProgrammable | renode-bootloader/project/common/src/mcuboot_port.c:165-170 | a write reads back exactly when every set bit of the data was still set |
| FlashArea.InAreaOnFlash | renode-bootloader/project/common/src/mcuboot_port.c:128-206 | an operation inside an area of the flash addresses existing bytes |
| FlashArea.ApplyOnFlash | renode-bootloader/project/common/src/mcuboot_port.c:148-206 | an operation that addresses existing flash is one program or erase of one range, at the wrapped address |
| FlashArea.ReadArea | renode-bootloader/project/common/src/mcuboot_port.c:128-146 | refused exactly as tested, never inside the area; otherwise the bytes of the range |
| FlashArea.WriteArea | renode-bootloader/project/common/src/mcuboot_port.c:148-173 | refused exactly as tested, never inside the area; otherwise programs the range; the readback assertion passes exactly on programmable data |
| FlashArea.EraseArea | renode-bootloader/project/common/src/mcuboot_port.c:175-206 | refused exactly as tested, otherwise erases exactly the range; the check assertion cannot fail |
| FlashArea.RunOneMore | renode-bootloader/project/common/src/mcuboot_port.c:128-206 | a run and what it hands out, one operation longer |
| FlashArea.Session | renode-bootloader/project/common/src/mcuboot_port.c:128-206 | any sequence of calls leaves the flash as the run says and returns what the run says, with the controller in read mode and no fault after each; it stops exactly at a write that fails its readback |
| FlashArea.GetSectors | renode-bootloader/project/common/src/mcuboot_port.c:103-122 | fills exactly the sectors of the area, nothing beyond |
| FlashArea.SectorsTile | renode-bootloader/project/common/src/mcuboot_port.c:110-118 | sectors are contiguous and cover the area exactly when its size is a whole number of pages |
| FlashArea.SectorBySector | renode-bootloader/project/common/src/mcuboot_port.c:103-122 | erasing the sectors one by one equals erasing the area |
| UartProtocol.RunInv | renode-bootloader/project/common/src/shell_port.c:14-44 | counting and provenance invariants over every interleaving |
| UartProtocol.CountingHolds | renode-bootloader/project/common/src/shell_port.c:22-44 | from reset, `num_bytes` is bytes accepted minus delivered, within 0 to 64, never decremented from 0, and `read_idx` is deliveries modulo 64 |
| UartProtocol.InterruptStores | renode-bootloader/project/common/src/shell_port.c:22-29 | an interrupt taken with fewer than 64 bytes waiting stores its byte and counts it; otherwise nothing changes |
| UartProtocol.InterruptWindow | renode-bootloader/project/common/src/shell_port.c:31-44 | interrupts are taken at any time but between masking and unmasking |
| UartProtocol.AcceptsExactly | renode-bootloader/project/common/src/shell_port.c:22-29 | over any run everything that arrives is accepted exactly when no interrupt taken finds 64 bytes waiting |
| UartProtocol.FirstSixtyFour | renode-bootloader/project/common/src/shell_port.c:22-29 | before the first read the first 64 bytes are accepted, and no more |
| UartProtocol.PolledBytesArrive | renode-bootloader/project/common/src/shell_port.c:22-44 | bytes each followed by an undisturbed call are delivered as they came |
| UartProtocol.ArrivalIsHistory | renode-bootloader/project/common/src/shell_port.c:22-29 | over any run, every byte was accepted into an empty buffer exactly when every interrupt taken found the count at 0 |
| UartProtocol.OrderIsKept | renode-bootloader/project/common/src/shell_port.c:22-44 | if every interrupt taken finds the buffer empty, delivered bytes are a prefix of received bytes |
| UartProtocol.OrderExactly | renode-bootloader/project/common/src/shell_port.c:22-44 | once the buffer is empty, bytes came out in their places exactly when every interrupt taken had found it empty |
| UartProtocol.TwoBytesWaiting | renode-bootloader/project/common/src/shell_port.c:27 | two bytes before the first read come out as the second and the initial slot contents |
| UartProtocol.GetcharTakes | renode-bootloader/project/common/src/shell_port.c:31-44 | an undisturbed call delivers the byte at the read index |
| UartPort.Buffer.ByteReceivedFromIsr | renode-bootloader/project/common/src/shell_port.c:22-29 | the interrupt handler is the protocol's interrupt step |
| UartPort.Buffer.Pending | renode-bootloader/project/common/src/shell_port.c:22-29 | several interrupts are as many steps |
| UartPort.Buffer.TakeOut | renode-bootloader/project/common/src/shell_port.c:38-41 | the critical section is its five steps |
| UartPort.Buffer.Getchar | renode-bootloader/project/common/src/shell_port.c:31-44 | a call, with any interrupts at each point where they are enabled, is a run of the protocol and delivers what it returns |
| Breakpoints.EnableWorks | renode-bootloader/project/common/src/fpb.c:47-49 | enabling carries the key, turns the unit on and preserves the other fields |
| Breakpoints.DisableWorks | renode-bootloader/project/common/src/fpb.c:43-45 | disabling carries the key, turns the unit off and preserves the other fields |
| Breakpoints.DecodeOfEncode | renode-bootloader/project/common/src/fpb.c:93-126 | a programmed comparator reads back as the address with bit 0 cleared and its halfword |
| Breakpoints.EncodeIsInjective | renode-bootloader/project/common/src/fpb.c:93-126 | comparators read the same exactly for addresses of the same halfword |
| Breakpoints.FieldsAreRead | renode-bootloader/project/common/src/fpb.c:51-66 | the four fields are read back from their bits of a control register |
| Breakpoints.AcceptedExactly | renode-bootloader/project/common/src/fpb.c:68-91 | accepted exactly on revision 0, for a code comparator that there is and an address below 0x20000000 |
| Breakpoints.RunRefines | renode-bootloader/project/common/src/fpb.c:43-97 | over any run the registers stand for a switch and a map from comparator to address |
| Breakpoints.ComparatorsReadBack | renode-bootloader/project/common/src/fpb.c:43-128 | after any run a comparator reads as the last address accepted for it, others as before; revision and counts never change |
| Breakpoints.Fpb.Enable | renode-bootloader/project/common/src/fpb.c:47-49 | the register write, as specified |
| Breakpoints.Fpb.Disable | renode-bootloader/project/common/src/fpb.c:43-45 | the register write, as specified |
| Breakpoints.Fpb.GetConfig | renode-bootloader/project/common/src/fpb.c:51-66 | the fields of FP_CTRL |
| Breakpoints.Fpb.SetBreakpoint | renode-bootloader/project/common/src/fpb.c:68-97 | accepted exactly on a revision-0 unit for an implemented code comparator and a code address; registers as specified |
| Breakpoints.Fpb.GetCompConfig | renode-bootloader/project/common/src/fpb.c:99-128 | the decoded comparator, or unsupported |
| RealInterpolation.BisectLeft | thermistors/thermistor-analysis.ipynb:231-243 | binary search finds the first element not below x |
| RealInterpolation.Interpolate | thermistors/thermistor-analysis.ipynb:246-266 | raises exactly for malformed tables, otherwise the specified value |
| RealInterpolation.RiseIsBounded | thermistors/thermistor-analysis.ipynb:246-266 | across all segments and both clamped ends the value never rises faster than the steepest segment |
| RealInterpolation.Lipschitz | thermistors/thermistor-analysis.ipynb:246-266 | continuity with the table's steepest slope |
| RealInterpolation.Monotone | thermistors/thermistor-analysis.ipynb:246-266 | rising tables give rising, falling tables falling values |
| RealInterpolation.ExactAtKnots | thermistors/thermistor-analysis.ipynb:246-266 | every table entry is reproduced |
| RealInterpolation.ClampedAtEnds | thermistors/thermistor-analysis.ipynb:246-266 | the first entry up to the first reading, the last one past the last |
| RealInterpolation.OnTheLine | thermistors/thermistor-analysis.ipynb:246-266 | between two readings the value lies on the line through their entries |
| RealInterpolation.BetweenNeighbours | thermistors/thermistor-analysis.ipynb:246-266 | values lie between the two neighbouring entries, for any table |
| RealInterpolation.LinearIsExact | thermistors/thermistor-analysis.ipynb:246-266 | a linear table is interpolated without error |
| RealInterpolation.NegatedTable | thermistors/thermistor-analysis.ipynb:246-266 | negating the table negates the value |
| AdcLut.Index | thermistors/thermistor_lut_example.cpp:35-37 | the upper index is between 1 and N - 1, so both table accesses are in range |
| AdcLut.RunIsNegative | thermistors/thermistor_lut_example.cpp:39-44 | the divisor wraps to 2^32 - step |
| AdcLut.SlopeExactly | thermistors/thermistor_lut_example.cpp:44 | for every step: 0 when the table falls by more than the step or not at all; 1 when it falls by 1 to step, unless the step is so large that it is more, which needs a step over 2^31 |
| AdcLut.ResultExactly | thermistors/thermistor_lut_example.cpp:31-46 | the result for every table and step: the lower entry plus slope times the distance from x0, modulo 2^32 |
| AdcLut.SteepIsLookup | thermistors/thermistor_lut_example.cpp:31-46 | on a table falling by more than step the result is a table entry |
| AdcLut.NeverRises | thermistors/thermistor_lut_example.cpp:31-46 | then the result never rises with the reading and lies between the first and the last but one entry |
| AdcLut.NeverRisesExactly | thermistors/thermistor_lut_example.cpp:35-37 | that holds for all readings exactly when start <= step / 2, two-entry tables aside |
| AdcLut.OffByOneAtReadings | thermistors/thermistor_lut_example.cpp:18-20 | at its own readings the table gives the entry before, except at the first |
| AdcLut.BetweenEntriesExactly | thermistors/thermistor_lut_example.cpp:31-46 | exactly where between two readings the result lies between their entries |
| AdcLut.ShippedLookup | thermistors/thermistor_lut_example.cpp:103-128 | the shipped spacing and 12-bit range: a closed form for every reading, never rising |

## Left out

- Random number quality, the shared generator and the `std::async` fan-out of `war-card-game-monte-carlo/src/main.cpp`.
- The quotients total / count at the end of `simulate_strategy`: floating point, and 0 / 0 when no war was lost; totals and counts are modelled.
- Widths of `nhands`, of the totals and of `size_t` counters: 64-bit counters that no run reaches.
- Shell.ShellContext.Boot: a null `send_char` is not modelled; booting always provides one.
- Handlers that write to their `argv` strings.
- Shell.ShellContext.ProcessInput: covers finite inputs of the endless processing loop.
- `uart_tx_blocking`, the spin loops on the flash controller's READY register and the barriers.
- WarDeals.DealSettlesExactly: does not classify deals with a tie in the first 26 rounds, nor the deals between its two conditions, whose higher and lower tricks share one rank.
- FlashArea.GetSectors: areas of more than 2^32 - 4096 bytes, for which the 32-bit offset wraps and the loop does not end.
- FlashArea.ReadArea: accesses to addresses with no flash behind them, which the code does not test for.
- FlashArea.WriteArea: the same.
- FlashArea.EraseArea: the same.
- FlashArea.Session: the same; a failed readback ends the program and the session.
- MCUboot itself, `boot_go`, startup code, the boot jump and the linker layout.
- `shell_commands.c`: handlers are opaque.
- Steinhart-Hart formula, `calc_lut` and `linespace`: logarithms and rounding of doubles; a table is an input with the falling property stated.
- RealInterpolation.Interpolate: real arithmetic, without the rounding of floating point.
- Modbus and Zephyr applications, `mcuboot_flash_storage.c`, `mcuboot_port_template.c`, `log_port.c`: members without branching or state.
- `fpb_dump_breakpoint_config`: prints what `fpb_get_comp_config` decodes.
