/** Whole games, on values: rounds until a player is seen to hold nothing or the
    allowance of rounds is used up, and the tally over many games. */
module WarGames {
  import opened CardTable
  import opened WarHands

  const MAX_ROUNDS: nat := 100000

  /** Both seats, the draws made so far, and what `GameResult` has recorded. */
  datatype Game = Game(a: Seat, b: Seat, shuffles: nat, flips: nat,
                       lost1: seq<Card>, lost2: seq<Card>, hands: nat) {
    function Copies(r: Card): nat { a.Copies(r) + b.Copies(r) }
    function NCards(): nat { a.NCards() + b.NCards() }
  }

  function Fresh(a: Seat, b: Seat, shuffles: nat, flips: nat): Game {
    Game(a, b, shuffles, flips, [], [], 0)
  }

  function Record(g: Game, o: Outcome): Game {
    Game(o.a, o.b, o.shuffles, o.flips, g.lost1 + o.lost1, g.lost2 + o.lost2, g.hands + o.hands)
  }

  function WithoutTop(s: Seat): Seat
    requires s.hand != []
  {
    s.(hand := s.hand[1..])
  }

  /** One pass of the game loop for two players who both hold cards. */
  function Round(g: Game, f: Shuffler, coin: Coins): Game
    requires g.a.NCards() > 0 && g.b.NCards() > 0
  {
    DecideKeepsCards(g.a, g.b, 1, f, g.shuffles, 0);
    var (a', b', k) := Decide(g.a, g.b, 1, f, g.shuffles);
    Record(g, Play(a'.hand[0], b'.hand[0], WithoutTop(a'), WithoutTop(b'), f, k, coin, g.flips))
  }

  /** The final state, the declared winner and the rounds actually played when
      `allowance` rounds are allowed. */
  datatype Ending = Ending(game: Game, winner: Winner, rounds: nat)

  function Run(g: Game, f: Shuffler, coin: Coins, allowance: nat): Ending
    decreases allowance
  {
    if allowance == 0 then Ending(g, None, 0)
    else if g.a.NCards() == 0 then Ending(g, Two, 0)
    else if g.b.NCards() == 0 then Ending(g, One, 0)
    else
      var e := Run(Round(g, f, coin), f, coin, allowance - 1);
      e.(rounds := e.rounds + 1)
  }

  // ----- one round

  lemma TopSplits(s: Seat, r: Card)
    requires s.hand != []
    ensures s.Copies(r) == Is(s.hand[0], r) + WithoutTop(s).Copies(r)
    ensures WithoutTop(s).NCards() == s.NCards() - 1
  {
  }

  /** What a round is, as a hand played from the two seats without their top cards. */
  lemma RoundIsAHand(g: Game, f: Shuffler, coin: Coins, r: Card) returns (c1: Card, c2: Card, x: Seat, y: Seat, k: nat)
    requires g.a.NCards() > 0 && g.b.NCards() > 0
    ensures Round(g, f, coin) == Record(g, Play(c1, c2, x, y, f, k, coin, g.flips))
    ensures g.a.Copies(r) == Is(c1, r) + x.Copies(r) && g.b.Copies(r) == Is(c2, r) + y.Copies(r)
    ensures g.a.NCards() == 1 + x.NCards() && g.b.NCards() == 1 + y.NCards()
  {
    hide Play, Decide, Seat.Copies, WithoutTop;
    DecideKeepsCards(g.a, g.b, 1, f, g.shuffles, r);
    var (a', b', k') := Decide(g.a, g.b, 1, f, g.shuffles);
    TopSplits(a', r);
    TopSplits(b', r);
    c1, c2, x, y, k := a'.hand[0], b'.hand[0], WithoutTop(a'), WithoutTop(b'), k';
  }

  /** No card enters or leaves a round. */
  lemma RoundConservesCards(g: Game, f: Shuffler, coin: Coins, r: Card)
    requires g.a.NCards() > 0 && g.b.NCards() > 0
    ensures Round(g, f, coin).Copies(r) == g.Copies(r)
    ensures Round(g, f, coin).NCards() == g.NCards()
  {
    hide Play, Round, Seat.Copies, Seat.NCards;
    var c1, c2, x, y, k := RoundIsAHand(g, f, coin, r);
    HandConservesCards(c1, c2, x, y, f, k, coin, g.flips, r);
    HandAccounting(c1, c2, x, y, f, k, coin, g.flips, r);
  }

  /** A round is at least one hand and at most 1 + ceil(h / 4), where h is half of the
      n - 2 cards left after drawing, rounded down. */
  lemma RoundHands(g: Game, f: Shuffler, coin: Coins)
    requires g.a.NCards() > 0 && g.b.NCards() > 0
    ensures g.hands < Round(g, f, coin).hands <= g.hands + 1 + CeilDiv4((g.NCards() - 2) / 2)
  {
    hide Play, Round, Seat.Copies, Seat.NCards;
    var c1, c2, x, y, k := RoundIsAHand(g, f, coin, 0);
    WarDepth(c1, c2, x, y, f, k, coin, g.flips);
  }

  /** At most one player's list of lost cards grows in a round, by cards that
      player held. */
  lemma RoundLosses(g: Game, f: Shuffler, coin: Coins, r: Card)
    requires g.a.NCards() > 0 && g.b.NCards() > 0
    ensures var h := Round(g, f, coin);
            && Count(h.lost1, r) <= Count(g.lost1, r) + g.a.Copies(r)
            && Count(h.lost2, r) <= Count(g.lost2, r) + g.b.Copies(r)
            && g.lost1 <= h.lost1 && g.lost2 <= h.lost2 && (h.lost1 == g.lost1 || h.lost2 == g.lost2)
  {
    hide Play, Round, Seat.Copies, Seat.NCards;
    var c1, c2, x, y, k := RoundIsAHand(g, f, coin, r);
    var o := Play(c1, c2, x, y, f, k, coin, g.flips);
    HandConservesCards(c1, c2, x, y, f, k, coin, g.flips, r);
    HandAccounting(c1, c2, x, y, f, k, coin, g.flips, r);
    CountAppend(g.lost1, o.lost1, r);
    CountAppend(g.lost2, o.lost2, r);
  }

  /** What a round takes and what of it is recorded, exactly.  The player who ends with
      fewer cards gives up its top card and four for each war, or all it has; recorded
      are all of those but the top card and one flip a war.  The other gains as many
      cards, and nothing is recorded for it. */
  lemma RoundRecords(g: Game, f: Shuffler, coin: Coins)
    requires g.a.NCards() > 0 && g.b.NCards() > 0
    ensures var h := Round(g, f, coin);
            var wars := h.hands - g.hands - 1;
            && h.a.NCards() != g.a.NCards()
            && (h.a.NCards() > g.a.NCards() ==>
                 && h.b.NCards() == (if g.b.NCards() < 1 + 4 * wars then 0 else g.b.NCards() - 1 - 4 * wars)
                 && |h.lost2| == |g.lost2| + (g.b.NCards() - h.b.NCards()) - 1 - wars
                 && h.lost1 == g.lost1)
            && (h.a.NCards() < g.a.NCards() ==>
                 && h.a.NCards() == (if g.a.NCards() < 1 + 4 * wars then 0 else g.a.NCards() - 1 - 4 * wars)
                 && |h.lost1| == |g.lost1| + (g.a.NCards() - h.a.NCards()) - 1 - wars
                 && h.lost2 == g.lost2)
            && h.NCards() == g.NCards() && h.a.strategy == g.a.strategy && h.b.strategy == g.b.strategy
  {
    hide Play, Round, Seat.Copies, Seat.NCards;
    var c1, c2, x, y, k := RoundIsAHand(g, f, coin, 0);
    HandConservesCards(c1, c2, x, y, f, k, coin, g.flips, 0);
    HandAccounting(c1, c2, x, y, f, k, coin, g.flips, 0);
    SeatsKept(g, f, coin, c1, c2, x, y, k);
  }

  lemma SeatsKept(g: Game, f: Shuffler, coin: Coins, c1: Card, c2: Card, x: Seat, y: Seat, k: nat)
    requires g.a.NCards() > 0 && g.b.NCards() > 0
    requires Round(g, f, coin) == Record(g, Play(c1, c2, x, y, f, k, coin, g.flips))
    ensures Round(g, f, coin).a.strategy == g.a.strategy && Round(g, f, coin).b.strategy == g.b.strategy
  {
    var (a, b, l) := Decide(g.a, g.b, 1, f, g.shuffles);
    DecideKeepsCards(g.a, g.b, 1, f, g.shuffles, 0);
    hide Decide, Play;
    HandConservesCards(a.hand[0], b.hand[0], WithoutTop(a), WithoutTop(b), f, l, coin, g.flips, 0);
  }

  /** A war records at most three cards as lost. */
  lemma RoundLossSize(g: Game, f: Shuffler, coin: Coins)
    requires g.a.NCards() > 0 && g.b.NCards() > 0
    ensures var h := Round(g, f, coin);
            |h.lost1| + |h.lost2| <= |g.lost1| + |g.lost2| + 3 * (h.hands - g.hands - 1)
  {
    hide Play, Round, Seat.Copies, Seat.NCards;
    var c1, c2, x, y, k := RoundIsAHand(g, f, coin, 0);
    HandLossSize(c1, c2, x, y, f, k, coin, g.flips);
  }

  lemma HandLossSize(c1: Card, c2: Card, a: Seat, b: Seat, f: Shuffler, k: nat, coin: Coins, j: nat)
    ensures var o := Play(c1, c2, a, b, f, k, coin, j);
            o.hands >= 1 && |o.lost1| + |o.lost2| <= 3 * (o.hands - 1)
  {
    hide Play, Seat.Copies, Seat.NCards, Descend;
    WarDepth(c1, c2, a, b, f, k, coin, j);
    HandAccounting(c1, c2, a, b, f, k, coin, j, 0);
    HandConservesCards(c1, c2, a, b, f, k, coin, j, 0);
  }

  // ----- whole games

  lemma RunUnfolds(g: Game, f: Shuffler, coin: Coins, allowance: nat)
    requires allowance > 0 && g.a.NCards() > 0 && g.b.NCards() > 0
    ensures var e := Run(Round(g, f, coin), f, coin, allowance - 1);
            Run(g, f, coin, allowance) == e.(rounds := e.rounds + 1)
  {
    hide Round;
  }

  lemma RunStops(g: Game, f: Shuffler, coin: Coins, allowance: nat)
    requires allowance == 0 || g.a.NCards() == 0 || g.b.NCards() == 0
    ensures var e := Run(g, f, coin, allowance);
            && e.game == g && e.rounds == 0
            && e.winner == if allowance == 0 then None else if g.a.NCards() == 0 then Two else One
  {
    hide Round;
  }

  /** Over a game of any length the cards of the two players together never change. */
  lemma {:induction false} GameConservesCards(g: Game, f: Shuffler, coin: Coins, allowance: nat, r: Card)
    ensures var e := Run(g, f, coin, allowance);
            e.game.Copies(r) == g.Copies(r) && e.game.NCards() == g.NCards()
    decreases allowance
  {
    hide Run, Round, Seat.Copies, Seat.NCards;
    if allowance > 0 && g.a.NCards() > 0 && g.b.NCards() > 0 {
      RunUnfolds(g, f, coin, allowance);
      RoundConservesCards(g, f, coin, r);
      GameConservesCards(Round(g, f, coin), f, coin, allowance - 1, r);
    } else {
      RunStops(g, f, coin, allowance);
    }
  }

  /** A declared winner holds the whole deck; no winner is declared exactly when
      every allowed round was played. */
  lemma {:induction false} WinnerHoldsTheDeck(g: Game, f: Shuffler, coin: Coins, allowance: nat, r: Card)
    ensures var e := Run(g, f, coin, allowance);
            && e.rounds <= allowance
            && (e.winner == None <==> e.rounds == allowance)
            && (e.winner == One ==> e.game.b.NCards() == 0 && e.game.a.Copies(r) == g.Copies(r))
            && (e.winner == Two ==> e.game.a.NCards() == 0 && e.game.b.Copies(r) == g.Copies(r))
    decreases allowance
  {
    hide Run, Round;
    if allowance > 0 && g.a.NCards() > 0 && g.b.NCards() > 0 {
      hide Seat.Copies, Seat.NCards;
      RunUnfolds(g, f, coin, allowance);
      RoundConservesCards(g, f, coin, r);
      WinnerHoldsTheDeck(Round(g, f, coin), f, coin, allowance - 1, r);
    } else {
      RunStops(g, f, coin, allowance);
    }
  }

  /** More rounds change nothing once a winner is declared, and otherwise go on
      from where the shorter game stopped. */
  lemma {:induction false} LongerGames(g: Game, f: Shuffler, coin: Coins, allowance: nat, extra: nat)
    ensures var e := Run(g, f, coin, allowance);
            var on := Run(e.game, f, coin, extra);
            Run(g, f, coin, allowance + extra)
            == if e.winner != None then e else on.(rounds := e.rounds + on.rounds)
    decreases allowance
  {
    hide Run, Round, Seat.NCards;
    if allowance > 0 && g.a.NCards() > 0 && g.b.NCards() > 0 {
      RunUnfolds(g, f, coin, allowance);
      RunUnfolds(g, f, coin, allowance + extra);
      LongerGames(Round(g, f, coin), f, coin, allowance - 1, extra);
    } else {
      RunStops(g, f, coin, allowance);
      if allowance > 0 {
        RunStops(g, f, coin, allowance + extra);
      }
    }
  }

  predicate Over(g: Game) { g.a.NCards() == 0 || g.b.NCards() == 0 }

  /** `n` rounds, or as many as there are, with nobody looking for a winner. */
  function After(g: Game, f: Shuffler, coin: Coins, n: nat): Game
    decreases n
  {
    if n == 0 || Over(g) then g else After(Round(g, f, coin), f, coin, n - 1)
  }

  /** When the allowance is enough: a winner is declared exactly when a player has
      run out of cards before the last allowed round. */
  lemma {:induction false} DecidedInTime(g: Game, f: Shuffler, coin: Coins, allowance: nat)
    ensures var e := Run(g, f, coin, allowance);
            && e.game == After(g, f, coin, allowance)
            && (e.winner != None <==> allowance > 0 && Over(After(g, f, coin, allowance - 1)))
    decreases allowance
  {
    if allowance == 0 || Over(g) {
      hide Run;
      RunStops(g, f, coin, allowance);
    } else {
      hide Run, Round, Over;
      assert g.a.NCards() > 0 && g.b.NCards() > 0 by { assert !Over(g); }
      RunUnfolds(g, f, coin, allowance);
      DecidedInTime(Round(g, f, coin), f, coin, allowance - 1);
    }
  }

  /** "No winner" does not mean that both players still hold cards: the holdings
      are looked at only before a round.  A game without a winner has an empty
      player exactly when one more round would have been enough to declare one. */
  lemma NoWinnerButDecided(g: Game, f: Shuffler, coin: Coins, allowance: nat)
    requires Run(g, f, coin, allowance).winner == None
    ensures var e := Run(g, f, coin, allowance);
            (e.game.a.NCards() == 0 || e.game.b.NCards() == 0)
            <==> Run(g, f, coin, allowance + 1) == e.(winner := if e.game.a.NCards() == 0 then Two else One)
  {
    hide Run, Round;
    WinnerHoldsTheDeck(g, f, coin, allowance, 0);
    WinnerHoldsTheDeck(g, f, coin, allowance + 1, 0);
    LongerGames(g, f, coin, allowance, 1);
    NextRound(Run(g, f, coin, allowance).game, f, coin);
  }

  lemma NextRound(g: Game, f: Shuffler, coin: Coins)
    ensures var e := Run(g, f, coin, 1);
            if g.a.NCards() == 0 then e == Ending(g, Two, 0)
            else if g.b.NCards() == 0 then e == Ending(g, One, 0)
            else e.rounds == 1
  {
    hide Round;
  }

  /** Hands played lie between the rounds and `per` times the rounds, where `per`
      is 8 for a deck of 52. */
  lemma {:induction false} HandsPerRound(g: Game, f: Shuffler, coin: Coins, allowance: nat)
    ensures var e := Run(g, f, coin, allowance);
            var per := 1 + CeilDiv4(if g.NCards() < 2 then 0 else (g.NCards() - 2) / 2);
            && g.hands + e.rounds <= e.game.hands <= g.hands + per * e.rounds
            && (g.NCards() == DECK_SIZE ==> per == 8)
    decreases allowance
  {
    hide Run, Round, Seat.Copies, Seat.NCards;
    if allowance > 0 && g.a.NCards() > 0 && g.b.NCards() > 0 {
      RunUnfolds(g, f, coin, allowance);
      RoundConservesCards(g, f, coin, 0);
      RoundHands(g, f, coin);
      HandsPerRound(Round(g, f, coin), f, coin, allowance - 1);
    } else {
      RunStops(g, f, coin, allowance);
    }
  }

  /** Over a whole game at most three cards are recorded as lost for each war, that
      is for each hand beyond one a round. */
  lemma {:induction false} LossesPerWar(g: Game, f: Shuffler, coin: Coins, allowance: nat)
    ensures var e := Run(g, f, coin, allowance);
            |e.game.lost1| + |e.game.lost2| <= |g.lost1| + |g.lost2| + 3 * (e.game.hands - g.hands - e.rounds)
    decreases allowance
  {
    hide Run, Round, Seat.Copies, Seat.NCards;
    if allowance > 0 && g.a.NCards() > 0 && g.b.NCards() > 0 {
      RunUnfolds(g, f, coin, allowance);
      RoundLossSize(g, f, coin);
      LossesPerWar(Round(g, f, coin), f, coin, allowance - 1);
    } else {
      RunStops(g, f, coin, allowance);
    }
  }

  /** A rank is recorded as lost only if it was before or there are cards of it in play. */
  lemma {:induction false} LostCardsWereInPlay(g: Game, f: Shuffler, coin: Coins, allowance: nat, r: Card)
    ensures var e := Run(g, f, coin, allowance);
            && (Count(e.game.lost1, r) > 0 ==> Count(g.lost1, r) > 0 || g.Copies(r) > 0)
            && (Count(e.game.lost2, r) > 0 ==> Count(g.lost2, r) > 0 || g.Copies(r) > 0)
    decreases allowance
  {
    hide Run, Round, Seat.Copies, Seat.NCards, Count;
    if allowance > 0 && g.a.NCards() > 0 && g.b.NCards() > 0 {
      RunUnfolds(g, f, coin, allowance);
      RoundConservesCards(g, f, coin, r);
      RoundLosses(g, f, coin, r);
      LostCardsWereInPlay(Round(g, f, coin), f, coin, allowance - 1, r);
    } else {
      RunStops(g, f, coin, allowance);
    }
  }

  // ----- the deck

  function MakeDeck(): seq<Card> { seq(DECK_SIZE, i requires i >= 0 => 2 + i % (MAX_CARD - 1)) }

  function Suit(ranks: nat): (s: seq<Card>)
    ensures |s| == ranks && forall i | 0 <= i < ranks :: s[i] == 2 + i
  {
    seq(ranks, i requires i >= 0 => 2 + i)
  }

  lemma {:induction false} SuitHasOneOfEach(r: Card, ranks: nat)
    ensures Count(Suit(ranks), r) == if 2 <= r < 2 + ranks then 1 else 0
  {
    if ranks > 0 {
      assert Suit(ranks) == Suit(ranks - 1) + [1 + ranks];
      CountAppend(Suit(ranks - 1), [1 + ranks], r);
      SuitHasOneOfEach(r, ranks - 1);
    }
  }

  function Half(): (s: seq<Card>)
    ensures |s| == DECK_SIZE / 2
  {
    Suit(MAX_CARD - 1) + Suit(MAX_CARD - 1)
  }

  lemma TwoEqualHalves()
    ensures MakeDeck() == Half() + Half()
  {
  }

  /** The deck is four cards of every rank from 2 to the ace, and nothing else. */
  lemma DeckHasFourOfEach(r: Card)
    ensures Count(MakeDeck(), r) == if 2 <= r <= MAX_CARD then 4 else 0
  {
    TwoEqualHalves();
    hide Suit, MakeDeck, Count;
    CountAppend(Suit(MAX_CARD - 1), Suit(MAX_CARD - 1), r);
    CountAppend(Half(), Half(), r);
    SuitHasOneOfEach(r, MAX_CARD - 1);
  }

  // ----- many games

  /** The two seats dealt from a shuffled deck. */
  function DealGame(s1: Strategy, s2: Strategy, f: Shuffler, k: nat, j: nat): Game {
    var deck := f(k, MakeDeck());
    Fresh(Seat(s1, deck[..DECK_SIZE / 2], []), Seat(s2, deck[DECK_SIZE / 2..], []), k + 1, j)
  }

  function Match(s1: Strategy, s2: Strategy, f: Shuffler, coin: Coins, k: nat, j: nat): Ending {
    Run(DealGame(s1, s2, f, k, j), f, coin, MAX_ROUNDS)
  }

  /** The endings of `n` games played one after the other. */
  function Season(s1: Strategy, s2: Strategy, f: Shuffler, coin: Coins, k: nat, j: nat, n: nat): (es: seq<Ending>)
    ensures |es| == n
  {
    if n == 0 then []
    else
      var before := Season(s1, s2, f, coin, k, j, n - 1);
      var (k', j') := DrawsAfter(before, k, j);
      before + [Match(s1, s2, f, coin, k', j')]
  }

  function DrawsAfter(es: seq<Ending>, k: nat, j: nat): (nat, nat) {
    if es == [] then (k, j) else (es[|es| - 1].game.shuffles, es[|es| - 1].game.flips)
  }

  function Wins(es: seq<Ending>, w: Winner): nat {
    if es == [] then 0
    else Wins(es[..|es| - 1], w) + if es[|es| - 1].winner == w then 1 else 0
  }

  function TotalHands(es: seq<Ending>): nat {
    if es == [] then 0 else TotalHands(es[..|es| - 1]) + es[|es| - 1].game.hands
  }

  function AllLost1(es: seq<Ending>): seq<Card> {
    if es == [] then [] else AllLost1(es[..|es| - 1]) + es[|es| - 1].game.lost1
  }

  function AllLost2(es: seq<Ending>): seq<Card> {
    if es == [] then [] else AllLost2(es[..|es| - 1]) + es[|es| - 1].game.lost2
  }

  /** Every game is counted once, as a win of one side or as a tie. */
  lemma {:induction false} EveryGameIsCounted(es: seq<Ending>)
    ensures Wins(es, One) + Wins(es, Two) + Wins(es, None) == |es|
  {
    if es != [] {
      EveryGameIsCounted(es[..|es| - 1]);
    }
  }

  /** Every card is a playing card, 2 up to the ace at 14. */
  ghost predicate Legal(s: seq<Card>) {
    forall r: Card :: Count(s, r) > 0 ==> 2 <= r <= MAX_CARD
  }

  lemma {:induction false} SumBounds(s: seq<Card>)
    requires Legal(s)
    ensures 2 * |s| <= Sum(s) <= MAX_CARD * |s|
  {
    if s != [] {
      assert Count(s, s[0]) > 0;
      assert forall r: Card :: Count(s, r) >= Count(s[1..], r);
      SumBounds(s[1..]);
    }
  }

  lemma DealIsFair(s1: Strategy, s2: Strategy, f: Shuffler, k: nat, j: nat, r: Card)
    ensures var g := DealGame(s1, s2, f, k, j);
            && g.a.NCards() == g.b.NCards() == DECK_SIZE / 2
            && g.Copies(r) == Count(MakeDeck(), r)
  {
    var deck := f(k, MakeDeck());
    assert deck == deck[..DECK_SIZE / 2] + deck[DECK_SIZE / 2..];
    CountAppend(deck[..DECK_SIZE / 2], deck[DECK_SIZE / 2..], r);
  }

  /** A shuffle can leave a new deck as it is, and then both players are dealt the
      same cards in the same order. */
  lemma UnshuffledDeal(s1: Strategy, s2: Strategy, f: Shuffler, k: nat, j: nat)
    requires f(k, MakeDeck()) == MakeDeck()
    ensures var g := DealGame(s1, s2, f, k, j);
            g.a.hand == g.b.hand && |g.a.hand| == DECK_SIZE / 2
  {
    hide MakeDeck, Half;
    TwoEqualHalves();
    var half := Half();
    assert (half + half)[..DECK_SIZE / 2] == half && (half + half)[DECK_SIZE / 2..] == half;
  }

  /** Players who only combine then tie through all seven possible wars of the first
      round, and player two wins the game: the players differ in nothing but their
      seat, and the round takes the eight hands it can take at most. */
  lemma TwinsGame(f: Shuffler, coin: Coins, k: nat, j: nat)
    requires f(k, MakeDeck()) == MakeDeck()
    ensures var g := DealGame(CombineOnly, CombineOnly, f, k, j);
            var e := Match(CombineOnly, CombineOnly, f, coin, k, j);
            g.a == g.b && e.winner == Two && e.rounds == 1 && e.game.hands == 8
  {
    hide Run, MakeDeck, Play;
    var g := DealGame(CombineOnly, CombineOnly, f, k, j);
    UnshuffledDeal(CombineOnly, CombineOnly, f, k, j);
    var c, s := g.a.hand[0], WithoutTop(g.a);
    assert Round(g, f, coin) == Record(g, Play(c, c, s, s, f, k + 1, coin, j));
    TwinsTie(c, s, s, f, k + 1);
    TiedHand(c, s, f, k + 1, coin, j);
    hide Round;
    RunUnfolds(g, f, coin, MAX_ROUNDS);
    RunStops(Round(g, f, coin), f, coin, MAX_ROUNDS - 1);
  }

  lemma TiedHand(c: Card, s: Seat, f: Shuffler, k: nat, coin: Coins, j: nat)
    requires Twins(s, s) && s.NCards() == 25
    ensures var o := Play(c, c, s, s, f, k, coin, j);
            o.a.NCards() == 0 && o.hands == 8
  {
    hide Descend, Payout;
    TwinsTie(c, s, s, f, k);
  }

  lemma SomeGameIsDecidedBySeats()
    ensures exists f: Shuffler ::
              var g := DealGame(CombineOnly, CombineOnly, f, 0, 0);
              g.a == g.b && forall coin: Coins ::
                var e := Match(CombineOnly, CombineOnly, f, coin, 0, 0);
                e.winner == Two && e.rounds == 1 && e.game.hands == 8
  {
    hide Run, DealGame, MakeDeck;
    var f: Shuffler := (k: nat, s: seq<Card>) => s;
    assert f(0, MakeDeck()) == MakeDeck();
    TwinsGame(f, (j: nat) => false, 0, 0);
    forall coin: Coins
      ensures var e := Match(CombineOnly, CombineOnly, f, coin, 0, 0);
              e.winner == Two && e.rounds == 1 && e.game.hands == 8
    {
      TwinsGame(f, coin, 0, 0);
    }
  }

  /** The deck is whole after a game, all of it with the winner if there is one;
      a game takes between one and eight hands a round, and records only playing
      cards as lost, at most three a war. */
  ghost predicate Accounted(e: Ending) {
    && (forall r: Card :: e.game.Copies(r) == Count(MakeDeck(), r))
    && (e.winner == One ==> forall r: Card :: e.game.a.Copies(r) == Count(MakeDeck(), r))
    && (e.winner == Two ==> forall r: Card :: e.game.b.Copies(r) == Count(MakeDeck(), r))
    && e.rounds <= e.game.hands <= 8 * e.rounds
    && |e.game.lost1| + |e.game.lost2| <= 3 * (e.game.hands - e.rounds)
    && Legal(e.game.lost1) && Legal(e.game.lost2)
  }

  lemma SeasonExtends(s1: Strategy, s2: Strategy, f: Shuffler, coin: Coins, k: nat, j: nat, n: nat)
    ensures var es := Season(s1, s2, f, coin, k, j, n);
            var (k', j') := DrawsAfter(es, k, j);
            var e := Match(s1, s2, f, coin, k', j');
            var longer := Season(s1, s2, f, coin, k, j, n + 1);
            longer == es + [e] && DrawsAfter(longer, k, j) == (e.game.shuffles, e.game.flips)
  {
    hide Match;
  }

  ghost predicate AllAccounted(es: seq<Ending>) {
    forall i | 0 <= i < |es| :: Accounted(es[i])
  }

  lemma AccountedAppend(es: seq<Ending>, e: Ending)
    requires AllAccounted(es) && Accounted(e)
    ensures AllAccounted(es + [e])
  {
    hide Accounted;
  }

  /** The season's games so far are accounted for. */
  ghost predicate SeasonAccounted(s1: Strategy, s2: Strategy, f: Shuffler, coin: Coins, k: nat, j: nat, n: nat) {
    AllAccounted(Season(s1, s2, f, coin, k, j, n))
  }

  lemma OneMoreGame(s1: Strategy, s2: Strategy, f: Shuffler, coin: Coins, k: nat, j: nat, n: nat)
    requires SeasonAccounted(s1, s2, f, coin, k, j, n)
    ensures SeasonAccounted(s1, s2, f, coin, k, j, n + 1)
  {
    hide Match, DrawsAfter, AllAccounted, Accounted;
    var es := Season(s1, s2, f, coin, k, j, n);
    var draws := DrawsAfter(es, k, j);
    SeasonExtends(s1, s2, f, coin, k, j, n);
    MatchLaws(s1, s2, f, coin, draws.0, draws.1);
    AccountedAppend(es, Match(s1, s2, f, coin, draws.0, draws.1));
  }

  /** Over any number of games of any two strategies, every game is accounted for. */
  lemma {:induction false} SeasonLaws(s1: Strategy, s2: Strategy, f: Shuffler, coin: Coins, k: nat, j: nat, n: nat)
    ensures SeasonAccounted(s1, s2, f, coin, k, j, n)
  {
    if n > 0 {
      hide SeasonAccounted;
      SeasonLaws(s1, s2, f, coin, k, j, n - 1);
      OneMoreGame(s1, s2, f, coin, k, j, n - 1);
    }
  }

  lemma MatchLaws(s1: Strategy, s2: Strategy, f: Shuffler, coin: Coins, k: nat, j: nat)
    ensures Accounted(Match(s1, s2, f, coin, k, j))
  {
    hide Run, MakeDeck, Seat.Copies, Seat.NCards, Count;
    var g := DealGame(s1, s2, f, k, j);
    var e := Match(s1, s2, f, coin, k, j);
    forall r: Card
      ensures e.game.Copies(r) == Count(MakeDeck(), r)
      ensures e.winner == One ==> e.game.a.Copies(r) == Count(MakeDeck(), r)
      ensures e.winner == Two ==> e.game.b.Copies(r) == Count(MakeDeck(), r)
      ensures Count(e.game.lost1, r) > 0 ==> 2 <= r <= MAX_CARD
      ensures Count(e.game.lost2, r) > 0 ==> 2 <= r <= MAX_CARD
    {
      DealIsFair(s1, s2, f, k, j, r);
      DeckHasFourOfEach(r);
      NothingLost(r);
      GameConservesCards(g, f, coin, MAX_ROUNDS, r);
      WinnerHoldsTheDeck(g, f, coin, MAX_ROUNDS, r);
      LostCardsWereInPlay(g, f, coin, MAX_ROUNDS, r);
    }
    DealIsFair(s1, s2, f, k, j, 0);
    HandsPerRound(g, f, coin, MAX_ROUNDS);
    LossesPerWar(g, f, coin, MAX_ROUNDS);
  }

  lemma NothingLost(r: Card)
    ensures Count([], r) == 0
  {
  }

  lemma {:induction false} SeasonLosses(es: seq<Ending>)
    requires AllAccounted(es)
    ensures Legal(AllLost1(es)) && Legal(AllLost2(es))
  {
    if es != [] {
      hide Legal;
      var before, e := es[..|es| - 1], es[|es| - 1];
      assert Accounted(e) && AllAccounted(before);
      SeasonLosses(before);
      LegalAppend(AllLost1(before), e.game.lost1);
      LegalAppend(AllLost2(before), e.game.lost2);
    }
  }

  lemma SeasonIsLegal(s1: Strategy, s2: Strategy, f: Shuffler, coin: Coins, k: nat, j: nat, n: nat)
    ensures var es := Season(s1, s2, f, coin, k, j, n);
            Legal(AllLost1(es)) && Legal(AllLost2(es))
  {
    hide Match, AllAccounted, Legal;
    SeasonLaws(s1, s2, f, coin, k, j, n);
    SeasonLosses(Season(s1, s2, f, coin, k, j, n));
  }

  lemma LegalAppend(s: seq<Card>, t: seq<Card>)
    requires Legal(s) && Legal(t)
    ensures Legal(s + t)
  {
    forall r: Card
      ensures Count(s + t, r) == Count(s, r) + Count(t, r)
    {
      CountAppend(s, t, r);
    }
  }
}
