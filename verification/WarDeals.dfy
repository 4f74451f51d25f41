/** Which deals of the real deck settle the game, whatever the strategies, the later
    shuffles and the coins. */
module WarDeals {
  import opened CardTable
  import opened WarHands
  import opened WarGames
  import opened WarSteering
  import opened WarSweep
  import opened WarTricks
  import opened WarOpenDeals
  import WarLastRound
  import WarSimulator

  // ----- after a pass that leaves one player's cards above the other's

  /** All cards in `ts` beat all cards in `us`. */
  ghost predicate HighAbove(ts: seq<Trick>, us: seq<Trick>) {
    forall t, u | t in ts && u in us :: t.low > u.high
  }

  /** And there are enough of them: true in particular when `us` is empty. */
  ghost predicate Commands(ts: seq<Trick>, us: seq<Trick>) { |ts| >= |us| && HighAbove(ts, us) }

  /** Both hands are empty, and the players hold these tricks. */
  ghost predicate BothDry(g: Game, ts: seq<Trick>, us: seq<Trick>) {
    && g.a.hand == [] && g.b.hand == []
    && g.a.NCards() == 2 * |ts| && g.b.NCards() == 2 * |us|
    && forall r: Card :: g.a.Copies(r) == Copies(ts, r) && g.b.Copies(r) == Copies(us, r)
  }

  /** Every strategy combines when the hand is empty. */
  lemma DrySeat(s: Seat, f: Shuffler, k: nat, r: Card)
    requires s.hand == [] && s.pile != []
    ensures var (s', k') := ApplyStrategy(s, 1, f, k);
            s'.pile == [] && |s'.hand| == s.NCards() && Count(s'.hand, r) == s.Copies(r)
  {
    hide Enriched;
    StrategyKeepsCards(s, 1, f, k, r);
    NothingLost(r);
  }

  lemma DryDecision(g: Game, f: Shuffler, r: Card)
    requires g.a.hand == [] && g.a.pile != [] && g.b.hand == [] && g.b.pile != []
    ensures var (a, b, k) := Decide(g.a, g.b, 1, f, g.shuffles);
            && a.pile == [] && |a.hand| == g.a.NCards() && Count(a.hand, r) == g.a.Copies(r)
            && b.pile == [] && |b.hand| == g.b.NCards() && Count(b.hand, r) == g.b.Copies(r)
  {
    DrySeat(g.a, f, g.shuffles, r);
    DrySeat(g.b, f, ApplyStrategy(g.a, 1, f, g.shuffles).1, r);
    hide ApplyStrategy, Count;
  }

  lemma {:induction false} CardIsCounted(s: seq<Card>, i: nat)
    requires i < |s|
    ensures Count(s, s[i]) > 0
  {
    if i > 0 {
      CardIsCounted(s[1..], i - 1);
    }
  }

  lemma {:induction false} CardOfATrick(ts: seq<Trick>, r: Card) returns (t: Trick)
    requires Copies(ts, r) > 0
    ensures t in ts && (r == t.high || r == t.low)
  {
    CountSwapped(ts[0].high, ts[0].low, Cards(ts[1..]), r);
    if Copies(ts[1..], r) > 0 {
      t := CardOfATrick(ts[1..], r);
    } else {
      t := ts[0];
    }
  }

  /** A hand made of the cards of `ts` beats one made of those of `us` card by card. */
  lemma CommandDominates(x: seq<Card>, y: seq<Card>, ts: seq<Trick>, us: seq<Trick>)
    requires Strict(ts) && Strict(us) && Commands(ts, us) && |x| == 2 * |ts| && |y| == 2 * |us|
    requires forall r: Card :: Count(x, r) == Copies(ts, r) && Count(y, r) == Copies(us, r)
    ensures Dominates(x, y)
  {
    hide Count, Copies;
    forall i | 0 <= i < |y|
      ensures x[i] > y[i]
    {
      CardIsCounted(x, i);
      CardIsCounted(y, i);
      var t := CardOfATrick(ts, x[i]);
      var u := CardOfATrick(us, y[i]);
    }
  }

  /** The game once that decision is made, before the next round. */
  function Decided(g: Game, f: Shuffler): Game {
    var (a, b, k) := Decide(g.a, g.b, 1, f, g.shuffles);
    g.(a := a, b := b, shuffles := k)
  }

  lemma DecidedAhead(g: Game, f: Shuffler, coin: Coins, allowance: nat)
    requires g.a.NCards() > 0 && g.b.NCards() > 0 && allowance > 0
    ensures Run(g, f, coin, allowance) == Run(Decided(g, f), f, coin, allowance)
  {
    var h := Decided(g, f);
    DecideKeepsCards(g.a, g.b, 1, f, g.shuffles, 0);
    assert Decide(h.a, h.b, 1, f, h.shuffles) == Decide(g.a, g.b, 1, f, g.shuffles);
    hide Run, Round, Decide;
    SameDecision(g, h, f, coin);
    RunUnfolds(g, f, coin, allowance);
    RunUnfolds(h, f, coin, allowance);
  }

  lemma DryHands(g: Game, f: Shuffler, ts: seq<Trick>, us: seq<Trick>)
    requires BothDry(g, ts, us) && ts != [] && us != []
    ensures var h := Decided(g, f);
            && h.a.pile == [] && h.b.pile == [] && |h.a.hand| == 2 * |ts| && |h.b.hand| == 2 * |us|
            && forall r: Card :: Count(h.a.hand, r) == Copies(ts, r) && Count(h.b.hand, r) == Copies(us, r)
  {
    hide Decide, Copies, Count;
    forall r: Card
      ensures var h := Decided(g, f);
              && h.a.pile == [] && h.b.pile == [] && |h.a.hand| == 2 * |ts| && |h.b.hand| == 2 * |us|
              && Count(h.a.hand, r) == Copies(ts, r) && Count(h.b.hand, r) == Copies(us, r)
    {
      DryDecision(g, f, r);
    }
    assert Count(Decided(g, f).a.hand, 0) == Copies(ts, 0);
  }

  /** Then the next pass is a sweep. */
  lemma CommandWins(g: Game, f: Shuffler, coin: Coins, ts: seq<Trick>, us: seq<Trick>, allowance: nat)
    requires Strict(ts) && Strict(us) && BothDry(g, ts, us) && |ts| + |us| > 0 && allowance > 2 * Min(|ts|, |us|)
    ensures Commands(ts, us) ==> Run(g, f, coin, allowance).winner == One
    ensures Commands(us, ts) ==> Run(g, f, coin, allowance).winner == Two
  {
    hide Run, Strict, HighAbove, Decided, Copies, Count;
    if us == [] || ts == [] {
      RunStops(g, f, coin, allowance);
    } else {
      DryHands(g, f, ts, us);
      DecidedAhead(g, f, coin, allowance);
      var h := Decided(g, f);
      if Commands(ts, us) {
        CommandDominates(h.a.hand, h.b.hand, ts, us);
        DominatingSweeps(h.a.hand, h.b.hand, false, Any);
        SweptByOne(h, f, coin, allowance, Any, 2 * |us|);
      }
      if Commands(us, ts) {
        CommandDominates(h.b.hand, h.a.hand, us, ts);
        DominatingSweeps(h.b.hand, h.a.hand, true, Any);
        SweptByTwo(h, f, coin, allowance, Any, 2 * |ts|);
      }
    }
  }

  // ----- deals without a tie in the first pass

  const HALF: nat := DECK_SIZE / 2

  /** The first pass of a dealt game. */
  lemma FirstPass(g: Game, f: Shuffler, coin: Coins)
    requires |g.a.hand| == |g.b.hand| == HALF && g.a.pile == [] && g.b.pile == []
    requires NoTies(g.a.hand, g.b.hand)
    ensures var e := Run(g, f, coin, HALF);
            && e.winner == None && e.game.shuffles == g.shuffles
            && e.game.a.strategy == g.a.strategy && e.game.b.strategy == g.b.strategy
            && BothDry(e.game, Won(g.a.hand, g.b.hand), Won(g.b.hand, g.a.hand))
  {
    hide Run, Won, Copies, NoTies;
    var ts, us := Won(g.a.hand, g.b.hand), Won(g.b.hand, g.a.hand);
    var h := Run(g, f, coin, HALF).game;
    forall r: Card
      ensures h.a.Copies(r) == Copies(ts, r) && h.b.Copies(r) == Copies(us, r)
    {
      Pass(g, f, coin, r);
      NothingLost(r);
    }
    Pass(g, f, coin, 0);
  }

  function Hand1(deck: seq<Card>): seq<Card>
    requires |deck| == DECK_SIZE
  {
    deck[..HALF]
  }

  function Hand2(deck: seq<Card>): seq<Card>
    requires |deck| == DECK_SIZE
  {
    deck[HALF..]
  }

  /** What the players win in the first pass of a deal. */
  function Tricks1(deck: seq<Card>): (ts: seq<Trick>)
    requires |deck| == DECK_SIZE
    ensures Strict(ts)
  {
    Won(Hand1(deck), Hand2(deck))
  }

  function Tricks2(deck: seq<Card>): (ts: seq<Trick>)
    requires |deck| == DECK_SIZE
    ensures Strict(ts)
  {
    Won(Hand2(deck), Hand1(deck))
  }

  /** A deck with no tie in the first pass. */
  ghost predicate TieFree(deck: seq<Card>) {
    |deck| == DECK_SIZE && NoTies(Hand1(deck), Hand2(deck))
  }

  /** The deck decides: one player wins so much in the first pass that the second ends
      the game. */
  ghost predicate Settled(deck: seq<Card>)
    requires |deck| == DECK_SIZE
  {
    Commands(Tricks1(deck), Tricks2(deck)) || Commands(Tricks2(deck), Tricks1(deck))
  }

  lemma TricksOfTheDeal(deck: seq<Card>)
    requires TieFree(deck)
    ensures |Tricks1(deck)| + |Tricks2(deck)| == HALF
  {
    EveryRoundIsWon(Hand1(deck), Hand2(deck));
  }

  lemma DealtHands(s1: Strategy, s2: Strategy, f: Shuffler)
    ensures var g := DealGame(s1, s2, f, 0, 0);
            var deck := f(0, MakeDeck());
            && |deck| == DECK_SIZE && g.a == Seat(s1, Hand1(deck), []) && g.b == Seat(s2, Hand2(deck), [])
            && g.shuffles == 1
  {
    DealIsFair(s1, s2, f, 0, 0, 0);
  }

  /** Such a game is won by the player whose tricks beat the other's, within 52 rounds. */
  lemma SettledDeal(s1: Strategy, s2: Strategy, f: Shuffler, coin: Coins, allowance: nat)
    requires TieFree(f(0, MakeDeck())) && Settled(f(0, MakeDeck())) && allowance > DECK_SIZE
    ensures var e := Run(DealGame(s1, s2, f, 0, 0), f, coin, allowance);
            var ts, us := Tricks1(f(0, MakeDeck())), Tricks2(f(0, MakeDeck()));
            e.winner == if Commands(ts, us) then One else Two
  {
    hide Run, DealGame, MakeDeck, Won, Strict, HighAbove, NoTies, BothDry;
    var deck, g := f(0, MakeDeck()), DealGame(s1, s2, f, 0, 0);
    DealtHands(s1, s2, f);
    TricksOfTheDeal(deck);
    FirstPass(g, f, coin);
    var h := Run(g, f, coin, HALF).game;
    CommandWins(h, f, coin, Tricks1(deck), Tricks2(deck), allowance - HALF);
    LongerGames(g, f, coin, HALF, allowance - HALF);
  }

  // ----- and all others go on

  /** The orders to hand out: the deck, and then the passes of the plan. */
  function Orders(deck: seq<Card>, p: nat -> Table): nat -> seq<Card> {
    (k: nat) =>
      if k == 0 then deck
      else if k % 2 == 1 then Cards(p(k / 2).ts)
      else Answer(p(k / 2 - 1).ts, p(k / 2 - 1).us)
  }

  lemma OrdersGuide(deck: seq<Card>, p: nat -> Table, f: Shuffler)
    requires SameCards(MakeDeck(), deck)
    requires forall k: nat, s: seq<Card> :: f(k, s) == Steer(Orders(deck, p)(k), s)
    ensures f(0, MakeDeck()) == deck && Guided(f, p)
  {
    hide Steer, SameCards, MakeDeck, Cards, Answer;
    Steering(deck, MakeDeck());
    forall i: nat
      ensures GuidedAt(f, p, i)
    {
      assert Orders(deck, p)(2 * i + 1) == Cards(p(i).ts) by { assert (2 * i + 1) / 2 == i; }
      assert Orders(deck, p)(2 * i + 2) == Answer(p(i).ts, p(i).us) by { assert (2 * i + 2) / 2 - 1 == i; }
      forall s: seq<Card>
        ensures SameCards(s, Cards(p(i).ts)) ==> f(2 * i + 1, s) == Cards(p(i).ts)
        ensures SameCards(s, Answer(p(i).ts, p(i).us)) ==> f(2 * i + 2, s) == Answer(p(i).ts, p(i).us)
      {
        if SameCards(s, Cards(p(i).ts)) {
          Steering(Cards(p(i).ts), s);
        }
        if SameCards(s, Answer(p(i).ts, p(i).us)) {
          Steering(Answer(p(i).ts, p(i).us), s);
        }
      }
    }
  }

  /** After the first pass a game that is not settled can follow a plan. */
  lemma PlannedGame(f: Shuffler, p: nat -> Table, allowance: nat)
    requires var deck := f(0, MakeDeck());
             && TieFree(deck) && SameTables(Table(Tricks1(deck), Tricks2(deck)), p(0))
    requires Endless(p) && Guided(f, p)
    ensures Undecided(Run(DealGame(AlwaysShuffle, AlwaysShuffle, f, 0, 0), f, NO_SWAP, allowance))
  {
    hide Run, DealGame, MakeDeck, Won, Strict, NoTies, Copies, Endless, Guided, SameTables;
    var deck, g := f(0, MakeDeck()), DealGame(AlwaysShuffle, AlwaysShuffle, f, 0, 0);
    DealtHands(AlwaysShuffle, AlwaysShuffle, f);
    FirstPass(g, f, NO_SWAP);
    var h := Run(g, f, NO_SWAP, HALF).game;
    DryHolds(h, Table(Tricks1(deck), Tricks2(deck)));
    HoldingOther(h, Table(Tricks1(deck), Tricks2(deck)), p(0));
    PlanGoesOn(h, f, p, 0, allowance);
    StillUndecided(g, f, NO_SWAP, HALF, allowance);
    UndecidedBefore(g, f, NO_SWAP, allowance, HALF);
  }

  lemma DryHolds(g: Game, t: Table)
    requires BothDry(g, t.ts, t.us) && g.a.strategy == g.b.strategy == AlwaysShuffle
    ensures Holding(g, t)
  {
  }

  /** The same with a rank that the players may have in common, the lowest of one and
      the highest of the other. */
  ghost predicate NearlySettled(deck: seq<Card>)
    requires |deck| == DECK_SIZE
  {
    Towers(Tricks1(deck), Tricks2(deck)) || Towers(Tricks2(deck), Tricks1(deck))
  }

  /** A shuffler that deals the deck and then keeps the game open. */
  lemma OpenDeal(deck: seq<Card>) returns (f: Shuffler)
    requires SameCards(MakeDeck(), deck) && TieFree(deck) && !NearlySettled(deck)
    ensures f(0, MakeDeck()) == deck
    ensures forall n: nat :: Undecided(Run(DealGame(AlwaysShuffle, AlwaysShuffle, f, 0, 0), f, NO_SWAP, n))
  {
    hide Run, DealGame, MakeDeck, Won, NoTies, Copies, Endless, Guided, SameTables, Orders, Steer, SameCards;
    var ts, us := Tricks1(deck), Tricks2(deck);
    assert ts != [] && us != [];
    assert Strict(ts) && Strict(us);
    var p := PlanFor(ts, us);
    f := Steered(Orders(deck, p));
    OrdersGuide(deck, p, f);
    forall n: nat
      ensures Undecided(Run(DealGame(AlwaysShuffle, AlwaysShuffle, f, 0, 0), f, NO_SWAP, n))
    {
      PlannedGame(f, p, n);
    }
  }

  /** Every game dealt that way has a winner. */
  ghost predicate AlwaysWon(deck: seq<Card>) {
    forall s1: Strategy, s2: Strategy, f: Shuffler, coin: Coins ::
      f(0, MakeDeck()) == deck ==> Match(s1, s2, f, coin, 0, 0).winner != None
  }

  /** For deals without a tie in the first pass, the cards dealt say whether every game
      has a winner: if one player's tricks from that pass all beat the other's and are
      no fewer, and only then but for a rank in common. */
  lemma DealSettlesExactly(deck: seq<Card>)
    requires SameCards(MakeDeck(), deck) && TieFree(deck)
    ensures Settled(deck) ==> AlwaysWon(deck)
    ensures AlwaysWon(deck) ==> NearlySettled(deck)
    ensures (NearlySettled(deck) ==> Settled(deck)) ==> (AlwaysWon(deck) <==> Settled(deck))
  {
    assert |deck| == DECK_SIZE;
    hide Run, DealGame, MakeDeck, TieFree, NearlySettled, Settled, SameCards;
    if Settled(deck) {
      forall s1: Strategy, s2: Strategy, f: Shuffler, coin: Coins | f(0, MakeDeck()) == deck
        ensures Match(s1, s2, f, coin, 0, 0).winner != None
      {
        SettledDeal(s1, s2, f, coin, MAX_ROUNDS);
      }
    }
    if !NearlySettled(deck) {
      var f := OpenDeal(deck);
      assert Undecided(Run(DealGame(AlwaysShuffle, AlwaysShuffle, f, 0, 0), f, NO_SWAP, MAX_ROUNDS));
      assert Match(AlwaysShuffle, AlwaysShuffle, f, NO_SWAP, 0, 0).winner == None;
    }
  }

  // ----- a deal that settles

  /** 2 2 2 2 3 3 3 3 ..., up to two eights for 26 cards. */
  function Bottom(n: nat): (s: seq<Card>)
    ensures |s| == n && forall i | 0 <= i < n :: s[i] == 2 + i / 4
  {
    seq(n, i requires i >= 0 => 2 + i / 4)
  }

  lemma {:induction false} BottomCount(m: nat, r: Card)
    ensures Count(Bottom(4 * m), r) == if 2 <= r < 2 + m then 4 else 0
  {
    if m == 0 {
      assert Bottom(0) == [];
    } else {
      var c := 1 + m;
      assert Bottom(4 * m) == Bottom(4 * (m - 1)) + [c, c] + [c, c];
      CountAppend3(Bottom(4 * (m - 1)), [c, c], [c, c], r);
      CountTrick(Trick(c, c), r);
      BottomCount(m - 1, r);
    }
  }

  /** The better half of the deck, and the other. */
  function Split(): (deck: seq<Card>)
    ensures |deck| == DECK_SIZE
  {
    WarLastRound.Top(HALF) + Bottom(HALF)
  }

  lemma SplitIsADeck()
    ensures SameCards(MakeDeck(), Split())
  {
    hide MakeDeck, Count;
    forall r: Card
      ensures Count(MakeDeck(), r) == Count(Split(), r)
    {
      DeckHasFourOfEach(r);
      WarLastRound.TopCount(6, r);
      BottomCount(6, r);
      assert Bottom(HALF) == Bottom(24) + [8, 8];
      CountAppend(Bottom(24), [8, 8], r);
      CountTrick(Trick(8, 8), r);
      CountAppend(WarLastRound.Top(HALF), Bottom(HALF), r);
    }
  }

  ghost predicate WonByOne(f: Shuffler) {
    forall s1: Strategy, s2: Strategy, coin: Coins :: Match(s1, s2, f, coin, 0, 0).winner == One
  }

  /** Some deals leave nothing to the strategies, the later shuffles and the coins. */
  lemma SomeDealIsSwept()
    ensures exists f: Shuffler :: WonByOne(f)
  {
    hide Match, MakeDeck, Steer, Split;
    var f := Steered((k: nat) => Split());
    SplitIsADeck();
    Steering(Split(), MakeDeck());
    forall s1: Strategy, s2: Strategy, coin: Coins
      ensures Match(s1, s2, f, coin, 0, 0).winner == One
    {
      SplitIsSwept(s1, s2, f, coin, 0, 0);
    }
    assert WonByOne(f);
  }

  /** A shuffler that deals the split deck to every game. */
  ghost predicate DealsSplit(f: Shuffler) { forall k: nat :: f(k, MakeDeck()) == Split() }

  ghost predicate AllWon(es: seq<Ending>) {
    Wins(es, One) == |es| && Wins(es, Two) == 0 && Wins(es, None) == 0
  }

  lemma ResultsOfWins(s1: nat, s2: nat, es: seq<Ending>)
    requires AllWon(es) && |es| < 0x1_0000_0000
    ensures var r := WarSimulator.Tally(s1, s2, es);
            r.p1 == |es| && r.p2 == 0 && r.tie == 0 && r.ngames == |es|
  {
  }

  /** All games of the season were won by player one. */
  ghost predicate AllWonByOne(s1: Strategy, s2: Strategy, f: Shuffler, coin: Coins, k: nat, j: nat, n: nat) {
    AllWon(Season(s1, s2, f, coin, k, j, n))
  }

  lemma OneMoreWin(s1: Strategy, s2: Strategy, f: Shuffler, coin: Coins, k: nat, j: nat, n: nat)
    requires DealsSplit(f) && AllWonByOne(s1, s2, f, coin, k, j, n)
    ensures AllWonByOne(s1, s2, f, coin, k, j, n + 1)
  {
    hide Match, DrawsAfter, MakeDeck, Split;
    var es := Season(s1, s2, f, coin, k, j, n);
    var draws := DrawsAfter(es, k, j);
    SeasonExtends(s1, s2, f, coin, k, j, n);
    SplitIsSwept(s1, s2, f, coin, draws.0, draws.1);
    WarSimulator.WinsExtend(es, Match(s1, s2, f, coin, draws.0, draws.1));
  }

  /** Such a season is player one's, game by game. */
  lemma {:induction false} SweptSeason(s1: Strategy, s2: Strategy, f: Shuffler, coin: Coins, k: nat, j: nat, n: nat)
    requires DealsSplit(f)
    ensures AllWonByOne(s1, s2, f, coin, k, j, n)
  {
    if n > 0 {
      hide AllWonByOne, DealsSplit;
      SweptSeason(s1, s2, f, coin, k, j, n - 1);
      OneMoreWin(s1, s2, f, coin, k, j, n - 1);
    }
  }

  lemma SplitIsSwept(s1: Strategy, s2: Strategy, f: Shuffler, coin: Coins, k: nat, j: nat)
    requires f(k, MakeDeck()) == Split()
    ensures Match(s1, s2, f, coin, k, j).winner == One
  {
    hide Match, MakeDeck, Sweeps;
    var x, y := WarLastRound.Top(HALF), Bottom(HALF);
    assert Split()[..HALF] == x && Split()[HALF..] == y;
    DominatingSweeps(x, y, false, DealtTerms(s1, s2));
    SweptDeal(s1, s2, f, coin, k, j);
  }

  lemma SweptResults(s1: nat, s2: nat, f: Shuffler, coin: Coins, k: nat, j: nat, n: nat)
    requires s1 < |STRATEGIES| && s2 < |STRATEGIES| && DealsSplit(f) && n < 0x1_0000_0000
    ensures var r := WarSimulator.Tally(s1, s2, Season(STRATEGIES[s1], STRATEGIES[s2], f, coin, k, j, n));
            r.p1 == n && r.p2 == 0 && r.tie == 0 && r.ngames == n
  {
    hide AllWon, WarSimulator.Tally, DrawsAfter, Match, MakeDeck, Split;
    SweptSeason(STRATEGIES[s1], STRATEGIES[s2], f, coin, k, j, n);
    ResultsOfWins(s1, s2, Season(STRATEGIES[s1], STRATEGIES[s2], f, coin, k, j, n));
  }
}
