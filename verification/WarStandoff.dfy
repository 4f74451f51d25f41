/** A game of war need not end: a deal of the real deck, and shuffles and coins,
    for which two players go on for any number of rounds, whatever their strategies. */
module WarStandoff {
  import opened CardTable
  import opened WarHands
  import opened WarGames
  import opened WarSteering

  /** Cards to be played two rounds at a time: player one wins the first round of
      each pair, player two the second, and their winnings are again such pairs. */
  predicate Alternating(h: seq<Card>, k: seq<Card>) {
    && |h| == |k|
    && (h == [] ||
        (|h| >= 2 && h[0] > k[0] && h[0] > h[1] && k[1] > h[1] && k[1] > k[0] && Alternating(h[2..], k[2..])))
  }

  lemma {:induction false} AlternatingAppend(h: seq<Card>, k: seq<Card>, h': seq<Card>, k': seq<Card>)
    requires Alternating(h, k) && Alternating(h', k')
    ensures Alternating(h + h', k + k')
  {
    if h == [] {
      assert h + h' == h' && k + k' == k';
    } else {
      AlternatingAppend(h[2..], k[2..], h', k');
      assert (h + h')[2..] == h[2..] + h' && (k + k')[2..] == k[2..] + k';
    }
  }

  /** All shuffles but the first, of the whole deck, leave the cards as they are. */
  ghost predicate LeavesHands(f: Shuffler) {
    forall k: nat, s: seq<Card> :: |s| < DECK_SIZE ==> f(k, s) == s
  }

  /** The player's cards stay in order, for want of shuffles or of effect of theirs. */
  ghost predicate Unmoved(s: Seat, f: Shuffler) {
    s.strategy == CombineOnly || (LeavesHands(f) && s.NCards() < DECK_SIZE)
  }

  ghost predicate Standing(g: Game, f: Shuffler) {
    && Unmoved(g.a, f) && Unmoved(g.b, f)
    && Alternating(g.a.hand, g.b.hand) && Alternating(g.a.pile, g.b.pile)
    && g.a.NCards() > 0
  }

  lemma EmptyHandCombines(s: Seat, f: Shuffler, k: nat)
    requires Unmoved(s, f) && s.hand == [] && s.pile != []
    ensures ApplyStrategy(s, 1, f, k).0 == Seat(s.strategy, s.pile, [])
  {
    hide Enriched;
    assert [] + s.pile == s.pile;
  }

  lemma DecisionOnEmpty(a: Seat, b: Seat, f: Shuffler, k: nat)
    requires Unmoved(a, f) && a.hand == [] && a.pile != []
    requires Unmoved(b, f) && b.hand == [] && b.pile != []
    ensures var (a', b', _) := Decide(a, b, 1, f, k);
            a' == Seat(a.strategy, a.pile, []) && b' == Seat(b.strategy, b.pile, [])
  {
    EmptyHandCombines(a, f, k);
    EmptyHandCombines(b, f, ApplyStrategy(a, 1, f, k).1);
    hide ApplyStrategy, Unmoved;
  }

  lemma FirstDecision(g: Game, f: Shuffler)
    requires Standing(g, f)
    ensures g.b.NCards() > 0
    ensures var (a, b, n) := Decide(g.a, g.b, 1, f, g.shuffles);
            && a.strategy == g.a.strategy && b.strategy == g.b.strategy
            && a.NCards() == g.a.NCards() && b.NCards() == g.b.NCards()
            && Alternating(a.hand, b.hand) && Alternating(a.pile, b.pile) && |a.hand| >= 2
            && a.hand[0] > b.hand[0]
  {
    hide ApplyStrategy;
    if g.a.hand == [] {
      hide Decide;
      DecisionOnEmpty(g.a, g.b, f, g.shuffles);
    }
  }

  /** The first round of a pair. */
  lemma FirstRound(g: Game, f: Shuffler)
    requires Standing(g, f)
    ensures g.b.NCards() > 0
    ensures var (a, b, n) := Decide(g.a, g.b, 1, f, g.shuffles);
            var r := Round(g, f, NO_SWAP);
            && Alternating(a.hand, b.hand) && Alternating(a.pile, b.pile) && |a.hand| >= 2
            && a.NCards() == g.a.NCards() && b.NCards() == g.b.NCards()
            && r.a == Seat(g.a.strategy, a.hand[1..], a.pile + [a.hand[0], b.hand[0]])
            && r.b == Seat(g.b.strategy, b.hand[1..], b.pile)
  {
    var (a, b, n) := Decide(g.a, g.b, 1, f, g.shuffles);
    FirstDecision(g, f);
    RoundDecided(g, f);
    hide Play, Decide;
    PlayAtOnce(a.hand[0], b.hand[0], WithoutTop(a), WithoutTop(b), f, n, NO_SWAP, g.flips);
  }

  lemma RoundDecided(g: Game, f: Shuffler)
    requires g.a.NCards() > 0 && g.b.NCards() > 0
    ensures var (a, b, n) := Decide(g.a, g.b, 1, f, g.shuffles);
            && a.hand != [] && b.hand != []
            && Round(g, f, NO_SWAP)
               == Record(g, Play(a.hand[0], b.hand[0], WithoutTop(a), WithoutTop(b), f, n, NO_SWAP, g.flips))
  {
    DecideKeepsCards(g.a, g.b, 1, f, g.shuffles, 0);
    hide Decide, Play;
  }

  lemma TwoRounds(g: Game, f: Shuffler)
    requires Standing(g, f)
    ensures g.b.NCards() > 0
    ensures var r := Round(g, f, NO_SWAP);
            && r.a.NCards() > 0 && r.b.NCards() > 0
            && Standing(Round(r, f, NO_SWAP), f)
  {
    var (a, b, n) := Decide(g.a, g.b, 1, f, g.shuffles);
    FirstRound(g, f);
    hide Round, Decide, LeavesHands;
    var r := Round(g, f, NO_SWAP);
    PlainRound(r, f);
    var x, y, u, v := a.hand[0], b.hand[0], a.hand[1], b.hand[1];
    assert a.hand[1..][1..] == a.hand[2..] && b.hand[1..][1..] == b.hand[2..];
    assert [x, y][2..] == [] && [u, v][2..] == [];
    assert Alternating([x, y], [u, v]);
    AlternatingAppend(a.pile, b.pile, [x, y], [u, v]);
  }

  /** However many rounds are allowed, a standoff has no winner and no empty player. */
  lemma {:induction false} StandoffGoesOn(g: Game, f: Shuffler, allowance: nat)
    requires Standing(g, f)
    ensures Undecided(Run(g, f, NO_SWAP, allowance))
    decreases allowance
  {
    hide Run, Round, Standing;
    TwoRounds(g, f);
    StandingHolds(g, f);
    var r := Round(g, f, NO_SWAP);
    if allowance == 0 {
      RunStops(g, f, NO_SWAP, 0);
    } else if allowance == 1 {
      RunUnfolds(g, f, NO_SWAP, 1);
      RunStops(r, f, NO_SWAP, 0);
    } else {
      RunUnfolds(g, f, NO_SWAP, allowance);
      RunUnfolds(r, f, NO_SWAP, allowance - 1);
      StandoffGoesOn(Round(r, f, NO_SWAP), f, allowance - 2);
    }
  }

  lemma StandingHolds(g: Game, f: Shuffler)
    requires Standing(g, f)
    ensures g.a.NCards() > 0
  {
  }

  // ----- such a deal of the deck

  /** The upper and the lower half of two suits: 8 9 9 10 10 ... and 2 2 3 3 4 4 ... */
  function High(n: nat): (s: seq<Card>)
    ensures |s| == n && forall i | 0 <= i < n :: s[i] == 8 + (i + 1) / 2
  {
    seq(n, i requires i >= 0 => 8 + (i + 1) / 2)
  }

  function Low(n: nat): (s: seq<Card>)
    ensures |s| == n && forall i | 0 <= i < n :: s[i] == 2 + i / 2
  {
    seq(n, i requires i >= 0 => 2 + i / 2)
  }

  lemma {:induction false} HighCount(m: nat, r: Card)
    ensures Count(High(2 * m + 1), r) == if r == 8 then 1 else if 8 < r <= 8 + m then 2 else 0
  {
    if m == 0 {
      assert High(1) == [8];
    } else {
      var pair := [8 + m, 8 + m];
      assert High(2 * m + 1) == High(2 * (m - 1) + 1) + pair;
      CountAppend(High(2 * (m - 1) + 1), pair, r);
      CountPair(8 + m, r);
      HighCount(m - 1, r);
    }
  }

  lemma {:induction false} LowCount(m: nat, r: Card)
    ensures Count(Low(2 * m + 1), r) == if 2 <= r < 2 + m then 2 else if r == 2 + m then 1 else 0
  {
    if m == 0 {
      assert Low(1) == [2];
    } else {
      var pair := [1 + m, 2 + m];
      assert Low(2 * m + 1) == Low(2 * (m - 1) + 1) + pair;
      CountAppend(Low(2 * (m - 1) + 1), pair, r);
      CountAppend([1 + m], [2 + m], r);
      assert [1 + m] + [2 + m] == pair;
      LowCount(m - 1, r);
    }
  }

  lemma CountPair(c: Card, r: Card)
    ensures Count([c, c], r) == 2 * Is(c, r)
  {
    CountAppend([c], [c], r);
    assert [c] + [c] == [c, c];
  }

  function Interleave(x: seq<Card>, y: seq<Card>): (z: seq<Card>)
    requires |x| == |y|
    ensures |z| == 2 * |x|
  {
    if x == [] then [] else [x[0], y[0]] + Interleave(x[1..], y[1..])
  }

  lemma {:induction false} InterleaveCount(x: seq<Card>, y: seq<Card>, r: Card)
    requires |x| == |y|
    ensures Count(Interleave(x, y), r) == Count(x, r) + Count(y, r)
  {
    if x != [] {
      InterleaveCount(x[1..], y[1..], r);
      CountAppend([x[0], y[0]], Interleave(x[1..], y[1..]), r);
      CountAppend([x[0]], [y[0]], r);
      assert [x[0]] + [y[0]] == [x[0], y[0]];
    }
  }

  lemma {:induction false} InterleaveAlternates(hi: seq<Card>, lo: seq<Card>)
    requires |hi| == |lo| && forall i | 0 <= i < |hi| :: hi[i] > lo[i]
    ensures Alternating(Interleave(hi, lo), Interleave(lo, hi))
  {
    if hi != [] {
      InterleaveAlternates(hi[1..], lo[1..]);
      var h, k := Interleave(hi, lo), Interleave(lo, hi);
      assert h[2..] == Interleave(hi[1..], lo[1..]) && k[2..] == Interleave(lo[1..], hi[1..]);
    }
  }

  const HALF_SUITS: nat := 13

  /** The standoff's order of the deck: one half for each player. */
  function Arranged(): (s: seq<Card>)
    ensures |s| == DECK_SIZE
  {
    Interleave(High(HALF_SUITS), Low(HALF_SUITS)) + Interleave(Low(HALF_SUITS), High(HALF_SUITS))
  }

  lemma ArrangedIsADeck(r: Card)
    ensures Count(Arranged(), r) == Count(MakeDeck(), r) && |MakeDeck()| == DECK_SIZE
  {
    assert |MakeDeck()| == DECK_SIZE;
    hide MakeDeck, Count, Interleave;
    var high, low := High(HALF_SUITS), Low(HALF_SUITS);
    CountAppend(Interleave(high, low), Interleave(low, high), r);
    InterleaveCount(high, low, r);
    InterleaveCount(low, high, r);
    HighCount(6, r);
    LowCount(6, r);
    DeckHasFourOfEach(r);
  }

  lemma ArrangedDeck()
    ensures SameCards(MakeDeck(), Arranged())
  {
    hide MakeDeck, Arranged, Count;
    forall r: Card
      ensures Count(MakeDeck(), r) == Count(Arranged(), r)
    {
      ArrangedIsADeck(r);
    }
  }

  lemma SteerLeavesHands(target: seq<Card>, s: seq<Card>)
    requires |s| < |target|
    ensures Steer(target, s) == s
  {
    assert |multiset(s)| < |multiset(target)|;
  }

  /** With the deck, the round limit and the game loop of the source, no choice of
      strategies makes sure of a winner: some games end without one, both players
      still holding cards. */
  lemma SomeGamesHaveNoWinner(s1: Strategy, s2: Strategy)
    ensures exists f: Shuffler, coin: Coins :: Undecided(Match(s1, s2, f, coin, 0, 0))
  {
    hide Match, Steer, MakeDeck, Arranged;
    var f := Steered((k: nat) => Arranged());
    ArrangedDeck();
    Steering(Arranged(), MakeDeck());
    forall k: nat, s: seq<Card> | |s| < DECK_SIZE
      ensures f(k, s) == s
    {
      SteerLeavesHands(Arranged(), s);
    }
    UndecidedMatch(s1, s2, f);
  }

  lemma UndecidedMatch(s1: Strategy, s2: Strategy, f: Shuffler)
    requires f(0, MakeDeck()) == Arranged() && LeavesHands(f)
    ensures Undecided(Match(s1, s2, f, NO_SWAP, 0, 0))
  {
    StandoffIsDealt(s1, s2, f);
    hide Run, DealGame, Standing;
    StandoffGoesOn(DealGame(s1, s2, f, 0, 0), f, MAX_ROUNDS);
  }

  lemma StandoffIsDealt(s1: Strategy, s2: Strategy, f: Shuffler)
    requires f(0, MakeDeck()) == Arranged() && LeavesHands(f)
    ensures Standing(DealGame(s1, s2, f, 0, 0), f)
  {
    hide MakeDeck, LeavesHands;
    var high, low := High(HALF_SUITS), Low(HALF_SUITS);
    var x, y := Interleave(high, low), Interleave(low, high);
    assert (x + y)[..DECK_SIZE / 2] == x && (x + y)[DECK_SIZE / 2..] == y;
    InterleaveAlternates(high, low);
  }
}
