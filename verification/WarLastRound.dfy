/** A game of the real deck and the real round limit whose last round takes player
    two's last cards and still declares no winner.

    Both players shuffle whenever a hand is empty, so the shuffles can restore the
    same two hands time after time: in each pass through them either player wins
    thirteen rounds, and afterwards holds the cards it started with.  All but the
    last 30 rounds are spent that way. */
module WarLastRound {
  import opened CardTable
  import opened WarHands
  import opened WarGames
  import opened WarStandoff
  import opened WarSteering

  // ----- blocks of rounds won by the same player

  lemma InterleaveUnfolds(pile: seq<Card>, x: seq<Card>, y: seq<Card>, m: nat)
    requires 0 < m <= |x| && m <= |y|
    ensures pile + Interleave(x[..m], y[..m])
         == (pile + [x[0], y[0]]) + Interleave(x[1..][..m - 1], y[1..][..m - 1])
  {
    assert x[..m][1..] == x[1..][..m - 1] && y[..m][1..] == y[1..][..m - 1];
  }

  /** The hands after `m` rounds, all won by player one. */
  lemma {:induction false} WinBlock(g: Game, f: Shuffler, m: nat)
    requires m <= |g.a.hand| && m <= |g.b.hand| && forall i | 0 <= i < m :: g.a.hand[i] > g.b.hand[i]
    ensures var e := Run(g, f, NO_SWAP, m);
            && e.winner == None && e.game.shuffles == g.shuffles
            && e.game.a == Seat(g.a.strategy, g.a.hand[m..], g.a.pile + Interleave(g.a.hand[..m], g.b.hand[..m]))
            && e.game.b == Seat(g.b.strategy, g.b.hand[m..], g.b.pile)
    decreases m
  {
    hide Run, Round;
    if m == 0 {
      RunStops(g, f, NO_SWAP, 0);
    } else {
      PlainRound(g, f);
      RunUnfolds(g, f, NO_SWAP, m);
      InterleaveUnfolds(g.a.pile, g.a.hand, g.b.hand, m);
      WinBlock(Round(g, f, NO_SWAP), f, m - 1);
    }
  }

  /** The same for rounds all won by player two. */
  lemma {:induction false} LoseBlock(g: Game, f: Shuffler, m: nat)
    requires m <= |g.a.hand| && m <= |g.b.hand| && forall i | 0 <= i < m :: g.a.hand[i] < g.b.hand[i]
    ensures var e := Run(g, f, NO_SWAP, m);
            && e.winner == None && e.game.shuffles == g.shuffles
            && e.game.a == Seat(g.a.strategy, g.a.hand[m..], g.a.pile)
            && e.game.b == Seat(g.b.strategy, g.b.hand[m..], g.b.pile + Interleave(g.a.hand[..m], g.b.hand[..m]))
    decreases m
  {
    hide Run, Round;
    if m == 0 {
      RunStops(g, f, NO_SWAP, 0);
    } else {
      PlainRound(g, f);
      RunUnfolds(g, f, NO_SWAP, m);
      InterleaveUnfolds(g.b.pile, g.a.hand, g.b.hand, m);
      LoseBlock(Round(g, f, NO_SWAP), f, m - 1);
    }
  }

  /** The last allowed round was played and player two holds nothing. */
  predicate Unseen(e: Ending) { e.winner == None && e.game.b.NCards() == 0 }

  lemma Chain(g: Game, f: Shuffler, m: nat, n: nat)
    requires Run(g, f, NO_SWAP, m).winner == None
    requires Unseen(Run(Run(g, f, NO_SWAP, m).game, f, NO_SWAP, n))
    ensures Unseen(Run(g, f, NO_SWAP, m + n))
  {
    hide Run;
    LongerGames(g, f, NO_SWAP, m, n);
  }

  // ----- the cards

  /** 8 8 9 9 9 9 10 10 10 10 ..., up to four aces for 26 cards. */
  function Top(n: nat): (s: seq<Card>)
    ensures |s| == n && forall i | 0 <= i < n :: s[i] == 8 + (i + 2) / 4
  {
    seq(n, i requires i >= 0 => 8 + (i + 2) / 4)
  }

  lemma {:induction false} TopCount(m: nat, r: Card)
    ensures Count(Top(4 * m + 2), r) == if r == 8 then 2 else if 8 < r <= 8 + m then 4 else 0
  {
    if m == 0 {
      assert Top(2) == [8, 8];
      CountPair(8, r);
    } else {
      var c := 8 + m;
      var before := Top(4 * (m - 1) + 2);
      assert Top(4 * m + 2) == before + [c, c] + [c, c];
      CountAppend3(before, [c, c], [c, c], r);
      CountPair(c, r);
      TopCount(m - 1, r);
    }
  }

  const N: nat := 13

  /** Thirteen low cards, held by both players, thirteen middle ones and the
      thirteen best. */
  function Y(): (s: seq<Card>)
    ensures |s| == N && forall i | 0 <= i < N :: s[i] == 2 + i / 2
  {
    Low(N)
  }

  function V(): (s: seq<Card>)
    ensures |s| == N && forall i | 0 <= i < N :: s[i] == 8 + (i + 2) / 4
  {
    Top(2 * N)[..N]
  }

  function X(): (s: seq<Card>)
    ensures |s| == N && forall i | 0 <= i < N :: s[i] == 11 + (i + 3) / 4
  {
    Top(2 * N)[N..]
  }

  lemma TheDeck(r: Card)
    ensures Count(X() + Y() + Y() + V(), r) == Count(MakeDeck(), r)
  {
    assert Top(2 * N) == V() + X();
    hide X, Y, V, Count, MakeDeck;
    assert Y() == Low(N) by {
      assert forall i | 0 <= i < N :: Y()[i] == Low(N)[i];
    }
    CountAppend(V(), X(), r);
    CountAppend3(X(), Y(), Y(), r);
    CountAppend(X() + Y() + Y(), V(), r);
    TopCount(6, r);
    LowCount(6, r);
    DeckHasFourOfEach(r);
  }

  // ----- the passes

  /** Passes before the final one. */
  const PASSES: nat := 3845

  /** The hands `left` passes before the final one. */
  function Hand1(left: nat): seq<Card> { if left > 0 then X() + Y() else X() + (Y()[2..] + Y()[..2]) }
  function Hand2(left: nat): seq<Card> { if left > 0 then Y() + V() else V() + Y() }

  /** Player one's cards after the final pass, as they were won and as they are played. */
  function Won(): seq<Card> { Interleave(X(), V()) + Interleave(Y()[2..], Y()[..N - 2]) }
  function Closing(): seq<Card> { X()[9..] + X()[..9] + V() + Y()[2..] + Y()[..N - 2] }

  /** The draw that prepares the hands `left` passes before the final one. */
  function DrawBefore(left: nat): nat
    requires left <= PASSES
  {
    2 * (PASSES - left)
  }

  ghost predicate Steers(f: Shuffler) {
    && f(0, MakeDeck()) == X() + Y() + Y() + V()
    && (forall left: nat | left < PASSES ::
          && f(DrawBefore(left) - 1, Interleave(X(), Y())) == Hand1(left)
          && f(DrawBefore(left), Interleave(Y(), V())) == Hand2(left))
    && f(2 * PASSES + 1, Won()) == Closing()
    && (forall s: seq<Card> | |s| == 4 :: f(2 * PASSES + 2, s) == s)
  }

  predicate Layout(g: Game, left: nat) {
    && left <= PASSES && g.shuffles == DrawBefore(left) + 1
    && g.a == Seat(AlwaysShuffle, Hand1(left), []) && g.b == Seat(AlwaysShuffle, Hand2(left), [])
  }

  /** Two blocks of rounds that use up both hands, the second won by player two. */
  lemma TwoBlocks(g: Game, f: Shuffler, x: seq<Card>, p: seq<Card>, y: seq<Card>, q: seq<Card>)
    requires |x| == |y| && forall i | 0 <= i < |x| :: x[i] > y[i]
    requires |p| == |q| && forall i | 0 <= i < |p| :: p[i] < q[i]
    requires g.a.hand == x + p && g.b.hand == y + q
    ensures var e := Run(g, f, NO_SWAP, |x| + |p|);
            && e.winner == None && e.game.shuffles == g.shuffles
            && e.game.a == Seat(g.a.strategy, [], g.a.pile + Interleave(x, y))
            && e.game.b == Seat(g.b.strategy, [], g.b.pile + Interleave(p, q))
  {
    hide Run, Interleave;
    assert (x + p)[..|x|] == x && (x + p)[|x|..] == p && (y + q)[..|x|] == y && (y + q)[|x|..] == q;
    WinBlock(g, f, |x|);
    var h := Run(g, f, NO_SWAP, |x|).game;
    assert p[..|p|] == p && q[..|p|] == q;
    LoseBlock(h, f, |p|);
    LongerGames(g, f, NO_SWAP, |x|, |p|);
  }

  /** A pass with both players winning half of the rounds. */
  lemma StandoffPass(g: Game, f: Shuffler, left: nat)
    requires Layout(g, left) && left > 0
    ensures var e := Run(g, f, NO_SWAP, 2 * N);
            && e.winner == None && e.game.shuffles == g.shuffles
            && e.game.a == Seat(AlwaysShuffle, [], Interleave(X(), Y()))
            && e.game.b == Seat(AlwaysShuffle, [], Interleave(Y(), V()))
  {
    hide Run, X, Y, V, Interleave;
    TwoBlocks(g, f, X(), Y(), Y(), V());
    assert [] + Interleave(X(), Y()) == Interleave(X(), Y()) && [] + Interleave(Y(), V()) == Interleave(Y(), V());
  }

  /** The last 30 rounds: player two wins two of a pass, and then none. */
  lemma FinalPass(g: Game, f: Shuffler)
    requires Layout(g, 0) && Steers(f)
    ensures Unseen(Run(g, f, NO_SWAP, 2 * N + 4))
  {
    hide Run, X, Y, V, Interleave, Steers;
    var x, y, v := X(), Y(), V();
    var p, q := y[2..] + y[..2], y;
    assert (x + p)[..N] == x && (x + p)[N..] == p && (v + y)[..N] == v && (v + y)[N..] == y;
    WinBlock(g, f, N);
    var h := Run(g, f, NO_SWAP, N).game;
    assert [] + Interleave(x, v) == Interleave(x, v);
    assert h.a == Seat(AlwaysShuffle, p, Interleave(x, v)) && h.b == Seat(AlwaysShuffle, y, []);
    SecondHalf(h, f);
    Chain(g, f, N, N + 4);
  }

  lemma SecondHalf(h: Game, f: Shuffler)
    requires h.a == Seat(AlwaysShuffle, Y()[2..] + Y()[..2], Interleave(X(), V()))
    requires h.b == Seat(AlwaysShuffle, Y(), []) && h.shuffles == 2 * PASSES + 1 && Steers(f)
    ensures Unseen(Run(h, f, NO_SWAP, N + 4))
  {
    hide Run, X, Y, V, Interleave, Steers;
    var y := Y();
    var p := y[2..] + y[..2];
    assert p[..N - 2] == y[2..] && p[N - 2..] == y[..2];
    WinBlock(h, f, N - 2);
    var i := Run(h, f, NO_SWAP, N - 2).game;
    assert i.a == Seat(AlwaysShuffle, y[..2], Won()) && i.b == Seat(AlwaysShuffle, y[N - 2..], []);
    LastPair(i, f);
    Chain(h, f, N - 2, 6);
  }

  lemma LastPair(i: Game, f: Shuffler)
    requires i.a == Seat(AlwaysShuffle, Y()[..2], Won()) && i.b == Seat(AlwaysShuffle, Y()[N - 2..], [])
    requires i.shuffles == 2 * PASSES + 1 && Steers(f)
    ensures Unseen(Run(i, f, NO_SWAP, 6))
  {
    hide Run, X, Y, V, Won, Closing, Refilled;
    var y := Y();
    LoseBlock(i, f, 2);
    var j := Run(i, f, NO_SWAP, 2).game;
    assert y[..2][..2] == y[..2] && y[N - 2..][..2] == y[N - 2..];
    var four := Interleave(y[..2], y[N - 2..]);
    assert j.a == Seat(AlwaysShuffle, [], Won()) && j.b == Seat(AlwaysShuffle, [], [] + four);
    assert [] + four == four;
    ClosingRounds(j, f);
    Chain(i, f, 2, 4);
  }

  lemma InterleavePairs(a: Card, b: Card, c: Card, d: Card)
    ensures Interleave([a, b], [c, d]) == [a, c, b, d]
  {
    assert [a, b][1..] == [b] && [c, d][1..] == [d];
    assert Interleave([b], [d]) == [b, d];
  }

  lemma FourCards()
    ensures var four := Interleave(Y()[..2], Y()[N - 2..]);
            |four| == 4 && forall i | 0 <= i < 4 :: four[i] < MAX_CARD
  {
    hide Y, Interleave;
    assert Y()[..2] == [2, 2] && Y()[N - 2..] == [7, 8];
    InterleavePairs(2, 2, 7, 8);
  }

  lemma FourAces()
    ensures |Won()| > 0 && |Closing()| > 4 && forall i | 0 <= i < 4 :: Closing()[i] == MAX_CARD
  {
    hide X, Y, V, Interleave;
    assert forall i | 0 <= i < 4 :: Closing()[i] == X()[9..][i];
  }

  lemma ClosingRounds(j: Game, f: Shuffler)
    requires j.a == Seat(AlwaysShuffle, [], Won())
    requires j.b == Seat(AlwaysShuffle, [], Interleave(Y()[..2], Y()[N - 2..]))
    requires j.shuffles == 2 * PASSES + 1 && Steers(f)
    ensures Unseen(Run(j, f, NO_SWAP, 4))
  {
    hide Run, X, Y, V, Won, Closing, Interleave;
    FourCards();
    FourAces();
    assert [] + j.a.pile == j.a.pile && [] + j.b.pile == j.b.pile;
    RefillHappens(j, f, NO_SWAP, 4);
    WinBlock(Refilled(j, f), f, 4);
  }

  /** The rounds still to be played. */
  function RoundsFrom(left: nat): nat { 2 * N * left + 2 * N + 4 }

  ghost predicate EndsUnseen(g: Game, f: Shuffler, left: nat) {
    Unseen(Run(g, f, NO_SWAP, RoundsFrom(left)))
  }

  lemma OnePass(g: Game, f: Shuffler, left: nat) returns (next: Game)
    requires Layout(g, left) && left > 0 && Steers(f)
    ensures Layout(next, left - 1)
    ensures EndsUnseen(next, f, left - 1) ==> EndsUnseen(g, f, left)
  {
    hide Run, X, Y, V, Interleave, Hand1, Hand2;
    StandoffPass(g, f, left);
    var h := Run(g, f, NO_SWAP, 2 * N).game;
    assert DrawBefore(left - 1) - 1 == h.shuffles;
    InterleaveIsLong(X(), Y());
    InterleaveIsLong(Y(), V());
    assert [] + h.a.pile == h.a.pile && [] + h.b.pile == h.b.pile;
    var rest := RoundsFrom(left - 1);
    RefillHappens(h, f, NO_SWAP, rest);
    next := Refilled(h, f);
    if EndsUnseen(next, f, left - 1) {
      Chain(g, f, 2 * N, rest);
    }
  }

  lemma InterleaveIsLong(x: seq<Card>, y: seq<Card>)
    requires |x| == |y| > 0
    ensures Interleave(x, y) != []
  {
  }

  lemma {:induction false} AllPasses(g: Game, f: Shuffler, left: nat)
    requires Layout(g, left) && Steers(f)
    ensures EndsUnseen(g, f, left)
    decreases left
  {
    hide Steers, Layout, Run;
    if left == 0 {
      FinalPass(g, f);
    } else {
      hide EndsUnseen;
      var next := OnePass(g, f, left);
      AllPasses(next, f, left - 1);
    }
  }

  // ----- a shuffler that steers

  /** What draw `k` should produce. */
  function Target(k: nat): seq<Card> {
    if k == 0 then X() + Y() + Y() + V()
    else if k == 2 * PASSES + 1 then Closing()
    else if k > 2 * PASSES then []
    else if k % 2 == 1 then Hand1(PASSES - (k + 1) / 2)
    else Hand2(PASSES - k / 2)
  }

  lemma SameHands(left: nat)
    ensures SameCards(Interleave(X(), Y()), Hand1(left)) && SameCards(Interleave(Y(), V()), Hand2(left))
  {
    hide X, Y, V, Count, Interleave;
    var x, y, v := X(), Y(), V();
    forall r: Card
      ensures Count(Interleave(x, y), r) == Count(Hand1(left), r)
      ensures Count(Interleave(y, v), r) == Count(Hand2(left), r)
    {
      InterleaveCount(x, y, r);
      InterleaveCount(y, v, r);
      CountAppend(x, y, r);
      CountAppend(y, v, r);
      CountAppend(v, y, r);
      CountAppend(x, y[2..] + y[..2], r);
      CountSwap(y, 2, r);
    }
  }

  lemma CountSwap(s: seq<Card>, i: nat, r: Card)
    requires i <= |s|
    ensures Count(s[i..] + s[..i], r) == Count(s, r)
  {
    assert s == s[..i] + s[i..];
    CountAppend(s[..i], s[i..], r);
    CountAppend(s[i..], s[..i], r);
  }

  lemma SameClosing()
    ensures SameCards(Won(), Closing())
  {
    hide X, Y, V, Count, Interleave;
    var x, y, v := X(), Y(), V();
    forall r: Card
      ensures Count(Won(), r) == Count(Closing(), r)
    {
      CountAppend(Interleave(x, v), Interleave(y[2..], y[..N - 2]), r);
      InterleaveCount(x, v, r);
      InterleaveCount(y[2..], y[..N - 2], r);
      CountSwap(x, 9, r);
      CountAppend3(x[9..] + x[..9], v, y[2..], r);
      CountAppend(x[9..] + x[..9] + v + y[2..], y[..N - 2], r);
    }
  }

  lemma SteersOnce(left: nat)
    requires left < PASSES
    ensures Steer(Target(DrawBefore(left) - 1), Interleave(X(), Y())) == Hand1(left)
    ensures Steer(Target(DrawBefore(left)), Interleave(Y(), V())) == Hand2(left)
  {
    hide X, Y, V, Hand1, Hand2, Closing, Interleave, Steer, SameCards;
    assert Target(DrawBefore(left) - 1) == Hand1(left) && Target(DrawBefore(left)) == Hand2(left);
    hide Target;
    SameHands(left);
    Steering(Hand1(left), Interleave(X(), Y()));
    Steering(Hand2(left), Interleave(Y(), V()));
  }

  lemma SteersFirstAndLast()
    ensures Steer(Target(0), MakeDeck()) == X() + Y() + Y() + V()
    ensures Steer(Target(2 * PASSES + 1), Won()) == Closing()
  {
    hide X, Y, V, Won, Closing, Hand1, Hand2, MakeDeck, Steer, SameCards;
    SameDeck();
    Steering(Target(0), MakeDeck());
    SameClosing();
    Steering(Target(2 * PASSES + 1), Won());
  }

  lemma SteersFour(s: seq<Card>)
    requires |s| == 4
    ensures Steer(Target(2 * PASSES + 2), s) == s
  {
    hide Closing, Hand1, Hand2;
    assert |multiset(s)| == 4;
  }

  lemma SteeredSteers(f: Shuffler)
    requires forall k: nat, s: seq<Card> :: f(k, s) == Steer(Target(k), s)
    ensures Steers(f)
  {
    hide Steer, Target, X, Y, V, Won, Closing, Hand1, Hand2, MakeDeck, Interleave;
    SteersFirstAndLast();
    forall left: nat | left < PASSES
      ensures f(DrawBefore(left) - 1, Interleave(X(), Y())) == Hand1(left)
      ensures f(DrawBefore(left), Interleave(Y(), V())) == Hand2(left)
    {
      SteersOnce(left);
    }
    forall s: seq<Card> | |s| == 4
      ensures f(2 * PASSES + 2, s) == s
    {
      SteersFour(s);
    }
  }

  lemma SameDeck()
    ensures SameCards(MakeDeck(), X() + Y() + Y() + V())
  {
    hide X, Y, V, Count, MakeDeck;
    forall r: Card
      ensures Count(MakeDeck(), r) == Count(X() + Y() + Y() + V(), r)
    {
      TheDeck(r);
    }
  }

  lemma DealtForPasses(f: Shuffler)
    requires Steers(f)
    ensures Layout(DealGame(AlwaysShuffle, AlwaysShuffle, f, 0, 0), PASSES)
  {
    hide X, Y, V, MakeDeck, Interleave;
    var x, y, v := X(), Y(), V();
    var deck := x + y + y + v;
    assert deck[..2 * N] == x + y && deck[2 * N..] == y + v;
  }

  /** With the deck, the round limit and the game loop of the source: a game whose
      100000th round takes player two's last cards has no winner. */
  lemma LastRoundGoesUnseen()
    ensures exists f: Shuffler, coin: Coins ::
              var e := Match(AlwaysShuffle, AlwaysShuffle, f, coin, 0, 0);
              e.winner == None && e.game.b.NCards() == 0
  {
    var f := Steered(Target);
    SteeredSteers(f);
    UnseenMatch(f);
  }

  lemma UnseenMatch(f: Shuffler)
    requires Steers(f)
    ensures Unseen(Match(AlwaysShuffle, AlwaysShuffle, f, NO_SWAP, 0, 0))
  {
    DealtForPasses(f);
    hide Run, DealGame, Steers, Layout;
    AllPasses(DealGame(AlwaysShuffle, AlwaysShuffle, f, 0, 0), f, PASSES);
    assert RoundsFrom(PASSES) == MAX_ROUNDS;
  }
}
