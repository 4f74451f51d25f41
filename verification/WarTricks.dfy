/** Which deals settle a game.  For a deal whose first pass through the hands has no
    tie, the cards each player wins there say whether every game dealt that way has a
    winner, or whether the players' own shuffles can keep it open for ever. */
module WarTricks {
  import opened CardTable
  import opened WarHands
  import opened WarGames
  import opened WarSteering
  import opened WarSweep

  /** The two cards of a round won by the higher. */
  datatype Trick = Trick(high: Card, low: Card)

  ghost predicate Strict(ts: seq<Trick>) { forall t | t in ts :: t.high > t.low }

  function Cards(ts: seq<Trick>): (s: seq<Card>)
    ensures |s| == 2 * |ts|
  {
    if ts == [] then [] else [ts[0].high, ts[0].low] + Cards(ts[1..])
  }

  lemma CountTrick(t: Trick, r: Card)
    ensures Count([t.high, t.low], r) == Is(t.high, r) + Is(t.low, r)
  {
    CountAppend([t.high], [t.low], r);
    assert [t.high] + [t.low] == [t.high, t.low];
  }

  lemma {:induction false} CardsAppend(ts: seq<Trick>, us: seq<Trick>)
    ensures Cards(ts + us) == Cards(ts) + Cards(us)
  {
    if ts == [] {
      assert ts + us == us;
    } else {
      assert (ts + us)[1..] == ts[1..] + us;
      CardsAppend(ts[1..], us);
    }
  }

  function Copies(ts: seq<Trick>, r: Card): nat { Count(Cards(ts), r) }

  lemma CopiesAppend(ts: seq<Trick>, us: seq<Trick>, r: Card)
    ensures Copies(ts + us, r) == Copies(ts, r) + Copies(us, r)
  {
    CardsAppend(ts, us);
    CountAppend(Cards(ts), Cards(us), r);
  }

  lemma CopiesOne(t: Trick, r: Card)
    ensures Copies([t], r) == Is(t.high, r) + Is(t.low, r)
  {
    assert [t][1..] == [];
    assert Cards([t]) == [t.high, t.low] + [];
    assert [t.high, t.low] + [] == [t.high, t.low];
    CountTrick(t, r);
  }

  // ----- a pass through two hands

  function Shorter(x: seq<Card>, y: seq<Card>): nat { Min(|x|, |y|) }

  ghost predicate NoTies(x: seq<Card>, y: seq<Card>) {
    forall i | 0 <= i < |x| && i < |y| :: x[i] != y[i]
  }

  /** What each of the owners of `x` and `y` wins when they play card by card. */
  function Won(x: seq<Card>, y: seq<Card>): (ts: seq<Trick>)
    ensures Strict(ts)
  {
    if x == [] || y == [] then []
    else (if x[0] > y[0] then [Trick(x[0], y[0])] else []) + Won(x[1..], y[1..])
  }

  lemma {:induction false} EveryRoundIsWon(x: seq<Card>, y: seq<Card>)
    requires NoTies(x, y)
    ensures |Won(x, y)| + |Won(y, x)| == Shorter(x, y)
  {
    if x != [] && y != [] {
      EveryRoundIsWon(x[1..], y[1..]);
    }
  }

  /** `h` is `g` after a round by the top cards, as far as rank `r` goes. */
  ghost predicate Straight(g: Game, h: Game, r: Card)
    requires g.a.hand != [] && g.b.hand != []
  {
    var c, d := g.a.hand[0], g.b.hand[0];
    var pot := Is(c, r) + Is(d, r);
    && h.shuffles == g.shuffles
    && h.a.strategy == g.a.strategy && h.a.hand == g.a.hand[1..]
    && h.b.strategy == g.b.strategy && h.b.hand == g.b.hand[1..]
    && |h.a.pile| == |g.a.pile| + (if c > d then 2 else 0)
    && |h.b.pile| == |g.b.pile| + (if c < d then 2 else 0)
    && Count(h.a.pile, r) == Count(g.a.pile, r) + (if c > d then pot else 0)
    && Count(h.b.pile, r) == Count(g.b.pile, r) + (if c < d then pot else 0)
  }

  /** One round by the top cards, with any coin. */
  lemma StraightRound(g: Game, f: Shuffler, coin: Coins, r: Card)
    requires g.a.hand != [] && g.b.hand != [] && g.a.hand[0] != g.b.hand[0]
    ensures Straight(g, Round(g, f, coin), r)
  {
    hide Play, Round;
    var c, d := g.a.hand[0], g.b.hand[0];
    var a, b := WithoutTop(g.a), WithoutTop(g.b);
    RoundInHand(g, f, coin);
    PlayAtOnce(c, d, a, b, f, g.shuffles, coin, g.flips);
    var cards := if coin(g.flips) then [d, c] else [c, d];
    PairCount(Battle(c, d, [], []), coin(g.flips), r);
    CountAppend(a.pile, cards, r);
    CountAppend(b.pile, cards, r);
  }

  /** After `m` rounds, with the tricks `ts` and `us` won in them. */
  ghost predicate Passed(g: Game, e: Ending, m: nat, ts: seq<Trick>, us: seq<Trick>, r: Card)
    requires m <= |g.a.hand| && m <= |g.b.hand|
  {
    && e.winner == None && e.game.shuffles == g.shuffles
    && e.game.a.strategy == g.a.strategy && e.game.a.hand == g.a.hand[m..]
    && e.game.b.strategy == g.b.strategy && e.game.b.hand == g.b.hand[m..]
    && |e.game.a.pile| == |g.a.pile| + 2 * |ts|
    && |e.game.b.pile| == |g.b.pile| + 2 * |us|
    && Count(e.game.a.pile, r) == Count(g.a.pile, r) + Copies(ts, r)
    && Count(e.game.b.pile, r) == Count(g.b.pile, r) + Copies(us, r)
  }

  /** `us` is `ts` with one more trick, of `c` over `d`, if `c` is higher. */
  ghost predicate OneMore(ts: seq<Trick>, us: seq<Trick>, c: Card, d: Card, r: Card) {
    && |us| == |ts| + (if c > d then 1 else 0)
    && Copies(us, r) == Copies(ts, r) + (if c > d then Is(c, r) + Is(d, r) else 0)
  }

  lemma WonUnfolds(x: seq<Card>, y: seq<Card>, r: Card)
    requires x != [] && y != []
    ensures OneMore(Won(x[1..], y[1..]), Won(x, y), x[0], y[0], r)
  {
    var rest := Won(x[1..], y[1..]);
    if x[0] > y[0] {
      var t := Trick(x[0], y[0]);
      assert Won(x, y) == [t] + rest;
      CopiesAppend([t], rest, r);
      CopiesOne(t, r);
    } else {
      assert Won(x, y) == [] + rest == rest;
    }
  }

  lemma PassedOneMore(g: Game, h: Game, e: Ending, m: nat, ts: seq<Trick>, us: seq<Trick>,
                      ts': seq<Trick>, us': seq<Trick>, r: Card)
    requires 0 < m <= |g.a.hand| && m <= |g.b.hand| && g.a.hand[0] != g.b.hand[0]
    requires Straight(g, h, r) && Passed(h, e, m - 1, ts, us, r)
    requires OneMore(ts, ts', g.a.hand[0], g.b.hand[0], r) && OneMore(us, us', g.b.hand[0], g.a.hand[0], r)
    ensures Passed(g, e.(rounds := e.rounds + 1), m, ts', us', r)
  {
    hide Copies, Count;
    assert g.a.hand[1..][m - 1..] == g.a.hand[m..] && g.b.hand[1..][m - 1..] == g.b.hand[m..];
  }

  /** The pass through the hands of `g` gives each player the tricks it won. */
  ghost predicate PassWins(g: Game, f: Shuffler, coin: Coins, r: Card) {
    var x, y := g.a.hand, g.b.hand;
    var m := Shorter(x, y);
    Passed(g, Run(g, f, coin, m), m, Won(x, y), Won(y, x), r)
  }

  lemma PassOneMore(g: Game, f: Shuffler, coin: Coins, r: Card)
    requires g.a.hand != [] && g.b.hand != [] && g.a.hand[0] != g.b.hand[0]
    requires PassWins(Round(g, f, coin), f, coin, r)
    ensures PassWins(g, f, coin, r)
  {
    hide Run, Round, Passed, OneMore;
    var x, y, h := g.a.hand, g.b.hand, Round(g, f, coin);
    var m := Shorter(x, y);
    StraightRound(g, f, coin, r);
    RunUnfolds(g, f, coin, m);
    WonUnfolds(x, y, r);
    WonUnfolds(y, x, r);
    var ts, us := Won(x[1..], y[1..]), Won(y[1..], x[1..]);
    assert h.a.hand == x[1..] && h.b.hand == y[1..];
    PassedOneMore(g, h, Run(h, f, coin, m - 1), m, ts, us, Won(x, y), Won(y, x), r);
  }

  lemma PassOfNone(g: Game, f: Shuffler, coin: Coins, r: Card)
    requires g.a.hand == [] || g.b.hand == []
    ensures PassWins(g, f, coin, r)
  {
    hide Run;
    RunStops(g, f, coin, 0);
    assert g.a.hand[0..] == g.a.hand && g.b.hand[0..] == g.b.hand && Cards([]) == [];
  }

  /** A pass without ties: each player collects the tricks it won, whatever the
      strategies, shuffles and coins. */
  lemma {:induction false} Pass(g: Game, f: Shuffler, coin: Coins, r: Card)
    requires NoTies(g.a.hand, g.b.hand)
    ensures PassWins(g, f, coin, r)
    decreases |g.a.hand|
  {
    if g.a.hand == [] || g.b.hand == [] {
      PassOfNone(g, f, coin, r);
    } else {
      hide Round, PassWins;
      StraightRound(g, f, coin, r);
      Pass(Round(g, f, coin), f, coin, r);
      PassOneMore(g, f, coin, r);
    }
  }
}
