/** Games decided by the cards as they lie: one player wins every battle before
    anybody has a reason to shuffle.  Whether that happens can be read off the two
    hands, wars included; the shuffles and the coins have no say, and the strategies
    only where a war finds a player with fewer than four cards. */
module WarSweep {
  import opened CardTable
  import opened WarHands
  import opened WarGames

  /** What is known of the players besides their hands: nothing, that they only
      combine, or moreover that the one who is winning has no pile to combine. */
  datatype Terms = Any | Combining | Bare

  ghost predicate Meets(terms: Terms, winner: Seat, loser: Seat) {
    && (terms != Any ==> winner.strategy == CombineOnly && loser.strategy == CombineOnly)
    && (terms == Bare ==> winner.pile == [])
  }

  /** A war in which `x` and `y` are drawn from as they lie, where `y` is all that its
      owner holds. */
  predicate AsTheyLie(x: seq<Card>, y: seq<Card>, terms: Terms) {
    || (|x| >= 4 && |y| >= 4)
    || (x != [] && y != [] && (terms == Bare || (terms == Combining && |x| >= 4)))
  }

  /** The cards that four more draws leave, and the last card they take. */
  function Rest(x: seq<Card>): seq<Card> { if |x| < 4 then [] else x[4..] }

  function Fourth(x: seq<Card>): Card
    requires x != []
  {
    if |x| < 4 then x[|x| - 1] else x[3]
  }

  /** The player with `p` on top and `x` behind it beats `q` and `y`.  Where both run out
      of cards, `tie` says who wins. */
  predicate Takes(p: Card, q: Card, x: seq<Card>, y: seq<Card>, tie: bool, terms: Terms)
    decreases |x|
  {
    || p > q
    || (p == q &&
        if y == [] then tie || x != []
        else AsTheyLie(x, y, terms) && Takes(Fourth(x), Fourth(y), Rest(x), Rest(y), tie, terms))
  }

  /** What is left of `x` after those wars. */
  function Spared(p: Card, q: Card, x: seq<Card>, y: seq<Card>): (z: seq<Card>)
    ensures |z| <= |x|
    decreases |x|
  {
    if p == q && x != [] && y != [] then Spared(Fourth(x), Fourth(y), Rest(x), Rest(y)) else x
  }

  lemma LayDownAsTheyLie(a: Seat, b: Seat, f: Shuffler, k: nat, terms: Terms)
    requires b.pile == [] && Meets(terms, a, b) && AsTheyLie(a.hand, b.hand, terms)
    ensures var w := LayDown(a, b, f, k);
            && w.flip1 == Fourth(a.hand) && w.flip2 == Fourth(b.hand)
            && w.a == a.(hand := Rest(a.hand)) && w.b == b.(hand := Rest(b.hand))
            && w.shuffles == k
  {
    LayDownExactly(a, b, f, k);
    assert Decide(a, b, 4, f, k) == (a, b, k);
    hide LayDown, Decide;
  }

  lemma LayDownAsTheyLieToo(a: Seat, b: Seat, f: Shuffler, k: nat, terms: Terms)
    requires a.pile == [] && Meets(terms, b, a) && AsTheyLie(b.hand, a.hand, terms)
    ensures var w := LayDown(a, b, f, k);
            && w.flip1 == Fourth(a.hand) && w.flip2 == Fourth(b.hand)
            && w.a == a.(hand := Rest(a.hand)) && w.b == b.(hand := Rest(b.hand))
            && w.shuffles == k
  {
    LayDownExactly(a, b, f, k);
    assert Decide(a, b, 4, f, k) == (a, b, k);
    hide LayDown, Decide;
  }

  /** A hand that player one takes that way. */
  lemma {:induction false} TakenByOne(c1: Card, c2: Card, a: Seat, b: Seat, f: Shuffler, k: nat, terms: Terms)
    requires b.pile == [] && Meets(terms, a, b) && Takes(c1, c2, a.hand, b.hand, false, terms)
    ensures var d := Descend(c1, c2, a, b, f, k);
            && Decision(d) == One && d.shuffles == k
            && d.a == a.(hand := Spared(c1, c2, a.hand, b.hand))
            && d.b == b.(hand := Spared(c2, c1, b.hand, a.hand))
    decreases |a.hand|
  {
    if AtWar(c1, c2, a, b) {
      hide LayDown, Descend;
      var w := LayDown(a, b, f, k);
      LayDownAsTheyLie(a, b, f, k, terms);
      DescendUnfolds(c1, c2, a, b, f, k);
      TakenByOne(w.flip1, w.flip2, w.a, w.b, f, w.shuffles, terms);
    }
  }

  /** And one that player two takes, who also wins when both run out of cards. */
  lemma {:induction false} TakenByTwo(c1: Card, c2: Card, a: Seat, b: Seat, f: Shuffler, k: nat, terms: Terms)
    requires a.pile == [] && Meets(terms, b, a) && Takes(c2, c1, b.hand, a.hand, true, terms)
    ensures var d := Descend(c1, c2, a, b, f, k);
            && Decision(d) == Two && d.shuffles == k
            && d.a == a.(hand := Spared(c1, c2, a.hand, b.hand))
            && d.b == b.(hand := Spared(c2, c1, b.hand, a.hand))
    decreases |a.hand|
  {
    if AtWar(c1, c2, a, b) {
      hide LayDown, Descend;
      var w := LayDown(a, b, f, k);
      LayDownAsTheyLieToo(a, b, f, k, terms);
      DescendUnfolds(c1, c2, a, b, f, k);
      TakenByTwo(w.flip1, w.flip2, w.a, w.b, f, w.shuffles, terms);
    }
  }

  // ----- a whole hand

  /** Once the winner has a pile. */
  function Later(terms: Terms): Terms { if terms == Bare then Combining else terms }

  /** The owner of `x` takes one hand after the other until `y` is used up. */
  predicate Sweeps(x: seq<Card>, y: seq<Card>, tie: bool, terms: Terms)
    decreases |y|
  {
    || y == []
    || (x != [] && Takes(x[0], y[0], x[1..], y[1..], tie, terms) &&
        Sweeps(Spared(x[0], y[0], x[1..], y[1..]), Spared(y[0], x[0], y[1..], x[1..]), tie, Later(terms)))
  }

  /** The rounds that takes. */
  function SweepRounds(x: seq<Card>, y: seq<Card>): (n: nat)
    ensures n <= |y|
    ensures n == 0 <==> x == [] || y == []
    decreases |y|
  {
    if x == [] || y == [] then 0
    else 1 + SweepRounds(Spared(x[0], y[0], x[1..], y[1..]), Spared(y[0], x[0], y[1..], x[1..]))
  }

  /** A round of two players with cards in hand. */
  lemma RoundInHand(g: Game, f: Shuffler, coin: Coins)
    requires g.a.hand != [] && g.b.hand != []
    ensures Round(g, f, coin)
         == Record(g, Play(g.a.hand[0], g.b.hand[0], WithoutTop(g.a), WithoutTop(g.b), f, g.shuffles, coin, g.flips))
  {
    hide Play;
  }

  lemma RoundForOne(g: Game, f: Shuffler, coin: Coins, terms: Terms)
    requires g.b.pile == [] && g.a.hand != [] && g.b.hand != [] && Meets(terms, g.a, g.b)
    requires Takes(g.a.hand[0], g.b.hand[0], g.a.hand[1..], g.b.hand[1..], false, terms)
    ensures var h := Round(g, f, coin);
            var x, y := g.a.hand, g.b.hand;
            && h.a.hand == Spared(x[0], y[0], x[1..], y[1..]) && h.b.hand == Spared(y[0], x[0], y[1..], x[1..])
            && h.b.pile == [] && h.a.NCards() > 0 && Meets(Later(terms), h.a, h.b)
  {
    hide Descend, Payout, Spared, Takes, Round;
    var a, b := WithoutTop(g.a), WithoutTop(g.b);
    RoundInHand(g, f, coin);
    TakenByOne(g.a.hand[0], g.b.hand[0], a, b, f, g.shuffles, terms);
    HandAccounting(g.a.hand[0], g.b.hand[0], a, b, f, g.shuffles, coin, g.flips, 0);
  }

  lemma RoundForTwo(g: Game, f: Shuffler, coin: Coins, terms: Terms)
    requires g.a.pile == [] && g.a.hand != [] && g.b.hand != [] && Meets(terms, g.b, g.a)
    requires Takes(g.b.hand[0], g.a.hand[0], g.b.hand[1..], g.a.hand[1..], true, terms)
    ensures var h := Round(g, f, coin);
            var x, y := g.a.hand, g.b.hand;
            && h.a.hand == Spared(x[0], y[0], x[1..], y[1..]) && h.b.hand == Spared(y[0], x[0], y[1..], x[1..])
            && h.a.pile == [] && h.b.NCards() > 0 && Meets(Later(terms), h.b, h.a)
  {
    hide Descend, Payout, Spared, Takes, Round;
    var a, b := WithoutTop(g.a), WithoutTop(g.b);
    RoundInHand(g, f, coin);
    TakenByTwo(g.a.hand[0], g.b.hand[0], a, b, f, g.shuffles, terms);
    HandAccounting(g.a.hand[0], g.b.hand[0], a, b, f, g.shuffles, coin, g.flips, 0);
  }

  /** Player one is sweeping, with `needed` rounds to go. */
  ghost predicate OneSweeps(g: Game, terms: Terms, needed: nat) {
    && g.b.pile == [] && g.a.NCards() > 0 && Meets(terms, g.a, g.b)
    && Sweeps(g.a.hand, g.b.hand, false, terms) && SweepRounds(g.a.hand, g.b.hand) == needed
  }

  ghost predicate TwoSweeps(g: Game, terms: Terms, needed: nat) {
    && g.a.pile == [] && g.b.NCards() > 0 && Meets(terms, g.b, g.a)
    && Sweeps(g.b.hand, g.a.hand, true, terms) && SweepRounds(g.b.hand, g.a.hand) == needed
  }

  lemma OneSweepsOn(g: Game, f: Shuffler, coin: Coins, terms: Terms, needed: nat)
    requires OneSweeps(g, terms, needed)
    ensures g.a.NCards() > 0 && (g.b.NCards() > 0 <==> needed > 0)
    ensures needed > 0 ==> OneSweeps(Round(g, f, coin), Later(terms), needed - 1)
  {
    if g.b.hand != [] {
      hide Round, Takes, Spared, Meets;
      RoundForOne(g, f, coin, terms);
    }
  }

  lemma TwoSweepsOn(g: Game, f: Shuffler, coin: Coins, terms: Terms, needed: nat)
    requires TwoSweeps(g, terms, needed)
    ensures g.b.NCards() > 0 && (g.a.NCards() > 0 <==> needed > 0)
    ensures needed > 0 ==> TwoSweeps(Round(g, f, coin), Later(terms), needed - 1)
  {
    if g.a.hand != [] {
      hide Round, Takes, Spared, Meets;
      RoundForTwo(g, f, coin, terms);
    }
  }

  /** A sweep decides the game, for all shuffles and coins, and for all strategies but
      where a war is fought with fewer than four cards: player one is declared the
      winner exactly when more rounds are allowed than the sweep takes.  With just as
      many, player two is out of cards and nobody is declared. */
  lemma {:induction false} SweptByOne(g: Game, f: Shuffler, coin: Coins, allowance: nat, terms: Terms, needed: nat)
    requires OneSweeps(g, terms, needed)
    ensures var e := Run(g, f, coin, allowance);
            && (e.winner == One <==> allowance > needed) && e.winner != Two
            && (e.game.b.NCards() == 0 <==> allowance >= needed) && e.game.a.NCards() > 0
    decreases allowance
  {
    hide Run, Round, OneSweeps;
    OneSweepsOn(g, f, coin, terms, needed);
    if needed == 0 || allowance == 0 {
      RunStops(g, f, coin, allowance);
    } else {
      RunUnfolds(g, f, coin, allowance);
      SweptByOne(Round(g, f, coin), f, coin, allowance - 1, Later(terms), needed - 1);
    }
  }

  /** The same from the other seat. */
  lemma {:induction false} SweptByTwo(g: Game, f: Shuffler, coin: Coins, allowance: nat, terms: Terms, needed: nat)
    requires TwoSweeps(g, terms, needed)
    ensures var e := Run(g, f, coin, allowance);
            && (e.winner == Two <==> allowance > needed) && e.winner != One
            && (e.game.a.NCards() == 0 <==> allowance >= needed) && e.game.b.NCards() > 0
    decreases allowance
  {
    hide Run, Round, TwoSweeps;
    TwoSweepsOn(g, f, coin, terms, needed);
    if needed == 0 || allowance == 0 {
      RunStops(g, f, coin, allowance);
    } else {
      RunUnfolds(g, f, coin, allowance);
      SweptByTwo(Round(g, f, coin), f, coin, allowance - 1, Later(terms), needed - 1);
    }
  }

  /** Without wars, a sweep is a hand that beats the other card by card. */
  predicate Dominates(x: seq<Card>, y: seq<Card>) {
    |x| >= |y| && forall i | 0 <= i < |y| :: x[i] > y[i]
  }

  lemma {:induction false} DominatingSweeps(x: seq<Card>, y: seq<Card>, tie: bool, terms: Terms)
    requires Dominates(x, y)
    ensures Sweeps(x, y, tie, terms) && SweepRounds(x, y) == |y|
    decreases |y|
  {
    if y != [] {
      DominatingSweeps(x[1..], y[1..], tie, Later(terms));
    }
  }

  // ----- dealt games

  /** What is known of dealt players with these strategies. */
  function DealtTerms(s1: Strategy, s2: Strategy): Terms {
    if s1 == s2 == CombineOnly then Bare else Any
  }

  /** A dealt game that is swept gets its winner. */
  lemma SweptDeal(s1: Strategy, s2: Strategy, f: Shuffler, coin: Coins, k: nat, j: nat)
    ensures var deck := f(k, MakeDeck());
            var x, y := deck[..DECK_SIZE / 2], deck[DECK_SIZE / 2..];
            var terms := DealtTerms(s1, s2);
            && (Sweeps(x, y, false, terms) ==> Match(s1, s2, f, coin, k, j).winner == One)
            && (Sweeps(y, x, true, terms) ==> Match(s1, s2, f, coin, k, j).winner == Two)
  {
    hide Run, MakeDeck;
    var g, terms := DealGame(s1, s2, f, k, j), DealtTerms(s1, s2);
    DealIsFair(s1, s2, f, k, j, 0);
    if Sweeps(g.a.hand, g.b.hand, false, terms) {
      SweptByOne(g, f, coin, MAX_ROUNDS, terms, SweepRounds(g.a.hand, g.b.hand));
    }
    if Sweeps(g.b.hand, g.a.hand, true, terms) {
      SweptByTwo(g, f, coin, MAX_ROUNDS, terms, SweepRounds(g.b.hand, g.a.hand));
    }
  }
}
