/** Tools for choosing shuffles and coins: rounds that go straight by the two top
    cards, and a shuffler that hands out prescribed orders. */
module WarSteering {
  import opened CardTable
  import opened WarHands
  import opened WarGames

  const NO_SWAP: Coins := (j: nat) => false

  /** A round of two players with cards in hand whose cards differ. */
  lemma PlainRound(g: Game, f: Shuffler)
    requires g.a.hand != [] && g.b.hand != [] && g.a.hand[0] != g.b.hand[0]
    ensures var r := Round(g, f, NO_SWAP);
            var cards := [g.a.hand[0], g.b.hand[0]];
            && r.shuffles == g.shuffles
            && r.a == (if g.a.hand[0] > g.b.hand[0] then Gain(WithoutTop(g.a), cards) else WithoutTop(g.a))
            && r.b == (if g.a.hand[0] > g.b.hand[0] then WithoutTop(g.b) else Gain(WithoutTop(g.b), cards))
  {
    hide Play;
    PlayAtOnce(g.a.hand[0], g.b.hand[0], WithoutTop(g.a), WithoutTop(g.b), f, g.shuffles, NO_SWAP, g.flips);
  }

  /** Two players who always shuffle, one of them with an empty hand. */
  predicate Dry(g: Game) {
    && g.a.strategy == g.b.strategy == AlwaysShuffle
    && g.a.NCards() > 0 && g.b.NCards() > 0 && (g.a.hand == [] || g.b.hand == [])
  }

  /** The next round starts with both of them shuffling all their cards. */
  function Refilled(g: Game, f: Shuffler): Game {
    g.(a := Seat(AlwaysShuffle, f(g.shuffles, g.a.hand + g.a.pile), []),
       b := Seat(AlwaysShuffle, f(g.shuffles + 1, g.b.hand + g.b.pile), []),
       shuffles := g.shuffles + 2)
  }

  lemma RefillDecides(g: Game, f: Shuffler)
    requires Dry(g)
    ensures var h := Refilled(g, f);
            && h.a.hand != [] && h.b.hand != []
            && Decide(g.a, g.b, 1, f, g.shuffles) == (h.a, h.b, h.shuffles) == Decide(h.a, h.b, 1, f, h.shuffles)
  {
    assert |f(g.shuffles, g.a.hand + g.a.pile)| > 0 && |f(g.shuffles + 1, g.b.hand + g.b.pile)| > 0;
  }

  lemma SameDecision(g: Game, h: Game, f: Shuffler, coin: Coins)
    requires g.a.NCards() > 0 && g.b.NCards() > 0 && h.a.NCards() > 0 && h.b.NCards() > 0
    requires Decide(g.a, g.b, 1, f, g.shuffles) == Decide(h.a, h.b, 1, f, h.shuffles)
    requires g.flips == h.flips && g.lost1 == h.lost1 && g.lost2 == h.lost2 && g.hands == h.hands
    ensures Round(g, f, coin) == Round(h, f, coin)
  {
    hide Decide, Play;
  }

  lemma RefillHappens(g: Game, f: Shuffler, coin: Coins, allowance: nat)
    requires Dry(g) && allowance > 0
    ensures Run(g, f, coin, allowance) == Run(Refilled(g, f), f, coin, allowance)
  {
    hide Run, Round;
    var h := Refilled(g, f);
    RefillDecides(g, f);
    SameDecision(g, h, f, coin);
    RunUnfolds(g, f, coin, allowance);
    RunUnfolds(h, f, coin, allowance);
  }

  // ----- games that stay open

  /** No winner, and not because the last round went unseen. */
  predicate Undecided(e: Ending) {
    e.winner == None && e.game.a.NCards() > 0 && e.game.b.NCards() > 0
  }

  /** What is undecided was so before. */
  lemma UndecidedBefore(g: Game, f: Shuffler, coin: Coins, allowance: nat, extra: nat)
    requires Undecided(Run(g, f, coin, allowance + extra))
    ensures Undecided(Run(g, f, coin, allowance))
  {
    hide Run, Round;
    LongerGames(g, f, coin, allowance, extra);
    var e := Run(g, f, coin, allowance);
    if extra > 0 && e.winner == None && (e.game.a.NCards() == 0 || e.game.b.NCards() == 0) {
      RunStops(e.game, f, coin, extra);
    }
  }

  lemma StillUndecided(g: Game, f: Shuffler, coin: Coins, m: nat, n: nat)
    requires Run(g, f, coin, m).winner == None
    requires Undecided(Run(Run(g, f, coin, m).game, f, coin, n))
    ensures Undecided(Run(g, f, coin, m + n))
  {
    hide Run;
    LongerGames(g, f, coin, m, n);
  }

  // ----- prescribed orders

  /** Two lists of the same cards. */
  ghost predicate SameCards(s: seq<Card>, t: seq<Card>) {
    forall r: Card :: Count(s, r) == Count(t, r)
  }

  /** Puts a list of the cards of `target` in that order, and leaves others alone. */
  function Steer(target: seq<Card>, s: seq<Card>): seq<Card> {
    if multiset(s) == multiset(target) then target else s
  }

  lemma SteerPermutes(target: seq<Card>, s: seq<Card>)
    ensures |Steer(target, s)| == |s| && SameCards(Steer(target, s), s)
  {
    hide Count;
    assert |multiset(s)| == |s| && |multiset(target)| == |target|;
    forall r: Card
      ensures Count(Steer(target, s), r) == Count(s, r)
    {
      CountIsMultiplicity(s, r);
      CountIsMultiplicity(target, r);
    }
  }

  lemma Steering(target: seq<Card>, s: seq<Card>)
    requires SameCards(s, target)
    ensures Steer(target, s) == target
  {
    hide Count;
    forall r: Card
      ensures multiset(s)[r] == multiset(target)[r]
    {
      CountIsMultiplicity(s, r);
      CountIsMultiplicity(target, r);
    }
    assert multiset(s) == multiset(target);
  }

  /** The shuffler that steers draw `k` to `targets(k)`. */
  function Steered(targets: nat -> seq<Card>): (f: Shuffler)
    ensures forall k: nat, s: seq<Card> :: f(k, s) == Steer(targets(k), s)
  {
    var f := (k: nat, s: seq<Card>) => Steer(targets(k), s);
    SteeredPermutes(f, targets);
    f
  }

  lemma SteeredPermutes(f: (nat, seq<Card>) -> seq<Card>, targets: nat -> seq<Card>)
    requires forall k: nat, s: seq<Card> :: f(k, s) == Steer(targets(k), s)
    ensures Permutes(f)
  {
    hide Steer, Count;
    forall k: nat, s: seq<Card>
      ensures |f(k, s)| == |s| && forall r: Card :: Count(f(k, s), r) == Count(s, r)
    {
      SteerPermutes(targets(k), s);
    }
  }
}
