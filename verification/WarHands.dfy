/** What one call of `play_hand` does, on values.

    The recursion is split in two.  `Descend` walks inwards through the wars
    until a battle is decided; it is all that the winner depends on.  `Payout`
    is what the winner then collects, innermost battle first.  The laws below
    hold for all hands, strategies, shuffles and coins. */
module WarHands {
  import opened CardTable

  datatype Winner = One | Two | None

  const WAR_SIZE: nat := 4

  /** Two flipped cards, and what each player lays face down if they tie. */
  datatype Battle = Battle(c1: Card, c2: Card, dump1: seq<Card>, dump2: seq<Card>)

  /** The battles fought, outermost first, and the seats when no cards are left to lay down. */
  datatype Descent = Descent(battles: seq<Battle>, a: Seat, b: Seat, shuffles: nat)

  function Min(x: nat, y: nat): nat { if x < y then x else y }

  /** Number of cards a war takes from a seat. */
  function Stake(s: Seat): nat { Min(WAR_SIZE, |s.hand|) }

  /** Cards left after `wars` wars for a player who held `n`. */
  function Left(n: nat, wars: nat): nat {
    if n <= WAR_SIZE * wars then 0 else n - WAR_SIZE * wars
  }

  function Dump(s: Seat): seq<Card>
    requires s.hand != []
  {
    s.hand[..Stake(s) - 1]
  }

  function Flip(s: Seat): Card
    requires s.hand != []
  {
    s.hand[Stake(s) - 1]
  }

  function AfterStake(s: Seat): Seat {
    s.(hand := s.hand[Stake(s)..])
  }

  predicate AtWar(c1: Card, c2: Card, a: Seat, b: Seat) {
    c1 == c2 && a.NCards() > 0 && b.NCards() > 0
  }

  /** One war's stakes: what is laid face down, the new flips, and what remains. */
  datatype Stakes = Stakes(dump1: seq<Card>, dump2: seq<Card>, flip1: Card, flip2: Card,
                           a: Seat, b: Seat, shuffles: nat)

  function LayDown(a: Seat, b: Seat, f: Shuffler, k: nat): (w: Stakes)
    requires a.NCards() > 0 && b.NCards() > 0
    ensures w.a.NCards() == Left(a.NCards(), 1) && w.b.NCards() == Left(b.NCards(), 1)
  {
    DecideKeepsCards(a, b, WAR_SIZE, f, k, 0);
    var (a', b', k') := Decide(a, b, WAR_SIZE, f, k);
    Stakes(Dump(a'), Dump(b'), Flip(a'), Flip(b'), AfterStake(a'), AfterStake(b'), k')
  }

  function Descend(c1: Card, c2: Card, a: Seat, b: Seat, f: Shuffler, k: nat): (d: Descent)
    ensures d.battles != [] && d.battles[0].c1 == c1 && d.battles[0].c2 == c2
    decreases a.NCards() + b.NCards()
  {
    if AtWar(c1, c2, a, b) then
      var w := LayDown(a, b, f, k);
      var inner := Descend(w.flip1, w.flip2, w.a, w.b, f, w.shuffles);
      inner.(battles := [Battle(c1, c2, w.dump1, w.dump2)] + inner.battles)
    else
      Descent([Battle(c1, c2, [], [])], a, b, k)
  }

  function Last(d: Descent): Battle
    requires d.battles != []
  {
    d.battles[|d.battles| - 1]
  }

  /** The last battle decides by its flips.  On a tie a player has run out of
      cards, and player one is looked at first. */
  function Decision(d: Descent): Winner
    requires d.battles != []
  {
    var last := Last(d);
    if last.c1 > last.c2 then One
    else if last.c1 < last.c2 then Two
    else if d.a.NCards() == 0 then Two
    else One
  }

  /** Cards collected by the winner, in order, with the draws made meanwhile. */
  datatype Collected = Collected(cards: seq<Card>, shuffles: nat, flips: nat)

  function Pair(x: Battle, swap: bool): seq<Card> {
    if swap then [x.c2, x.c1] else [x.c1, x.c2]
  }

  function Payout(battles: seq<Battle>, f: Shuffler, k: nat, coin: Coins, j: nat): Collected
    requires battles != []
  {
    var x := battles[0];
    if |battles| == 1 then
      if x.c1 == x.c2 then Collected(Pair(x, false), k, j)
      else Collected(Pair(x, coin(j)), k, j + 1)
    else
      var inner := Payout(battles[1..], f, k, coin, j);
      Collected(inner.cards + f(inner.shuffles, x.dump1 + x.dump2) + Pair(x, coin(inner.flips)),
                inner.shuffles + 1, inner.flips + 1)
  }

  /** Dumped cards of each side in the order they are recorded as lost. */
  function Lost1(battles: seq<Battle>): seq<Card> {
    if |battles| <= 1 then [] else Lost1(battles[1..]) + battles[0].dump1
  }

  function Lost2(battles: seq<Battle>): seq<Card> {
    if |battles| <= 1 then [] else Lost2(battles[1..]) + battles[0].dump2
  }

  function Gain(s: Seat, cards: seq<Card>): Seat { s.(pile := s.pile + cards) }

  /** Everything one call of `play_hand` changes. */
  datatype Outcome = Outcome(winner: Winner, a: Seat, b: Seat, lost1: seq<Card>, lost2: seq<Card>,
                             hands: nat, shuffles: nat, flips: nat)

  function Play(c1: Card, c2: Card, a: Seat, b: Seat, f: Shuffler, k: nat, coin: Coins, j: nat): Outcome {
    var d := Descend(c1, c2, a, b, f, k);
    var pay := Payout(d.battles, f, d.shuffles, coin, j);
    if Decision(d) == One then
      Outcome(One, Gain(d.a, pay.cards), d.b, [], Lost2(d.battles), |d.battles|, pay.shuffles, pay.flips)
    else
      Outcome(Two, d.a, Gain(d.b, pay.cards), Lost1(d.battles), [], |d.battles|, pay.shuffles, pay.flips)
  }

  /** A hand without a war. */
  lemma PlayAtOnce(c1: Card, c2: Card, a: Seat, b: Seat, f: Shuffler, k: nat, coin: Coins, j: nat)
    requires !AtWar(c1, c2, a, b)
    ensures var o := Play(c1, c2, a, b, f, k, coin, j);
            var swap := c1 != c2 && coin(j);
            var cards := if swap then [c2, c1] else [c1, c2];
            && o.winner == (if c1 > c2 then One else if c1 < c2 || a.NCards() == 0 then Two else One)
            && o.a == (if o.winner == One then Gain(a, cards) else a)
            && o.b == (if o.winner == Two then Gain(b, cards) else b)
            && o.lost1 == [] && o.lost2 == [] && o.hands == 1
            && o.shuffles == k && o.flips == if c1 == c2 then j else j + 1
  {
  }

  /** A hand that goes to war, from the hand played for the war's flips. */
  lemma PlayAWar(c: Card, a: Seat, b: Seat, f: Shuffler, k: nat, coin: Coins, j: nat)
    requires a.NCards() > 0 && b.NCards() > 0
    ensures var w := LayDown(a, b, f, k);
            var i := Play(w.flip1, w.flip2, w.a, w.b, f, w.shuffles, coin, j);
            var cards := f(i.shuffles, w.dump1 + w.dump2) + [c, c];
            && i.winner != None
            && (if i.winner == One then i.lost1 else i.lost2) == []
            && Play(c, c, a, b, f, k, coin, j)
               == if i.winner == One then
                    Outcome(One, Gain(i.a, cards), i.b, [], i.lost2 + w.dump2, i.hands + 1, i.shuffles + 1, i.flips + 1)
                  else
                    Outcome(Two, i.a, Gain(i.b, cards), i.lost1 + w.dump1, [], i.hands + 1, i.shuffles + 1, i.flips + 1)
  {
    hide LayDown, Descend, Lost1, Lost2;
    var w := LayDown(a, b, f, k);
    DescendUnfolds(c, c, a, b, f, k);
    var d := Descend(c, c, a, b, f, k);
    var i := Play(w.flip1, w.flip2, w.a, w.b, f, w.shuffles, coin, j);
    assert d.battles[0] == Battle(c, c, w.dump1, w.dump2);
    assert Lost1(d.battles) == Lost1(d.battles[1..]) + w.dump1 by { LostUnfolds(d.battles); }
    assert Lost2(d.battles) == Lost2(d.battles[1..]) + w.dump2 by { LostUnfolds(d.battles); }
    var inner := Payout(d.battles[1..], f, d.shuffles, coin, j);
    var cards := f(i.shuffles, w.dump1 + w.dump2) + [c, c];
    assert Payout(d.battles, f, d.shuffles, coin, j)
        == Collected(inner.cards + f(inner.shuffles, w.dump1 + w.dump2) + [c, c], inner.shuffles + 1, inner.flips + 1);
    GainTwice(d.a, inner.cards, f(inner.shuffles, w.dump1 + w.dump2), [c, c]);
    GainTwice(d.b, inner.cards, f(inner.shuffles, w.dump1 + w.dump2), [c, c]);
  }

  lemma LostUnfolds(battles: seq<Battle>)
    requires |battles| > 1
    ensures Lost1(battles) == Lost1(battles[1..]) + battles[0].dump1
    ensures Lost2(battles) == Lost2(battles[1..]) + battles[0].dump2
  {
  }

  lemma GainTwice(s: Seat, x: seq<Card>, y: seq<Card>, z: seq<Card>)
    ensures Gain(s, x + y + z) == Gain(Gain(s, x), y + z)
  {
    assert s.pile + (x + y + z) == (s.pile + x) + (y + z);
  }

  // ----- what a descent takes from the players

  /** Cards each side puts on the table in wars: its dumps and its later flips. */
  function Staked1(battles: seq<Battle>): seq<Card> {
    if |battles| <= 1 then [] else battles[0].dump1 + [battles[1].c1] + Staked1(battles[1..])
  }

  function Staked2(battles: seq<Battle>): seq<Card> {
    if |battles| <= 1 then [] else battles[0].dump2 + [battles[1].c2] + Staked2(battles[1..])
  }

  lemma CountAppend3(s: seq<Card>, t: seq<Card>, u: seq<Card>, r: Card)
    ensures Count(s + t + u, r) == Count(s, r) + Count(t, r) + Count(u, r)
  {
    CountAppend(s, t, r);
    CountAppend(s + t, u, r);
  }

  lemma StakedUnfolds(battles: seq<Battle>, r: Card)
    requires |battles| > 1
    ensures var inner := battles[1..];
            && Count(Staked1(battles), r) == Count(battles[0].dump1, r) + Is(inner[0].c1, r) + Count(Staked1(inner), r)
            && Count(Staked2(battles), r) == Count(battles[0].dump2, r) + Is(inner[0].c2, r) + Count(Staked2(inner), r)
            && |Staked1(battles)| == |battles[0].dump1| + 1 + |Staked1(inner)|
            && |Staked2(battles)| == |battles[0].dump2| + 1 + |Staked2(inner)|
  {
    CountAppend3(battles[0].dump1, [battles[1].c1], Staked1(battles[1..]), r);
    CountAppend3(battles[0].dump2, [battles[1].c2], Staked2(battles[1..]), r);
  }

  lemma StakeSplits(s: Seat, r: Card)
    requires s.hand != []
    ensures s.Copies(r) == Count(Dump(s), r) + Is(Flip(s), r) + AfterStake(s).Copies(r)
    ensures AfterStake(s).NCards() == s.NCards() - Stake(s)
  {
    assert s.hand == Dump(s) + [Flip(s)] + s.hand[Stake(s)..];
    CountAppend3(Dump(s), [Flip(s)], s.hand[Stake(s)..], r);
  }

  lemma LayDownKeepsCards(a: Seat, b: Seat, f: Shuffler, k: nat, r: Card)
    requires a.NCards() > 0 && b.NCards() > 0
    ensures var w := LayDown(a, b, f, k);
            && a.Copies(r) == Count(w.dump1, r) + Is(w.flip1, r) + w.a.Copies(r)
            && b.Copies(r) == Count(w.dump2, r) + Is(w.flip2, r) + w.b.Copies(r)
            && w.a.strategy == a.strategy && w.b.strategy == b.strategy
            && a.NCards() == |w.dump1| + 1 + w.a.NCards()
            && b.NCards() == |w.dump2| + 1 + w.b.NCards()
  {
    hide Decide, Seat.Copies;
    var (a', b', _) := Decide(a, b, WAR_SIZE, f, k);
    DecideKeepsCards(a, b, WAR_SIZE, f, k, r);
    StakeSplits(a', r);
    StakeSplits(b', r);
  }

  /** Which cards go where: of the cards `x` that a player has to draw from after the
      decision, the last one drawn is the flip, those before it lie face down, and the
      rest stays; there are four to draw if the player has so many. */
  lemma LayDownExactly(a: Seat, b: Seat, f: Shuffler, k: nat)
    requires a.NCards() > 0 && b.NCards() > 0
    ensures var w := LayDown(a, b, f, k);
            var (a', b', k') := Decide(a, b, 4, f, k);
            var x, y := a'.hand, b'.hand;
            var m, n := Min(4, |x|), Min(4, |y|);
            && m > 0 && w.dump1 == x[..m - 1] && w.flip1 == x[m - 1] && w.a == Seat(a'.strategy, x[m..], a'.pile)
            && n > 0 && w.dump2 == y[..n - 1] && w.flip2 == y[n - 1] && w.b == Seat(b'.strategy, y[n..], b'.pile)
            && w.shuffles == k'
  {
    DecideKeepsCards(a, b, 4, f, k, 0);
    hide Decide;
  }

  /** The cards a player who only combines draws a war's stake from. */
  function ToDraw(s: Seat): seq<Card> {
    if |s.hand| < 4 then s.hand + s.pile else s.hand
  }

  /** The same for players who only combine, with no decision left in it. */
  lemma LayDownOfCombiners(a: Seat, b: Seat, f: Shuffler, k: nat)
    requires a.NCards() > 0 && b.NCards() > 0 && a.strategy == b.strategy == CombineOnly
    ensures var w := LayDown(a, b, f, k);
            var x, y := ToDraw(a), ToDraw(b);
            var m, n := Min(4, |x|), Min(4, |y|);
            && m > 0 && w.dump1 == x[..m - 1] && w.flip1 == x[m - 1] && w.a.hand == x[m..]
            && n > 0 && w.dump2 == y[..n - 1] && w.flip2 == y[n - 1] && w.b.hand == y[n..]
            && w.shuffles == k
  {
    LayDownExactly(a, b, f, k);
    CombinerReady(a, f, k);
    CombinerReady(b, f, k);
    hide ApplyStrategy;
  }

  lemma CombinerReady(s: Seat, f: Shuffler, k: nat)
    requires s.strategy == CombineOnly
    ensures ApplyStrategy(s, 4, f, k) == (ApplyStrategy(s, 4, f, k).0, k)
    ensures ApplyStrategy(s, 4, f, k).0.hand == ToDraw(s)
  {
    assert s.pile == [] ==> s.hand + s.pile == s.hand;
  }

  lemma DescendUnfolds(c1: Card, c2: Card, a: Seat, b: Seat, f: Shuffler, k: nat)
    requires AtWar(c1, c2, a, b)
    ensures var w := LayDown(a, b, f, k);
            var d := Descend(c1, c2, a, b, f, k);
            var inner := Descend(w.flip1, w.flip2, w.a, w.b, f, w.shuffles);
            && d.battles == [Battle(c1, c2, w.dump1, w.dump2)] + inner.battles
            && d.battles[1..] == inner.battles
            && d.a == inner.a && d.b == inner.b && d.shuffles == inner.shuffles
  {
    hide LayDown;
  }

  /** Nothing is lost on the way down. */
  lemma {:induction false} DescendKeepsCards(c1: Card, c2: Card, a: Seat, b: Seat, f: Shuffler, k: nat, r: Card)
    ensures var d := Descend(c1, c2, a, b, f, k);
            && a.Copies(r) == d.a.Copies(r) + Count(Staked1(d.battles), r)
            && b.Copies(r) == d.b.Copies(r) + Count(Staked2(d.battles), r)
            && a.NCards() == d.a.NCards() + |Staked1(d.battles)|
            && b.NCards() == d.b.NCards() + |Staked2(d.battles)|
            && d.a.strategy == a.strategy && d.b.strategy == b.strategy
    decreases a.NCards() + b.NCards()
  {
    if AtWar(c1, c2, a, b) {
      hide LayDown, Descend, Staked1, Staked2, Seat.Copies;
      var w := LayDown(a, b, f, k);
      LayDownKeepsCards(a, b, f, k, r);
      DescendUnfolds(c1, c2, a, b, f, k);
      StakedUnfolds(Descend(c1, c2, a, b, f, k).battles, r);
      DescendKeepsCards(w.flip1, w.flip2, w.a, w.b, f, w.shuffles, r);
    }
  }

  /** Each war takes exactly min(4, ncards) cards from each player, there is no
      war unless both still had cards, and only an empty seat settles a tie. */
  lemma {:induction false} DescendCounts(c1: Card, c2: Card, a: Seat, b: Seat, f: Shuffler, k: nat)
    ensures var d := Descend(c1, c2, a, b, f, k);
            var wars := |d.battles| - 1;
            && d.a.NCards() == Left(a.NCards(), wars)
            && d.b.NCards() == Left(b.NCards(), wars)
            && (wars > 0 ==> WAR_SIZE * (wars - 1) < Min(a.NCards(), b.NCards()))
            && (Last(d).c1 == Last(d).c2 ==> d.a.NCards() == 0 || d.b.NCards() == 0)
    decreases a.NCards() + b.NCards()
  {
    if AtWar(c1, c2, a, b) {
      hide LayDown, Descend;
      var w := LayDown(a, b, f, k);
      DescendUnfolds(c1, c2, a, b, f, k);
      DescendCounts(w.flip1, w.flip2, w.a, w.b, f, w.shuffles);
    }
  }

  /** Recorded losses are staked cards; all but one flip a war are recorded. */
  lemma {:induction false} LostIsStaked(battles: seq<Battle>, r: Card)
    requires battles != []
    ensures Count(Lost1(battles), r) <= Count(Staked1(battles), r)
    ensures Count(Lost2(battles), r) <= Count(Staked2(battles), r)
    ensures |Lost1(battles)| == |Staked1(battles)| - (|battles| - 1)
    ensures |Lost2(battles)| == |Staked2(battles)| - (|battles| - 1)
  {
    if |battles| > 1 {
      hide Staked1, Staked2;
      StakedUnfolds(battles, r);
      LostIsStaked(battles[1..], r);
      CountAppend(Lost1(battles[1..]), battles[0].dump1, r);
      CountAppend(Lost2(battles[1..]), battles[0].dump2, r);
    }
  }

  lemma PairCount(x: Battle, swap: bool, r: Card)
    ensures Count(Pair(x, swap), r) == Is(x.c1, r) + Is(x.c2, r)
  {
    CountAppend([x.c1], [x.c2], r);
    CountAppend([x.c2], [x.c1], r);
    assert [x.c1] + [x.c2] == [x.c1, x.c2] && [x.c2] + [x.c1] == [x.c2, x.c1];
  }

  lemma PayoutUnfolds(battles: seq<Battle>, f: Shuffler, k: nat, coin: Coins, j: nat, r: Card)
    requires |battles| > 1
    ensures var x := battles[0];
            var inner := Payout(battles[1..], f, k, coin, j).cards;
            var all := Payout(battles, f, k, coin, j).cards;
            && Count(all, r) == Count(inner, r) + Count(x.dump1, r) + Count(x.dump2, r) + Is(x.c1, r) + Is(x.c2, r)
            && |all| == |inner| + |x.dump1| + |x.dump2| + 2
  {
    var x := battles[0];
    var inner := Payout(battles[1..], f, k, coin, j);
    var pair := Pair(x, coin(inner.flips));
    CountAppend(x.dump1, x.dump2, r);
    PairCount(x, coin(inner.flips), r);
    CountAppend3(inner.cards, f(inner.shuffles, x.dump1 + x.dump2), pair, r);
  }

  /** The winner collects every card on the table, once. */
  lemma {:induction false} PayoutIsThePot(battles: seq<Battle>, f: Shuffler, k: nat, coin: Coins, j: nat, r: Card)
    requires battles != []
    ensures var cards := Payout(battles, f, k, coin, j).cards;
            && Count(cards, r) == Is(battles[0].c1, r) + Is(battles[0].c2, r)
                                + Count(Staked1(battles), r) + Count(Staked2(battles), r)
            && |cards| == 2 + |Staked1(battles)| + |Staked2(battles)|
  {
    if |battles| == 1 {
      PairCount(battles[0], false, r);
      PairCount(battles[0], coin(j), r);
    } else {
      hide Payout, Staked1, Staked2;
      PayoutUnfolds(battles, f, k, coin, j, r);
      StakedUnfolds(battles, r);
      PayoutIsThePot(battles[1..], f, k, coin, j, r);
    }
  }

  // ----- laws of one hand

  /** The whole outcome in terms of the descent. */
  lemma HandSettles(c1: Card, c2: Card, a: Seat, b: Seat, f: Shuffler, k: nat, coin: Coins, j: nat, r: Card)
    ensures var o := Play(c1, c2, a, b, f, k, coin, j);
            var d := Descend(c1, c2, a, b, f, k);
            var s, t := Staked1(d.battles), Staked2(d.battles);
            var pot := Is(c1, r) + Is(c2, r) + Count(s, r) + Count(t, r);
            && (o.winner == One || o.winner == Two)
            && o.a.Copies(r) == d.a.Copies(r) + (if o.winner == One then pot else 0)
            && o.b.Copies(r) == d.b.Copies(r) + (if o.winner == Two then pot else 0)
            && o.a.NCards() == d.a.NCards() + (if o.winner == One then 2 + |s| + |t| else 0)
            && o.b.NCards() == d.b.NCards() + (if o.winner == Two then 2 + |s| + |t| else 0)
            && a.Copies(r) == d.a.Copies(r) + Count(s, r) && a.NCards() == d.a.NCards() + |s|
            && b.Copies(r) == d.b.Copies(r) + Count(t, r) && b.NCards() == d.b.NCards() + |t|
            && o.a.strategy == a.strategy && o.b.strategy == b.strategy
  {
    hide Descend, Payout, Staked1, Staked2;
    var d := Descend(c1, c2, a, b, f, k);
    DescendKeepsCards(c1, c2, a, b, f, k, r);
    PayoutIsThePot(d.battles, f, d.shuffles, coin, j, r);
    var pay := Payout(d.battles, f, d.shuffles, coin, j).cards;
    CountAppend(d.a.pile, pay, r);
    CountAppend(d.b.pile, pay, r);
  }

  /** Conservation, rank by rank: a hand always has a winner; the loser keeps a
      part of its own cards, and the winner holds its own, both flips and all the
      loser gave up. */
  lemma HandConservesCards(c1: Card, c2: Card, a: Seat, b: Seat, f: Shuffler, k: nat, coin: Coins, j: nat, r: Card)
    ensures var o := Play(c1, c2, a, b, f, k, coin, j);
            var flips := Is(c1, r) + Is(c2, r);
            && o.winner != None
            && o.a.Copies(r) + o.b.Copies(r) == a.Copies(r) + b.Copies(r) + flips
            && (o.winner == One ==>
                 && o.b.Copies(r) <= b.Copies(r)
                 && o.a.Copies(r) == a.Copies(r) + flips + (b.Copies(r) - o.b.Copies(r)))
            && (o.winner == Two ==>
                 && o.a.Copies(r) <= a.Copies(r)
                 && o.b.Copies(r) == b.Copies(r) + flips + (a.Copies(r) - o.a.Copies(r)))
            && o.a.strategy == a.strategy && o.b.strategy == b.strategy
  {
    hide Descend, Play, Seat.Copies;
    HandSettles(c1, c2, a, b, f, k, coin, j, r);
  }

  /** Accounting: the loser of a hand with `hands - 1` wars gives up exactly four
      cards a war until it runs dry; all of them but one flip a war are recorded
      as lost, and nothing is recorded for the winner. */
  lemma HandAccounting(c1: Card, c2: Card, a: Seat, b: Seat, f: Shuffler, k: nat, coin: Coins, j: nat, r: Card)
    ensures var o := Play(c1, c2, a, b, f, k, coin, j);
            var wars := o.hands - 1;
            && (o.winner == One ==>
                 && o.lost1 == [] && Count(o.lost2, r) <= b.Copies(r) - o.b.Copies(r)
                 && |o.lost2| == b.NCards() - o.b.NCards() - wars
                 && o.b.NCards() == Left(b.NCards(), wars)
                 && o.a.NCards() == a.NCards() + 2 + (b.NCards() - o.b.NCards()))
            && (o.winner == Two ==>
                 && o.lost2 == [] && Count(o.lost1, r) <= a.Copies(r) - o.a.Copies(r)
                 && |o.lost1| == a.NCards() - o.a.NCards() - wars
                 && o.a.NCards() == Left(a.NCards(), wars)
                 && o.b.NCards() == b.NCards() + 2 + (a.NCards() - o.a.NCards()))
  {
    hide Descend, Payout, Staked1, Staked2, Lost1, Lost2, Seat.Copies, Seat.NCards, Gain;
    HandSettles(c1, c2, a, b, f, k, coin, j, r);
    DescendCounts(c1, c2, a, b, f, k);
    LostIsStaked(Descend(c1, c2, a, b, f, k).battles, r);
  }

  function CeilDiv4(n: nat): nat { (n + 3) / 4 }

  /** A hand counts at least one and at most 1 + ceil(min / 4) battles, exactly
      one when there is no war; a hand settled by a tie has emptied the loser. */
  lemma WarDepth(c1: Card, c2: Card, a: Seat, b: Seat, f: Shuffler, k: nat, coin: Coins, j: nat)
    ensures var o := Play(c1, c2, a, b, f, k, coin, j);
            var last := Last(Descend(c1, c2, a, b, f, k));
            && 1 <= o.hands <= 1 + CeilDiv4(Min(a.NCards(), b.NCards()))
            && (o.hands == 1 <==> c1 != c2 || a.NCards() == 0 || b.NCards() == 0)
            && (last.c1 > last.c2 ==> o.winner == One)
            && (last.c1 < last.c2 ==> o.winner == Two)
            && (last.c1 == last.c2 ==> (if o.winner == One then o.b else o.a).NCards() == 0)
  {
    DescendCounts(c1, c2, a, b, f, k);
  }

  /** Every card of the seat has rank `c`. */
  ghost predicate OnlyCard(s: Seat, c: Card) {
    forall r: Card :: s.Copies(r) > 0 ==> r == c
  }

  lemma LayDownOnlyCard(c: Card, a: Seat, b: Seat, f: Shuffler, k: nat)
    requires a.NCards() > 0 && b.NCards() > 0 && OnlyCard(a, c) && OnlyCard(b, c)
    ensures var w := LayDown(a, b, f, k);
            w.flip1 == w.flip2 == c && OnlyCard(w.a, c) && OnlyCard(w.b, c)
  {
    hide LayDown, Seat.Copies;
    var w := LayDown(a, b, f, k);
    LayDownKeepsCards(a, b, f, k, w.flip1);
    LayDownKeepsCards(a, b, f, k, w.flip2);
    forall r: Card
      ensures (w.a.Copies(r) > 0 ==> r == c) && (w.b.Copies(r) > 0 ==> r == c)
    {
      LayDownKeepsCards(a, b, f, k, r);
    }
  }

  /** The bound is the best possible: players holding one rank only tie to the end,
      in the last battle too. */
  lemma {:induction false} WarDepthIsReached(c: Card, a: Seat, b: Seat, f: Shuffler, k: nat)
    requires OnlyCard(a, c) && OnlyCard(b, c)
    ensures var d := Descend(c, c, a, b, f, k);
            |d.battles| == 1 + CeilDiv4(Min(a.NCards(), b.NCards())) && Last(d).c1 == Last(d).c2
    decreases a.NCards() + b.NCards()
  {
    if a.NCards() > 0 && b.NCards() > 0 {
      hide LayDown, Descend, OnlyCard;
      var w := LayDown(a, b, f, k);
      LayDownOnlyCard(c, a, b, f, k);
      DescendUnfolds(c, c, a, b, f, k);
      WarDepthIsReached(c, w.a, w.b, f, w.shuffles);
    }
  }

  function Mirror(w: Winner): Winner {
    match w case One => Two case Two => One case None => None
  }

  /** One war between players who only combine, in terms of their cards alone. */
  lemma OneWar(c: Card, a: Seat, b: Seat, f: Shuffler, k: nat, coin: Coins, j: nat)
    requires a.NCards() > 0 && b.NCards() > 0 && a.strategy == b.strategy == CombineOnly
    ensures var x, y := ToDraw(a), ToDraw(b);
            var m, n := Min(4, |x|), Min(4, |y|);
            var o := Play(c, c, a, b, f, k, coin, j);
            && x != [] && y != []
            && (x[m - 1] > y[n - 1] ==>
                 && o.winner == One && o.hands == 2 && o.lost1 == [] && o.lost2 == y[..n - 1]
                 && o.a.hand == x[m..] && o.b.hand == y[n..])
            && (x[m - 1] < y[n - 1] ==>
                 && o.winner == Two && o.hands == 2 && o.lost1 == x[..m - 1] && o.lost2 == []
                 && o.a.hand == x[m..] && o.b.hand == y[n..])
  {
    hide Play, LayDown, ToDraw;
    LayDownOfCombiners(a, b, f, k);
    PlayAWar(c, a, b, f, k, coin, j);
    var w := LayDown(a, b, f, k);
    if w.flip1 != w.flip2 {
      PlayAtOnce(w.flip1, w.flip2, w.a, w.b, f, w.shuffles, coin, j);
    }
  }

  // ----- changing places

  /** From draw `k` on the two shufflers do the same. */
  ghost predicate AgreeFrom(f: Shuffler, g: Shuffler, k: nat) {
    forall i: nat, s: seq<Card> :: i >= k ==> f(i, s) == g(i, s)
  }

  /** A strategy that draws the same shuffle does the same. */
  lemma SameStrategy(s: Seat, n: nat, f: Shuffler, k: nat, g: Shuffler, l: nat)
    requires ApplyStrategy(s, n, f, k).1 == k + 1 ==> forall t: seq<Card> :: f(k, t) == g(l, t)
    ensures ApplyStrategy(s, n, g, l).0 == ApplyStrategy(s, n, f, k).0
    ensures ApplyStrategy(s, n, g, l).1 - l == ApplyStrategy(s, n, f, k).1 - k
  {
    hide Enriched;
  }

  lemma LayDownAgrees(a: Seat, b: Seat, f: Shuffler, g: Shuffler, k: nat)
    requires a.NCards() > 0 && b.NCards() > 0 && AgreeFrom(f, g, k)
    ensures LayDown(a, b, f, k) == LayDown(a, b, g, k)
    ensures AgreeFrom(f, g, LayDown(a, b, f, k).shuffles)
  {
    hide ApplyStrategy;
    var l := ApplyStrategy(a, WAR_SIZE, f, k).1;
    StrategyKeepsCards(a, WAR_SIZE, f, k, 0);
    StrategyKeepsCards(b, WAR_SIZE, f, l, 0);
    SameStrategy(a, WAR_SIZE, f, k, g, k);
    SameStrategy(b, WAR_SIZE, f, l, g, l);
    assert Decide(a, b, WAR_SIZE, f, k) == Decide(a, b, WAR_SIZE, g, k);
  }

  /** A descent makes no use of earlier draws. */
  lemma {:induction false} DescendUsesLaterDraws(c1: Card, c2: Card, a: Seat, b: Seat, f: Shuffler, g: Shuffler, k: nat)
    requires AgreeFrom(f, g, k)
    ensures Descend(c1, c2, a, b, f, k) == Descend(c1, c2, a, b, g, k)
    decreases a.NCards() + b.NCards()
  {
    if AtWar(c1, c2, a, b) {
      hide LayDown, Descend, AgreeFrom;
      var w := LayDown(a, b, f, k);
      LayDownAgrees(a, b, f, g, k);
      DescendUnfolds(c1, c2, a, b, f, k);
      DescendUnfolds(c1, c2, a, b, g, k);
      DescendUsesLaterDraws(w.flip1, w.flip2, w.a, w.b, f, g, w.shuffles);
    } else {
      assert Descend(c1, c2, a, b, f, k) == Descent([Battle(c1, c2, [], [])], a, b, k);
    }
  }

  /** The draw that takes the place of draw `i` when each draw in `first` changes
      places with the next one. */
  function Partner(first: set<nat>, i: nat): nat {
    if i in first then i + 1 else if i > 0 && i - 1 in first then i - 1 else i
  }

  function Reordered(f: Shuffler, first: set<nat>): (g: Shuffler)
    ensures forall i: nat, s: seq<Card> :: g(i, s) == f(Partner(first, i), s)
  {
    var g := (i: nat, s: seq<Card>) => f(Partner(first, i), s);
    assert Permutes(f);
    assert forall i: nat, s: seq<Card> :: g(i, s) == f(Partner(first, i), s);
    assert Permutes(g);
    g
  }

  /** The wars of a hand for which both players shuffle, by player one's draw. */
  function BothShuffle(c1: Card, c2: Card, a: Seat, b: Seat, f: Shuffler, k: nat): (first: set<nat>)
    ensures forall i | i in first :: i >= k && i + 1 !in first
    decreases a.NCards() + b.NCards()
  {
    if AtWar(c1, c2, a, b) then
      var w := LayDown(a, b, f, k);
      DecideKeepsCards(a, b, WAR_SIZE, f, k, 0);
      var inner := BothShuffle(w.flip1, w.flip2, w.a, w.b, f, w.shuffles);
      if w.shuffles == k + 2 then {k} + inner else inner
    else {}
  }

  /** So that it is an exchange: done twice it is undone. */
  lemma ExchangeIsUndone(first: set<nat>, i: nat)
    requires forall i | i in first :: i + 1 !in first
    ensures Partner(first, Partner(first, i)) == i
  {
    if i !in first && i > 0 && i - 1 in first {
      assert Partner(first, i) == i - 1;
    }
  }

  /** The same shuffles for players who changed places: where both shuffle, each
      gets the draw it had. */
  function Exchanged(c1: Card, c2: Card, a: Seat, b: Seat, f: Shuffler, k: nat): Shuffler {
    Reordered(f, BothShuffle(c1, c2, a, b, f, k))
  }

  /** The shuffler `g` gives the second player of a decision at draw `k` what `f`
      gives the first, and the other way round. */
  ghost predicate Exchanges(f: Shuffler, g: Shuffler, k: nat, next: nat) {
    && (next == k + 2 ==> forall s: seq<Card> :: g(k, s) == f(k + 1, s) && g(k + 1, s) == f(k, s))
    && (next == k + 1 ==> forall s: seq<Card> :: g(k, s) == f(k, s))
  }

  lemma DecideMirrors(a: Seat, b: Seat, n: nat, f: Shuffler, g: Shuffler, k: nat)
    requires Exchanges(f, g, k, Decide(a, b, n, f, k).2)
    ensures var (a', b', k') := Decide(a, b, n, f, k);
            Decide(b, a, n, g, k) == (b', a', k')
  {
    var l := ApplyStrategy(a, n, f, k).1;
    if |a.hand| < n || |b.hand| < n {
      StrategyKeepsCards(a, n, f, k, 0);
      StrategyKeepsCards(b, n, f, l, 0);
      hide ApplyStrategy;
      SameStrategy(b, n, f, l, g, k);
      SameStrategy(a, n, f, k, g, ApplyStrategy(b, n, g, k).1);
    }
  }

  lemma LayDownMirrors(a: Seat, b: Seat, f: Shuffler, g: Shuffler, k: nat)
    requires a.NCards() > 0 && b.NCards() > 0 && Exchanges(f, g, k, LayDown(a, b, f, k).shuffles)
    ensures var w := LayDown(a, b, f, k);
            LayDown(b, a, g, k) == Stakes(w.dump2, w.dump1, w.flip2, w.flip1, w.b, w.a, w.shuffles)
  {
    hide Decide, Exchanges;
    DecideMirrors(a, b, WAR_SIZE, f, g, k);
  }

  /** What the exchange does at the first war, and what it leaves for the others. */
  lemma ExchangedAtWar(c1: Card, c2: Card, a: Seat, b: Seat, f: Shuffler, k: nat)
    requires AtWar(c1, c2, a, b)
    ensures var w := LayDown(a, b, f, k);
            var g := Exchanged(c1, c2, a, b, f, k);
            && Exchanges(f, g, k, w.shuffles)
            && AgreeFrom(g, Exchanged(w.flip1, w.flip2, w.a, w.b, f, w.shuffles), w.shuffles)
  {
    hide LayDown;
    var w := LayDown(a, b, f, k);
    LayDownDraws(a, b, f, k);
    var first := BothShuffle(c1, c2, a, b, f, k);
    var inner := BothShuffle(w.flip1, w.flip2, w.a, w.b, f, w.shuffles);
    assert first == if w.shuffles == k + 2 then {k} + inner else inner;
    assert forall i: nat :: i >= w.shuffles ==> Partner(first, i) == Partner(inner, i);
  }

  lemma LayDownDraws(a: Seat, b: Seat, f: Shuffler, k: nat)
    requires a.NCards() > 0 && b.NCards() > 0
    ensures k <= LayDown(a, b, f, k).shuffles <= k + 2
  {
    DecideKeepsCards(a, b, WAR_SIZE, f, k, 0);
    hide Decide;
  }

  function MirrorBattle(x: Battle): Battle { Battle(x.c2, x.c1, x.dump2, x.dump1) }

  function MirrorBattles(battles: seq<Battle>): (m: seq<Battle>)
    ensures |m| == |battles| && forall i | 0 <= i < |m| :: m[i] == MirrorBattle(battles[i])
  {
    seq(|battles|, i requires 0 <= i < |battles| => MirrorBattle(battles[i]))
  }

  function MirrorDescent(d: Descent): Descent { Descent(MirrorBattles(d.battles), d.b, d.a, d.shuffles) }

  /** Players who change places, and keep their shuffles, fight the same battles. */
  lemma {:induction false} DescendMirrors(c1: Card, c2: Card, a: Seat, b: Seat, f: Shuffler, k: nat)
    ensures Descend(c2, c1, b, a, Exchanged(c1, c2, a, b, f, k), k) == MirrorDescent(Descend(c1, c2, a, b, f, k))
    decreases a.NCards() + b.NCards()
  {
    var g := Exchanged(c1, c2, a, b, f, k);
    var d, e := Descend(c1, c2, a, b, f, k), Descend(c2, c1, b, a, g, k);
    if AtWar(c1, c2, a, b) {
      hide LayDown, Descend, Exchanged, Exchanges, AgreeFrom;
      var w := LayDown(a, b, f, k);
      ExchangedAtWar(c1, c2, a, b, f, k);
      LayDownMirrors(a, b, f, g, k);
      DescendUnfolds(c1, c2, a, b, f, k);
      DescendUnfolds(c2, c1, b, a, g, k);
      var h := Exchanged(w.flip1, w.flip2, w.a, w.b, f, w.shuffles);
      DescendUsesLaterDraws(w.flip2, w.flip1, w.b, w.a, g, h, w.shuffles);
      DescendMirrors(w.flip1, w.flip2, w.a, w.b, f, w.shuffles);
      assert e.battles == MirrorBattles(d.battles);
    } else {
      assert e.battles == MirrorBattles(d.battles);
    }
  }

  lemma {:induction false} LossesMirror(battles: seq<Battle>)
    ensures Lost1(MirrorBattles(battles)) == Lost2(battles) && Lost2(MirrorBattles(battles)) == Lost1(battles)
  {
    if |battles| > 1 {
      assert MirrorBattles(battles)[1..] == MirrorBattles(battles[1..]);
      LossesMirror(battles[1..]);
    }
  }

  /** Changing places changes the winner, with one exception: when the deciding
      battle ties and both players are out of cards, player two wins from either
      side.  Either way the hand takes as many battles, and a loser who stays the
      loser loses the same cards. */
  lemma SeatsAreFair(c1: Card, c2: Card, a: Seat, b: Seat, f: Shuffler, k: nat, coin: Coins, j: nat)
    ensures var d := Descend(c1, c2, a, b, f, k);
            var o := Play(c1, c2, a, b, f, k, coin, j);
            var m := Play(c2, c1, b, a, Exchanged(c1, c2, a, b, f, k), k, coin, j);
            && (m.winner == Mirror(o.winner) <==> Last(d).c1 != Last(d).c2 || d.a.NCards() > 0 || d.b.NCards() > 0)
            && m.hands == o.hands
            && (o.winner == One && m.winner == Two ==> m.a == o.b && m.lost1 == o.lost2)
            && (o.winner == Two && m.winner == One ==> m.b == o.a && m.lost2 == o.lost1)
  {
    hide Descend, Exchanged, Lost1, Lost2, Payout;
    DescendCounts(c1, c2, a, b, f, k);
    DescendMirrors(c1, c2, a, b, f, k);
    LossesMirror(Descend(c1, c2, a, b, f, k).battles);
  }

  /** Changing places changes the winner of this hand. */
  predicate Mirrors(c1: Card, c2: Card, a: Seat, b: Seat, f: Shuffler, k: nat) {
    Decision(Descend(c2, c1, b, a, Exchanged(c1, c2, a, b, f, k), k)) == Mirror(Decision(Descend(c1, c2, a, b, f, k)))
  }

  ghost predicate SeatsNeverMatter(m: nat, n: nat) {
    forall c1: Card, c2: Card, a: Seat, b: Seat, f: Shuffler, k: nat ::
      a.NCards() == m && b.NCards() == n ==> Mirrors(c1, c2, a, b, f, k)
  }

  lemma MirrorsBySize(c1: Card, c2: Card, a: Seat, b: Seat, f: Shuffler, k: nat)
    requires CeilDiv4(a.NCards()) != CeilDiv4(b.NCards())
    ensures Mirrors(c1, c2, a, b, f, k)
  {
    hide Descend, Exchanged, Play, Seat.NCards;
    SeatsAreFair(c1, c2, a, b, f, k, (j: nat) => false, 0);
    DescendCounts(c1, c2, a, b, f, k);
    DecisionOfPlay(c1, c2, a, b, f, k);
    DecisionOfPlay(c2, c1, b, a, Exchanged(c1, c2, a, b, f, k), k);
  }

  lemma DecisionOfPlay(c1: Card, c2: Card, a: Seat, b: Seat, f: Shuffler, k: nat)
    ensures Play(c1, c2, a, b, f, k, (j: nat) => false, 0).winner == Decision(Descend(c1, c2, a, b, f, k))
  {
  }

  /** `n` cards of one rank. */
  function Twos(n: nat): (s: seq<Card>)
    ensures |s| == n
  {
    if n == 0 then [] else [2] + Twos(n - 1)
  }

  lemma {:induction false} OnlyTwos(n: nat, r: Card)
    ensures Count(Twos(n), r) == if r == 2 then n else 0
  {
    if n > 0 {
      OnlyTwos(n - 1, r);
    }
  }

  function OneRank(n: nat): (s: Seat)
    ensures s.NCards() == n
  {
    Seat(CombineOnly, Twos(n), [])
  }

  lemma OneRankOnly(n: nat)
    ensures OnlyCard(OneRank(n), 2)
  {
    forall r: Card
      ensures OneRank(n).Copies(r) > 0 ==> r == 2
    {
      OnlyTwos(n, r);
    }
  }

  /** For which holdings the seats can matter at all: exactly for those that the same
      number of wars uses up. */
  lemma SeatsMatterExactly(m: nat, n: nat)
    ensures SeatsNeverMatter(m, n) <==> CeilDiv4(m) != CeilDiv4(n)
  {
    hide Mirrors, Seat.NCards;
    if CeilDiv4(m) != CeilDiv4(n) {
      forall c1: Card, c2: Card, a: Seat, b: Seat, f: Shuffler, k: nat | a.NCards() == m && b.NCards() == n
        ensures Mirrors(c1, c2, a, b, f, k)
      {
        MirrorsBySize(c1, c2, a, b, f, k);
      }
    } else {
      var f: Shuffler := (k: nat, s: seq<Card>) => s;
      OneRankOnly(m);
      OneRankOnly(n);
      OneRankDoesNotMirror(OneRank(m), OneRank(n), f);
      assert !Mirrors(2, 2, OneRank(m), OneRank(n), f, 0);
    }
  }

  lemma OneRankDoesNotMirror(a: Seat, b: Seat, f: Shuffler)
    requires OnlyCard(a, 2) && OnlyCard(b, 2) && CeilDiv4(a.NCards()) == CeilDiv4(b.NCards())
    ensures !Mirrors(2, 2, a, b, f, 0)
  {
    hide Descend, Exchanged, Play, Seat.NCards, OnlyCard;
    WarDepthIsReached(2, a, b, f, 0);
    DescendCounts(2, 2, a, b, f, 0);
    SeatsAreFair(2, 2, a, b, f, 0, (j: nat) => false, 0);
    DecisionOfPlay(2, 2, a, b, f, 0);
    DecisionOfPlay(2, 2, b, a, Exchanged(2, 2, a, b, f, 0), 0);
  }

  // ----- twins

  /** Players who hold the same cards in the same order and only combine. */
  predicate Twins(a: Seat, b: Seat) {
    a == b && a.strategy == CombineOnly && a.pile == []
  }

  lemma LayDownTwins(a: Seat, b: Seat, f: Shuffler, k: nat)
    requires Twins(a, b) && a.NCards() > 0
    ensures var w := LayDown(a, b, f, k);
            w.flip1 == w.flip2 && Twins(w.a, w.b)
  {
  }

  /** They tie until both are out of cards, and player two wins. */
  lemma {:induction false} TwinsTie(c: Card, a: Seat, b: Seat, f: Shuffler, k: nat)
    requires Twins(a, b)
    ensures var d := Descend(c, c, a, b, f, k);
            && |d.battles| == 1 + CeilDiv4(a.NCards())
            && d.a.NCards() == d.b.NCards() == 0 && Last(d).c1 == Last(d).c2
    decreases a.NCards() + b.NCards()
  {
    if a.NCards() > 0 {
      hide LayDown, Descend, Twins;
      assert a == b by { assert Twins(a, b); }
      var w := LayDown(a, b, f, k);
      LayDownTwins(a, b, f, k);
      DescendUnfolds(c, c, a, b, f, k);
      TwinsTie(w.flip1, w.a, w.b, f, w.shuffles);
    }
  }
}
