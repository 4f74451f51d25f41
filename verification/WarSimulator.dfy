/** The simulator itself: players and results updated in place, proved to compute
    the functions of `CardTable`, `WarHands` and `WarGames`. */
module WarSimulator {
  import opened CardTable
  import opened WarHands
  import opened WarGames

  /** The two random sources, `std::shuffle` over one generator and `rand()`. */
  class Randomness {
    const shuffler: Shuffler
    const coin: Coins
    var shuffles: nat
    var flips: nat

    constructor (shuffler: Shuffler, coin: Coins)
      ensures this.shuffler == shuffler && this.coin == coin && shuffles == 0 && flips == 0
    {
      this.shuffler, this.coin := shuffler, coin;
      shuffles, flips := 0, 0;
    }

    method Shuffle(s: seq<Card>) returns (t: seq<Card>)
      modifies this`shuffles
      ensures t == shuffler(old(shuffles), s)
      ensures shuffles == old(shuffles) + 1
    {
      t := shuffler(shuffles, s);
      shuffles := shuffles + 1;
    }

    method Toss() returns (odd: bool)
      modifies this`flips
      ensures odd == coin(old(flips)) && flips == old(flips) + 1
    {
      odd := coin(flips);
      flips := flips + 1;
    }
  }

  class Player {
    var hand: seq<Card>
    var pile: seq<Card>
    const strategy: Strategy

    function Seated(): Seat
      reads this
    {
      Seat(strategy, hand, pile)
    }

    constructor (hand: seq<Card>, strategy: Strategy)
      requires Legal(hand)
      ensures Seated() == Seat(strategy, hand, [])
    {
      this.hand, this.strategy, pile := hand, strategy, [];
    }

    method Draw() returns (card: Card)
      requires hand != []
      modifies this`hand
      ensures card == old(hand)[0] && hand == old(hand)[1..]
    {
      card := hand[0];
      hand := hand[1..];
    }

    method Take(card: Card)
      modifies this`pile
      ensures pile == old(pile) + [card]
    {
      pile := pile + [card];
    }

    method TakeAll(cards: seq<Card>)
      modifies this`pile
      ensures pile == old(pile) + cards
    {
      for i := 0 to |cards|
        invariant pile == old(pile) + cards[..i]
      {
        Take(cards[i]);
      }
    }

    method CombinePile()
      modifies this
      ensures Seated() == old(Seated()).CombinePile()
    {
      hand := hand + pile;
      pile := [];
    }

    method CombineOnlyStrategy(n: nat)
      modifies this
      ensures Seated() == CombineIfShort(old(Seated()), n)
    {
      var combine := |hand| < n && |pile| != 0;
      if combine {
        CombinePile();
      }
    }

    method CombineStrategy(policy: Enrichment, whenEnriched: bool, n: nat, rng: Randomness)
      requires strategy == Combine(policy, whenEnriched)
      modifies this, rng
      ensures (Seated(), rng.shuffles) == old(ApplyStrategy(Seated(), n, rng.shuffler, rng.shuffles))
      ensures rng.flips == old(rng.flips)
    {
      var enrichedHand := Enriched(policy, Seated());
      var shuffle := if whenEnriched then enrichedHand else !enrichedHand;
      var combine := (|hand| < n && pile != []) || shuffle;
      if combine {
        CombinePile();
        if shuffle {
          hand := rng.Shuffle(hand);
        }
      }
    }

    /** The call through the strategy's function pointer. */
    method PlayStrategy(n: nat, rng: Randomness)
      modifies this, rng
      ensures (Seated(), rng.shuffles) == old(ApplyStrategy(Seated(), n, rng.shuffler, rng.shuffles))
      ensures rng.flips == old(rng.flips)
    {
      match strategy
      case CombineAndShuffle =>
        CombineOnlyStrategy(n);
        hand := rng.Shuffle(hand);
      case AlwaysShuffle =>
        CombinePile();
        hand := rng.Shuffle(hand);
      case CombineOnly =>
        CombineOnlyStrategy(n);
      case Combine(policy, whenEnriched) =>
        CombineStrategy(policy, whenEnriched, n, rng);
    }
  }

  method DecideShuffle(p1: Player, p2: Player, n: nat, rng: Randomness)
    requires p1 != p2
    modifies p1, p2, rng
    ensures (p1.Seated(), p2.Seated(), rng.shuffles)
         == old(Decide(p1.Seated(), p2.Seated(), n, rng.shuffler, rng.shuffles))
    ensures rng.flips == old(rng.flips)
    ensures Ready(p1.Seated(), n) && Ready(p2.Seated(), n)
  {
    DecideKeepsCards(p1.Seated(), p2.Seated(), n, rng.shuffler, rng.shuffles, 0);
    if |p1.hand| < n || |p2.hand| < n {
      p1.PlayStrategy(n, rng);
      p2.PlayStrategy(n, rng);
    }
    assert |p1.hand| >= n || |p1.pile| == 0;
    assert |p2.hand| >= n || |p2.pile| == 0;
  }

  /** Cards above 1, as asserted where cards are laid down. */
  ghost predicate Drawable(s: Seat) {
    forall r: Card :: s.Copies(r) > 0 ==> r > 1
  }

  lemma {:induction false} Counted(s: seq<Card>, i: nat)
    requires i < |s|
    ensures Count(s, s[i]) > 0
  {
    if i > 0 {
      Counted(s[1..], i - 1);
    }
  }

  /** The `WarHand` constructor: up to four cards drawn, the last one flipped.
      The flip is 0 exactly when there was nothing to draw. */
  method WarHand(player: Player) returns (dump: seq<Card>, flip: Card)
    requires Drawable(player.Seated())
    modifies player
    ensures player.Seated() == AfterStake(old(player.Seated()))
    ensures old(player.hand) == [] ==> flip == 0 && dump == []
    ensures old(player.hand) != [] ==> flip == Flip(old(player.Seated())) && dump == Dump(old(player.Seated()))
    ensures old(player.hand) != [] ==> flip > 1
  {
    dump, flip := [], 0;
    if |player.hand| >= 1 {
      var dumpSize := Min(4, |player.hand|);
      for i := 0 to dumpSize
        invariant player.pile == old(player.pile)
        invariant player.hand == old(player.hand)[i..]
        invariant dump == old(player.hand)[..i]
        invariant i > 0 ==> dump[i - 1] > 1
      {
        Counted(old(player.hand), i);
        assert old(player.Seated()).Copies(player.hand[0]) > 0;
        var card := player.Draw();
        assert card > 1;
        dump := dump + [card];
      }
      flip := dump[|dump| - 1];
      dump := dump[..|dump| - 1];
    }
  }

  class GameResult {
    var winner: Winner
    var warHandsP1Lost: seq<Card>
    var warHandsP2Lost: seq<Card>
    var nhands: nat

    constructor ()
      ensures winner == None && warHandsP1Lost == [] && warHandsP2Lost == [] && nhands == 0
    {
      winner, warHandsP1Lost, warHandsP2Lost, nhands := None, [], [], 0;
    }
  }

  /** Everything `PlayHand` and `Simulate` can change, as one value. */
  function State(p1: Player, p2: Player, result: GameResult, rng: Randomness): Game
    reads p1, p2, result, rng
  {
    Game(p1.Seated(), p2.Seated(), rng.shuffles, rng.flips,
         result.warHandsP1Lost, result.warHandsP2Lost, result.nhands)
  }

  /** What a settled hand leaves when `cards` go to the winner and the loser's
      dumped cards are recorded. */
  function Award(g: Game, winner: Winner, cards: seq<Card>, dump1: seq<Card>, dump2: seq<Card>): Game {
    match winner
    case One => g.(a := Gain(g.a, cards), lost2 := g.lost2 + dump2)
    case Two => g.(b := Gain(g.b, cards), lost1 := g.lost1 + dump1)
    case None => g
  }

  /** The stakes of a war: a decision with four cards, then one `WarHand` each. */
  method LayDownStakes(p1: Player, p2: Player, rng: Randomness)
    returns (dump1: seq<Card>, flip1: Card, dump2: seq<Card>, flip2: Card)
    requires p1 != p2
    requires Drawable(p1.Seated()) && Drawable(p2.Seated())
    requires p1.Seated().NCards() > 0 && p2.Seated().NCards() > 0
    modifies p1, p2, rng
    ensures Stakes(dump1, dump2, flip1, flip2, p1.Seated(), p2.Seated(), rng.shuffles)
         == old(LayDown(p1.Seated(), p2.Seated(), rng.shuffler, rng.shuffles))
    ensures rng.flips == old(rng.flips)
    ensures flip1 > 0 && flip2 > 0 && Drawable(p1.Seated()) && Drawable(p2.Seated())
  {
    hide Decide, ApplyStrategy, LayDown, Drawable;
    ghost var a, b, f, k := p1.Seated(), p2.Seated(), rng.shuffler, rng.shuffles;
    DecideKeepsCards(a, b, WAR_SIZE, f, k, 0);
    LayDownIs(a, b, f, k);
    DrawableAfter(a, b, f, k);
    DecideShuffle(p1, p2, 4, rng);
    dump1, flip1 := WarHand(p1);
    dump2, flip2 := WarHand(p2);
  }

  lemma LayDownIs(a: Seat, b: Seat, f: Shuffler, k: nat)
    requires a.NCards() > 0 && b.NCards() > 0
    ensures var (a', b', k') := Decide(a, b, WAR_SIZE, f, k);
            && a'.hand != [] && b'.hand != []
            && LayDown(a, b, f, k)
               == Stakes(Dump(a'), Dump(b'), Flip(a'), Flip(b'), AfterStake(a'), AfterStake(b'), k')
  {
    hide Decide;
    DecideKeepsCards(a, b, WAR_SIZE, f, k, 0);
  }

  /** A decision and a war's stakes leave only cards that were there before. */
  lemma DrawableAfter(a: Seat, b: Seat, f: Shuffler, k: nat)
    requires a.NCards() > 0 && b.NCards() > 0 && Drawable(a) && Drawable(b)
    ensures var (a', b', _) := Decide(a, b, WAR_SIZE, f, k);
            Drawable(a') && Drawable(b')
    ensures var w := LayDown(a, b, f, k);
            Drawable(w.a) && Drawable(w.b)
  {
    hide Decide, LayDown, Seat.Copies;
    var (a', b', _) := Decide(a, b, WAR_SIZE, f, k);
    var w := LayDown(a, b, f, k);
    forall r: Card
      ensures a'.Copies(r) == a.Copies(r) && b'.Copies(r) == b.Copies(r)
      ensures w.a.Copies(r) <= a.Copies(r) && w.b.Copies(r) <= b.Copies(r)
    {
      DecideKeepsCards(a, b, WAR_SIZE, f, k, r);
      LayDownKeepsCards(a, b, f, k, r);
    }
  }

  /** The dumped cards of a settled war, shuffled, for the winner. */
  method AwardDumps(winner: Winner, dump1: seq<Card>, dump2: seq<Card>,
                    p1: Player, p2: Player, result: GameResult, rng: Randomness)
    requires p1 != p2 && winner != None
    modifies p1, p2, result, rng
    ensures State(p1, p2, result, rng)
         == var g := old(State(p1, p2, result, rng));
            Award(g, winner, rng.shuffler(g.shuffles, dump1 + dump2), dump1, dump2).(shuffles := g.shuffles + 1)
    ensures result.winner == old(result.winner)
  {
    var cards := rng.Shuffle(dump1 + dump2);
    match winner
    case One =>
      p1.TakeAll(cards);
      result.warHandsP2Lost := result.warHandsP2Lost + dump2;
    case Two =>
      p2.TakeAll(cards);
      result.warHandsP1Lost := result.warHandsP1Lost + dump1;
    case None => assert false;
  }

  /** The two compared cards, in an order chosen by a coin, for the winner. */
  method AwardFlips(winner: Winner, c1: Card, c2: Card,
                    p1: Player, p2: Player, result: GameResult, rng: Randomness)
    requires p1 != p2 && winner != None
    modifies p1, p2, rng
    ensures State(p1, p2, result, rng)
         == var g := old(State(p1, p2, result, rng));
            Award(g, winner, if rng.coin(g.flips) then [c2, c1] else [c1, c2], [], []).(flips := g.flips + 1)
  {
    var card1, card2 := c1, c2;
    var odd := rng.Toss();
    if odd {
      card1, card2 := card2, card1;
    }
    match winner
    case One =>
      p1.Take(card1);
      p1.Take(card2);
    case Two =>
      p2.Take(card1);
      p2.Take(card2);
    case None => assert false;
  }

  /** A hand without a war, recorded, is one award at most. */
  lemma RecordsAtOnce(g: Game, c1: Card, c2: Card, f: Shuffler, coin: Coins)
    requires !AtWar(c1, c2, g.a, g.b)
    ensures var o := Play(c1, c2, g.a, g.b, f, g.shuffles, coin, g.flips);
            var h := g.(hands := g.hands + 1);
            && o.winner == (if c1 > c2 then One else if c1 < c2 || g.a.NCards() == 0 then Two else One)
            && Record(g, o)
            == if c1 == c2 then Award(h, o.winner, [c1, c2], [], [])
               else Award(h, o.winner, if coin(h.flips) then [c2, c1] else [c1, c2], [], []).(flips := h.flips + 1)
  {
    hide Play;
    PlayAtOnce(c1, c2, g.a, g.b, f, g.shuffles, coin, g.flips);
    assert g.lost1 + [] == g.lost1 && g.lost2 + [] == g.lost2;
  }

  /** A war, recorded, is the recorded inner hand and two more awards to its winner. */
  lemma RecordsAWar(g: Game, c: Card, f: Shuffler, coin: Coins)
    requires g.a.NCards() > 0 && g.b.NCards() > 0
    ensures var w := LayDown(g.a, g.b, f, g.shuffles);
            var i := Play(w.flip1, w.flip2, w.a, w.b, f, w.shuffles, coin, g.flips);
            var o := Play(c, c, g.a, g.b, f, g.shuffles, coin, g.flips);
            var h := Record(g.(hands := g.hands + 1), i);
            var dumps := f(h.shuffles, w.dump1 + w.dump2);
            var s := Award(h, i.winner, dumps, w.dump1, w.dump2).(shuffles := h.shuffles + 1);
            && i.winner == o.winner != None
            && Record(g, o) == Award(s, i.winner, [c, c], [], []).(flips := s.flips + 1)
  {
    hide Play, LayDown;
    PlayAWar(c, g.a, g.b, f, g.shuffles, coin, g.flips);
    var w := LayDown(g.a, g.b, f, g.shuffles);
    var i := Play(w.flip1, w.flip2, w.a, w.b, f, w.shuffles, coin, g.flips);
    var cards := f(i.shuffles, w.dump1 + w.dump2);
    assert i.a.pile + cards + [c, c] == i.a.pile + (cards + [c, c]);
    assert i.b.pile + cards + [c, c] == i.b.pile + (cards + [c, c]);
    assert g.lost1 + i.lost1 + w.dump1 + [] == g.lost1 + (i.lost1 + w.dump1);
    assert g.lost2 + i.lost2 + w.dump2 + [] == g.lost2 + (i.lost2 + w.dump2);
    assert g.lost1 + i.lost1 + [] == g.lost1 + i.lost1;
    assert g.lost2 + i.lost2 + [] == g.lost2 + i.lost2;
  }

  /** `play_hand`: one comparison of two cards, and the wars that follow from ties. */
  method PlayHand(c1: Card, c2: Card, p1: Player, p2: Player, result: GameResult, rng: Randomness)
    returns (winner: Winner)
    requires p1 != p2
    requires c1 > 0 && c2 > 0 && Drawable(p1.Seated()) && Drawable(p2.Seated())
    modifies p1, p2, result, rng
    ensures var o := old(Play(c1, c2, p1.Seated(), p2.Seated(), rng.shuffler, rng.shuffles, rng.coin, rng.flips));
            winner == o.winner && State(p1, p2, result, rng) == Record(old(State(p1, p2, result, rng)), o)
    ensures result.winner == old(result.winner)
    decreases p1.Seated().NCards() + p2.Seated().NCards()
  {
    hide Play, LayDown, Drawable, Seat.Copies;
    ghost var g, f, coin := State(p1, p2, result, rng), rng.shuffler, rng.coin;
    if !AtWar(c1, c2, g.a, g.b) {
      RecordsAtOnce(g, c1, c2, f, coin);
    }
    result.nhands := result.nhands + 1;
    winner := None;
    if c1 > c2 {
      winner := One;
    } else if c1 < c2 {
      winner := Two;
    } else {
      if |p1.hand| + |p1.pile| == 0 {
        p2.Take(c1);
        p2.Take(c2);
        return Two;
      }
      if |p2.hand| + |p2.pile| == 0 {
        p1.Take(c1);
        p1.Take(c2);
        return One;
      }
      RecordsAWar(g, c1, f, coin);
      var dump1, flip1, dump2, flip2 := LayDownStakes(p1, p2, rng);
      winner := PlayHand(flip1, flip2, p1, p2, result, rng);
      AwardDumps(winner, dump1, dump2, p1, p2, result, rng);
    }
    AwardFlips(winner, c1, c2, p1, p2, result, rng);
  }

  /** Both players hold playing cards only. */
  ghost predicate InPlay(a: Seat, b: Seat) {
    forall r: Card :: a.Copies(r) + b.Copies(r) > 0 ==> 2 <= r <= MAX_CARD
  }

  lemma RoundKeepsInPlay(g: Game, f: Shuffler, coin: Coins)
    requires g.a.NCards() > 0 && g.b.NCards() > 0 && InPlay(g.a, g.b)
    ensures InPlay(Round(g, f, coin).a, Round(g, f, coin).b)
    ensures Round(g, f, coin).NCards() == g.NCards()
  {
    hide Round, Seat.Copies;
    RoundConservesCards(g, f, coin, 0);
    forall r: Card
      ensures Round(g, f, coin).a.Copies(r) + Round(g, f, coin).b.Copies(r) == g.a.Copies(r) + g.b.Copies(r)
    {
      RoundConservesCards(g, f, coin, r);
    }
  }

  /** `simulate`: the game loop, from two equal halves of a deck. */
  method Simulate(p1: Player, p2: Player, rng: Randomness) returns (result: GameResult)
    requires p1 != p2
    requires p1.Seated().NCards() == p2.Seated().NCards() == DECK_SIZE / 2
    requires InPlay(p1.Seated(), p2.Seated())
    modifies p1, p2, rng
    ensures fresh(result)
    ensures var e := Run(Fresh(old(p1.Seated()), old(p2.Seated()), old(rng.shuffles), old(rng.flips)),
                         rng.shuffler, rng.coin, MAX_ROUNDS);
            State(p1, p2, result, rng) == e.game && result.winner == e.winner
  {
    hide Run, Round, InPlay;
    result := new GameResult();
    ghost var f, coin := rng.shuffler, rng.coin;
    ghost var start := State(p1, p2, result, rng);
    for i := 0 to MAX_ROUNDS
      invariant fresh(result) && result.winner == None
      invariant State(p1, p2, result, rng).NCards() == DECK_SIZE
      invariant InPlay(p1.Seated(), p2.Seated())
      invariant Run(start, f, coin, MAX_ROUNDS).game
             == Run(State(p1, p2, result, rng), f, coin, MAX_ROUNDS - i).game
      invariant Run(start, f, coin, MAX_ROUNDS).winner
             == Run(State(p1, p2, result, rng), f, coin, MAX_ROUNDS - i).winner
    {
      ghost var g := State(p1, p2, result, rng);
      var size1, size2 := |p1.hand| + |p1.pile|, |p2.hand| + |p2.pile|;
      if size1 <= 0 || size2 <= 0 {
        RunStops(g, f, coin, MAX_ROUNDS - i);
      }
      if size1 <= 0 {
        result.winner := Two;
        break;
      }
      if size2 <= 0 {
        result.winner := One;
        break;
      }
      assert size1 + size2 == DECK_SIZE;
      RunUnfolds(g, f, coin, MAX_ROUNDS - i);
      RoundKeepsInPlay(g, f, coin);
      PlayRound(p1, p2, result, rng);
    }
    if result.winner == None {
      RunStops(State(p1, p2, result, rng), f, coin, 0);
    }
  }

  /** The body of the game loop once both players are known to hold cards. */
  method PlayRound(p1: Player, p2: Player, result: GameResult, rng: Randomness)
    requires p1 != p2
    requires p1.Seated().NCards() > 0 && p2.Seated().NCards() > 0
    requires InPlay(p1.Seated(), p2.Seated())
    modifies p1, p2, result, rng
    ensures State(p1, p2, result, rng) == Round(old(State(p1, p2, result, rng)), rng.shuffler, rng.coin)
    ensures result.winner == old(result.winner)
  {
    hide Decide, ApplyStrategy, Play, InPlay, Drawable, WithoutTop;
    ghost var g := State(p1, p2, result, rng);
    DecideKeepsCards(g.a, g.b, 1, rng.shuffler, g.shuffles, 0);
    TopsAreLegal(g.a, g.b, rng.shuffler, g.shuffles);
    DecideShuffle(p1, p2, 1, rng);
    assert |p1.hand| != 0;
    assert |p2.hand| != 0;
    var c1, c2 := DrawBoth(p1, p2);
    var _ := PlayHand(c1, c2, p1, p2, result, rng);
  }

  method DrawBoth(p1: Player, p2: Player) returns (c1: Card, c2: Card)
    requires p1 != p2 && p1.hand != [] && p2.hand != []
    modifies p1, p2
    ensures c1 == old(p1.hand)[0] && p1.Seated() == WithoutTop(old(p1.Seated()))
    ensures c2 == old(p2.hand)[0] && p2.Seated() == WithoutTop(old(p2.Seated()))
  {
    c1 := p1.Draw();
    c2 := p2.Draw();
  }

  lemma TopsAreLegal(a: Seat, b: Seat, f: Shuffler, k: nat)
    requires a.NCards() > 0 && b.NCards() > 0 && InPlay(a, b)
    ensures var (a', b', _) := Decide(a, b, 1, f, k);
            && a'.hand != [] && b'.hand != [] && a'.hand[0] > 0 && b'.hand[0] > 0
            && Drawable(WithoutTop(a')) && Drawable(WithoutTop(b'))
  {
    hide Decide, Seat.Copies, WithoutTop;
    DecideKeepsCards(a, b, 1, f, k, 0);
    var (a', b', _) := Decide(a, b, 1, f, k);
    forall r: Card
      ensures Is(a'.hand[0], r) + WithoutTop(a').Copies(r) == a.Copies(r)
      ensures Is(b'.hand[0], r) + WithoutTop(b').Copies(r) == b.Copies(r)
    {
      DecideKeepsCards(a, b, 1, f, k, r);
      TopSplits(a', r);
      TopSplits(b', r);
    }
    assert Is(a'.hand[0], a'.hand[0]) + WithoutTop(a').Copies(a'.hand[0]) == a.Copies(a'.hand[0]);
    assert Is(b'.hand[0], b'.hand[0]) + WithoutTop(b').Copies(b'.hand[0]) == b.Copies(b'.hand[0]);
  }

  /** The deck, filled slot by slot. */
  method FillDeck() returns (deck: array<Card>)
    ensures fresh(deck) && deck[..] == MakeDeck()
  {
    deck := new Card[DECK_SIZE];
    for i := 0 to deck.Length
      invariant forall m | 0 <= m < i :: deck[m] == 2 + m % (MAX_CARD - 1)
    {
      var card := 2 + i % (MAX_CARD - 1);
      assert card > 0 && card <= MAX_CARD;
      deck[i] := card;
    }
  }

  method MakePlayers(s1: Strategy, s2: Strategy, rng: Randomness) returns (p1: Player, p2: Player)
    modifies rng`shuffles
    ensures fresh(p1) && fresh(p2) && p1 != p2
    ensures Fresh(p1.Seated(), p2.Seated(), rng.shuffles, rng.flips)
         == DealGame(s1, s2, rng.shuffler, old(rng.shuffles), rng.flips)
  {
    var deckArray := FillDeck();
    var deck := rng.Shuffle(deckArray[..]);
    DealIsLegal(s1, s2, rng.shuffler, old(rng.shuffles), rng.flips);
    p1 := new Player(deck[..|deck| / 2], s1);
    p2 := new Player(deck[|deck| / 2..], s2);
  }

  lemma DealIsLegal(s1: Strategy, s2: Strategy, f: Shuffler, k: nat, j: nat)
    ensures var g := DealGame(s1, s2, f, k, j);
            Legal(g.a.hand) && Legal(g.b.hand) && InPlay(g.a, g.b) && g.a.NCards() == g.b.NCards() == DECK_SIZE / 2
  {
    hide DealGame, MakeDeck;
    DealIsFair(s1, s2, f, k, j, 0);
    forall r: Card
      ensures DealGame(s1, s2, f, k, j).Copies(r) > 0 ==> 2 <= r <= MAX_CARD
    {
      DealIsFair(s1, s2, f, k, j, r);
      DeckHasFourOfEach(r);
    }
    var g := DealGame(s1, s2, f, k, j);
    assert forall r: Card :: Count(g.a.hand, r) <= g.Copies(r) && Count(g.b.hand, r) <= g.Copies(r);
  }

  const UINT32: nat := 0x1_0000_0000

  /** The tally of many games.  The two averages are total over count. */
  datatype Results = Results(s1: nat, s2: nat, p1: nat, p2: nat, tie: nat,
                             p1WarTotal: nat, p1WarCount: nat, p2WarTotal: nat, p2WarCount: nat,
                             nhands: nat, ngames: nat)

  method SumOf(cards: seq<Card>) returns (total: nat, count: nat)
    ensures total == Sum(cards) && count == |cards|
  {
    total, count := 0, 0;
    for i := 0 to |cards|
      invariant total == Sum(cards[..i]) && count == i
    {
      assert cards[..i + 1] == cards[..i] + [cards[i]];
      SumAppend(cards[..i], [cards[i]]);
      total := total + cards[i];
      count := count + 1;
    }
    assert cards[..|cards|] == cards;
  }

  lemma {:induction false} SumAppend(s: seq<Card>, t: seq<Card>)
    ensures Sum(s + t) == Sum(s) + Sum(t)
  {
    if s == [] {
      assert s + t == t;
    } else {
      assert (s + t)[1..] == s[1..] + t;
      SumAppend(s[1..], t);
    }
  }

  /** The results of a season of games, as reported. */
  function Tally(s1: nat, s2: nat, es: seq<Ending>): Results {
    Results(s1, s2, Wins(es, One) % UINT32, Wins(es, Two) % UINT32, Wins(es, None) % UINT32,
            Sum(AllLost1(es)), |AllLost1(es)|, Sum(AllLost2(es)), |AllLost2(es)|,
            TotalHands(es), |es|)
  }

  /** One more game counted. */
  function Added(t: Results, w: Winner, lost1: seq<Card>, lost2: seq<Card>, hands: nat): Results {
    Results(t.s1, t.s2,
            if w == One then (t.p1 + 1) % UINT32 else t.p1,
            if w == Two then (t.p2 + 1) % UINT32 else t.p2,
            if w == None then (t.tie + 1) % UINT32 else t.tie,
            t.p1WarTotal + Sum(lost1), t.p1WarCount + |lost1|,
            t.p2WarTotal + Sum(lost2), t.p2WarCount + |lost2|,
            t.nhands + hands, t.ngames + 1)
  }

  lemma TallyExtends(s1: nat, s2: nat, es: seq<Ending>, e: Ending)
    ensures Tally(s1, s2, es + [e])
         == Added(Tally(s1, s2, es), e.winner, e.game.lost1, e.game.lost2, e.game.hands)
  {
    hide Wins, AllLost1, AllLost2, TotalHands, Sum;
    WinsExtend(es, e);
    SumAppend(AllLost1(es), e.game.lost1);
    SumAppend(AllLost2(es), e.game.lost2);
    assert forall n: nat :: (n % UINT32 + 1) % UINT32 == (n + 1) % UINT32;
  }

  lemma WinsExtend(es: seq<Ending>, e: Ending)
    ensures forall w :: Wins(es + [e], w) == Wins(es, w) + if e.winner == w then 1 else 0
    ensures TotalHands(es + [e]) == TotalHands(es) + e.game.hands
    ensures AllLost1(es + [e]) == AllLost1(es) + e.game.lost1
    ensures AllLost2(es + [e]) == AllLost2(es) + e.game.lost2
  {
    assert (es + [e])[..|es|] == es;
  }

  method CountGame(t: Results, result: GameResult) returns (r: Results)
    ensures r == Added(t, result.winner, result.warHandsP1Lost, result.warHandsP2Lost, result.nhands)
  {
    r := t.(nhands := t.nhands + result.nhands, ngames := t.ngames + 1);
    var total1, count1 := SumOf(result.warHandsP1Lost);
    r := r.(p1WarTotal := r.p1WarTotal + total1, p1WarCount := r.p1WarCount + count1);
    var total2, count2 := SumOf(result.warHandsP2Lost);
    r := r.(p2WarTotal := r.p2WarTotal + total2, p2WarCount := r.p2WarCount + count2);
    match result.winner
    case One => r := r.(p1 := (r.p1 + 1) % UINT32);
    case Two => r := r.(p2 := (r.p2 + 1) % UINT32);
    case None => r := r.(tie := (r.tie + 1) % UINT32);
  }

  /** `simulate_strategy` for two entries of the strategy table. */
  method SimulateStrategy(s1: nat, s2: nat, ngames: nat, rng: Randomness) returns (r: Results)
    requires s1 < |STRATEGIES| && s2 < |STRATEGIES|
    modifies rng
    ensures r == Tally(s1, s2, old(Season(STRATEGIES[s1], STRATEGIES[s2], rng.shuffler, rng.coin,
                                          rng.shuffles, rng.flips, ngames)))
  {
    hide Match, Season, DrawsAfter, Tally, Added;
    ghost var f, coin, k, j := rng.shuffler, rng.coin, rng.shuffles, rng.flips;
    var a, b := STRATEGIES[s1], STRATEGIES[s2];
    r := Results(s1, s2, 0, 0, 0, 0, 0, 0, 0, 0, 0);
    EmptyTally(s1, s2, a, b, f, coin, k, j);
    for i := 0 to ngames
      invariant (rng.shuffles, rng.flips) == DrawsAfter(Season(a, b, f, coin, k, j, i), k, j)
      invariant r == Tally(s1, s2, Season(a, b, f, coin, k, j, i))
    {
      SeasonExtends(a, b, f, coin, k, j, i);
      TallyExtends(s1, s2, Season(a, b, f, coin, k, j, i), Match(a, b, f, coin, rng.shuffles, rng.flips));
      var result := PlayMatch(a, b, rng);
      r := CountGame(r, result);
    }
  }

  lemma EmptyTally(s1: nat, s2: nat, a: Strategy, b: Strategy, f: Shuffler, coin: Coins, k: nat, j: nat)
    ensures Tally(s1, s2, Season(a, b, f, coin, k, j, 0)) == Results(s1, s2, 0, 0, 0, 0, 0, 0, 0, 0, 0)
    ensures DrawsAfter(Season(a, b, f, coin, k, j, 0), k, j) == (k, j)
  {
  }

  /** One dealt game. */
  method PlayMatch(s1: Strategy, s2: Strategy, rng: Randomness) returns (result: GameResult)
    modifies rng
    ensures fresh(result)
    ensures var e := old(Match(s1, s2, rng.shuffler, rng.coin, rng.shuffles, rng.flips));
            && result.winner == e.winner && result.nhands == e.game.hands
            && result.warHandsP1Lost == e.game.lost1 && result.warHandsP2Lost == e.game.lost2
            && rng.shuffles == e.game.shuffles && rng.flips == e.game.flips
  {
    hide Run, DealGame, MakeDeck;
    DealIsLegal(s1, s2, rng.shuffler, rng.shuffles, rng.flips);
    var p1, p2 := MakePlayers(s1, s2, rng);
    result := Simulate(p1, p2, rng);
  }

  /** What one more game changes in the results, column by column. */
  lemma GameCounts(s1: nat, s2: nat, es: seq<Ending>, e: Ending)
    ensures var t, u := Tally(s1, s2, es), Tally(s1, s2, es + [e]);
            && u.p1 == (if e.winner == One then (t.p1 + 1) % 0x1_0000_0000 else t.p1)
            && u.p2 == (if e.winner == Two then (t.p2 + 1) % 0x1_0000_0000 else t.p2)
            && u.tie == (if e.winner == None then (t.tie + 1) % 0x1_0000_0000 else t.tie)
            && u.p1WarTotal == t.p1WarTotal + Sum(e.game.lost1) && u.p1WarCount == t.p1WarCount + |e.game.lost1|
            && u.p2WarTotal == t.p2WarTotal + Sum(e.game.lost2) && u.p2WarCount == t.p2WarCount + |e.game.lost2|
            && u.nhands == t.nhands + e.game.hands && u.ngames == t.ngames + 1
            && u.s1 == s1 && u.s2 == s2
    ensures Tally(s1, s2, []) == Results(s1, s2, 0, 0, 0, 0, 0, 0, 0, 0, 0)
  {
    TallyExtends(s1, s2, es, e);
    TallyNames(s1, s2, es);
    hide Tally;
    NoGames(s1, s2);
  }

  lemma TallyNames(s1: nat, s2: nat, es: seq<Ending>)
    ensures Tally(s1, s2, es).s1 == s1 && Tally(s1, s2, es).s2 == s2
  {
  }

  lemma NoGames(s1: nat, s2: nat)
    ensures Tally(s1, s2, []) == Results(s1, s2, 0, 0, 0, 0, 0, 0, 0, 0, 0)
  {
  }

  lemma WrappedTallies(x: nat, y: nat, z: nat)
    ensures x % UINT32 + y % UINT32 + z % UINT32 == x + y + z <==> x < UINT32 && y < UINT32 && z < UINT32
  {
    assert forall n: nat :: n % UINT32 <= n && (n % UINT32 == n <==> n < UINT32);
  }

  /** The reported tallies add up to the number of games exactly when no 32-bit
      tally wrapped, so always for fewer than 2^32 games; each total of lost cards
      lies between 2 and 14 times its count. */
  lemma ResultsAddUp(s1: nat, s2: nat, f: Shuffler, coin: Coins, k: nat, j: nat, n: nat)
    requires s1 < |STRATEGIES| && s2 < |STRATEGIES|
    ensures var es := Season(STRATEGIES[s1], STRATEGIES[s2], f, coin, k, j, n);
            var r := Tally(s1, s2, es);
            && r.ngames == n
            && (r.p1 + r.p2 + r.tie == n
                <==> Wins(es, One) < UINT32 && Wins(es, Two) < UINT32 && Wins(es, None) < UINT32)
            && (n < UINT32 ==> r.p1 + r.p2 + r.tie == n)
            && 2 * r.p1WarCount <= r.p1WarTotal <= MAX_CARD * r.p1WarCount
            && 2 * r.p2WarCount <= r.p2WarTotal <= MAX_CARD * r.p2WarCount
  {
    hide Season, Wins, AllLost1, AllLost2, TotalHands, Sum, Legal;
    var es := Season(STRATEGIES[s1], STRATEGIES[s2], f, coin, k, j, n);
    EveryGameIsCounted(es);
    WrappedTallies(Wins(es, One), Wins(es, Two), Wins(es, None));
    SeasonIsLegal(STRATEGIES[s1], STRATEGIES[s2], f, coin, k, j, n);
    SumBounds(AllLost1(es));
    SumBounds(AllLost2(es));
  }
}
