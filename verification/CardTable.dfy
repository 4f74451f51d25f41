/** Cards, randomness, the nine strategies and the shuffle decision of the war
    simulator, on values.  A shuffle is an arbitrary permutation and a coin an
    arbitrary bit; both are indexed by how many were drawn before, so a claim
    about every `Shuffler` and every `Coins` is a claim about every run. */
module CardTable {
  type Card = nat

  const MAX_CARD: Card := 14
  const DECK_SIZE: nat := 52

  function Is(c: Card, r: Card): nat { if c == r then 1 else 0 }

  /** Number of cards of rank `r`. */
  function Count(s: seq<Card>, r: Card): nat {
    if s == [] then 0 else Is(s[0], r) + Count(s[1..], r)
  }

  lemma {:induction false} CountIsMultiplicity(s: seq<Card>, r: Card)
    ensures Count(s, r) == multiset(s)[r]
  {
    if s != [] {
      assert s == [s[0]] + s[1..];
      CountIsMultiplicity(s[1..], r);
    }
  }

  lemma {:induction false} CountAppend(s: seq<Card>, t: seq<Card>, r: Card)
    ensures Count(s + t, r) == Count(s, r) + Count(t, r)
  {
    if s == [] {
      assert s + t == t;
    } else {
      assert (s + t)[1..] == s[1..] + t;
      CountAppend(s[1..], t, r);
    }
  }

  ghost predicate Permutes(f: (nat, seq<Card>) -> seq<Card>) {
    forall k: nat, s: seq<Card> :: |f(k, s)| == |s| && forall r: Card :: Count(f(k, s), r) == Count(s, r)
  }

  type Shuffler = f: (nat, seq<Card>) -> seq<Card> | Permutes(f)
    witness (k: nat, s: seq<Card>) => s
  type Coins = nat -> bool

  datatype Enrichment = Average | Aces | FaceCards

  datatype Strategy =
    | CombineAndShuffle
    | AlwaysShuffle
    | CombineOnly
    | Combine(policy: Enrichment, whenEnriched: bool)

  /** What a player holds: the hand, drawn from the front, and the pile of
      captured cards. */
  datatype Seat = Seat(strategy: Strategy, hand: seq<Card>, pile: seq<Card>) {
    function NCards(): nat { |hand| + |pile| }

    function Copies(r: Card): nat { Count(hand, r) + Count(pile, r) }

    function CombinePile(): Seat { this.(hand := hand + pile, pile := []) }
  }

  function Sum(s: seq<Card>): nat {
    if s == [] then 0 else s[0] + Sum(s[1..])
  }

  function Mean(s: seq<Card>): real {
    if s == [] then 0.0 else Sum(s) as real / |s| as real
  }

  function CountAtLeast(s: seq<Card>, low: Card): nat {
    if s == [] then 0
    else (if low <= s[0] <= MAX_CARD then 1 else 0) + CountAtLeast(s[1..], low)
  }

  /** The share of high cards is larger in the hand.  An empty side makes the
      original divide zero by zero, and no comparison with NaN holds. */
  predicate RicherHand(s: Seat, low: Card) {
    && s.hand != [] && s.pile != []
    && CountAtLeast(s.hand, low) as real / |s.hand| as real > CountAtLeast(s.pile, low) as real / |s.pile| as real
  }

  predicate Enriched(e: Enrichment, s: Seat) {
    match e
    case Average => Mean(s.hand) > Mean(s.pile)
    case Aces => RicherHand(s, MAX_CARD)
    case FaceCards => RicherHand(s, MAX_CARD - 3)
  }

  lemma Fractions(a: nat, m: nat, b: nat, n: nat)
    requires m > 0 && n > 0
    ensures a as real / m as real > b as real / n as real <==> a * n > b * m
  {
    var p, q := a as real / m as real, b as real / n as real;
    var x, y := m as real, n as real;
    assert p * x == a as real && q * y == b as real;
    Scaled(p, q, x, y);
    assert (p * x) * y == (a * n) as real && (q * y) * x == (b * m) as real;
  }

  lemma Scaled(p: real, q: real, x: real, y: real)
    requires x > 0.0 && y > 0.0
    ensures p > q <==> (p * x) * y > (q * y) * x
  {
    var area := x * y;
    assert area > 0.0;
    assert (p * x) * y == p * area && (q * y) * x == q * area;
    assert p * area - q * area == (p - q) * area;
  }

  lemma AverageCrosswise(s: Seat)
    ensures Enriched(Average, s) <==>
            if s.pile == [] then Sum(s.hand) > 0 else Sum(s.hand) * |s.pile| > Sum(s.pile) * |s.hand|
  {
    if s.pile == [] {
      if s.hand != [] {
        Fractions(Sum(s.hand), |s.hand|, 0, 1);
      }
    } else if s.hand == [] {
      Fractions(0, 1, Sum(s.pile), |s.pile|);
    } else {
      Fractions(Sum(s.hand), |s.hand|, Sum(s.pile), |s.pile|);
    }
  }

  lemma ShareCrosswise(s: Seat, low: Card)
    ensures RicherHand(s, low) <==>
            CountAtLeast(s.hand, low) * |s.pile| > CountAtLeast(s.pile, low) * |s.hand|
  {
    hide CountAtLeast;
    if s.hand != [] && s.pile != [] {
      Fractions(CountAtLeast(s.hand, low), |s.hand|, CountAtLeast(s.pile, low), |s.pile|);
    } else {
      NoneAtLeast(s.hand, low);
      NoneAtLeast(s.pile, low);
    }
  }

  lemma NoneAtLeast(s: seq<Card>, low: Card)
    ensures s == [] ==> CountAtLeast(s, low) == 0
  {
  }

  /** The three tests without divisions: averages, and shares of aces and of cards
      from the jack up, compared crosswise.  An empty pile has average 0; an empty
      side has no share to compare. */
  lemma EnrichedCrosswise(s: Seat)
    ensures Enriched(Average, s) <==>
            if s.pile == [] then Sum(s.hand) > 0 else Sum(s.hand) * |s.pile| > Sum(s.pile) * |s.hand|
    ensures Enriched(Aces, s) <==> CountAtLeast(s.hand, 14) * |s.pile| > CountAtLeast(s.pile, 14) * |s.hand|
    ensures Enriched(FaceCards, s) <==> CountAtLeast(s.hand, 11) * |s.pile| > CountAtLeast(s.pile, 11) * |s.hand|
  {
    AverageCrosswise(s);
    ShareCrosswise(s, 14);
    ShareCrosswise(s, 11);
  }

  function CombineIfShort(s: Seat, n: nat): Seat {
    if |s.hand| < n && s.pile != [] then s.CombinePile() else s
  }

  function Shuffled(s: Seat, f: Shuffler, k: nat): Seat {
    s.(hand := f(k, s.hand))
  }

  /** One strategy call; also the number of shuffles drawn so far afterwards. */
  function ApplyStrategy(s: Seat, n: nat, f: Shuffler, k: nat): (Seat, nat) {
    match s.strategy
    case CombineAndShuffle => (Shuffled(CombineIfShort(s, n), f, k), k + 1)
    case AlwaysShuffle => (Shuffled(s.CombinePile(), f, k), k + 1)
    case CombineOnly => (CombineIfShort(s, n), k)
    case Combine(policy, whenEnriched) =>
      var shuffle := Enriched(policy, s) == whenEnriched;
      if shuffle then (Shuffled(s.CombinePile(), f, k), k + 1)
      else (CombineIfShort(s, n), k)
  }

  /** Both players' strategies run when either hand is short of `n` cards. */
  function Decide(a: Seat, b: Seat, n: nat, f: Shuffler, k: nat): (Seat, Seat, nat) {
    if |a.hand| < n || |b.hand| < n then
      var (a', k1) := ApplyStrategy(a, n, f, k);
      var (b', k2) := ApplyStrategy(b, n, f, k1);
      (a', b', k2)
    else
      (a, b, k)
  }

  /** A seat from which a strategy call has made as many cards drawable as it can. */
  predicate Ready(s: Seat, n: nat) {
    |s.hand| >= n || s.pile == []
  }

  lemma StrategyKeepsCards(s: Seat, n: nat, f: Shuffler, k: nat, r: Card)
    ensures var (s', k') := ApplyStrategy(s, n, f, k);
            && s'.Copies(r) == s.Copies(r) && s'.NCards() == s.NCards() && s'.strategy == s.strategy
            && Ready(s', n) && k <= k' <= k + 1
  {
    CountAppend(s.hand, s.pile, r);
  }

  /** Whatever the strategies and the shuffles do, a decision moves no card
      between the players and loses none, rank by rank; a player with any card
      left has min(n, ncards) of them ready to draw. */
  lemma DecideKeepsCards(a: Seat, b: Seat, n: nat, f: Shuffler, k: nat, r: Card)
    ensures var (a', b', k') := Decide(a, b, n, f, k);
            && a'.Copies(r) == a.Copies(r) && b'.Copies(r) == b.Copies(r)
            && a'.NCards() == a.NCards() && b'.NCards() == b.NCards()
            && a'.strategy == a.strategy && b'.strategy == b.strategy
            && Ready(a', n) && Ready(b', n)
            && (n > 0 && a.NCards() > 0 ==> a'.hand != [])
            && (n > 0 && b.NCards() > 0 ==> b'.hand != [])
            && k <= k' <= k + 2
  {
    StrategyKeepsCards(a, n, f, k, r);
    StrategyKeepsCards(b, n, f, ApplyStrategy(a, n, f, k).1, r);
  }

  /** The table of strategies, in the order of their identifiers. */
  const STRATEGIES: seq<Strategy> := [
    CombineAndShuffle, AlwaysShuffle, CombineOnly,
    Combine(Average, true), Combine(Average, false),
    Combine(Aces, true), Combine(Aces, false),
    Combine(FaceCards, true), Combine(FaceCards, false)]

  lemma EveryStrategyHasOneId(s: Strategy)
    ensures exists i: nat :: i < |STRATEGIES| && STRATEGIES[i] == s
    ensures forall i: nat, j: nat :: i < j < |STRATEGIES| ==> STRATEGIES[i] != STRATEGIES[j]
  {
    match s
    case CombineAndShuffle => assert STRATEGIES[0] == s;
    case AlwaysShuffle => assert STRATEGIES[1] == s;
    case CombineOnly => assert STRATEGIES[2] == s;
    case Combine(e, w) =>
      var base := match e case Average => 3 case Aces => 5 case FaceCards => 7;
      assert STRATEGIES[if w then base else base + 1] == s;
  }

  // ----- what each strategy does, by its identifier

  /** Shuffled: pile behind the hand, one shuffle drawn. */
  predicate AllShuffled(s: Seat, t: Seat, f: Shuffler, k: nat, k': nat) {
    t == Seat(s.strategy, f(k, s.hand + s.pile), []) && k' == k + 1
  }

  /** Not shuffled: the pile goes behind a hand too short for `n` cards. */
  predicate OnlyCombined(s: Seat, t: Seat, n: nat, k: nat, k': nat) {
    && k' == k
    && t == if |s.hand| < n && s.pile != [] then Seat(s.strategy, s.hand + s.pile, []) else s
  }

  /** The three strategies that do not look at the cards.  The first shuffles the hand
      whether or not it was too short. */
  lemma PlainStrategies(s: Seat, n: nat, f: Shuffler, k: nat)
    ensures var (t, k') := ApplyStrategy(s.(strategy := STRATEGIES[0]), n, f, k);
            && k' == k + 1
            && (|s.hand| < n && s.pile != [] ==> t.hand == f(k, s.hand + s.pile) && t.pile == [])
            && (|s.hand| >= n || s.pile == [] ==> t.hand == f(k, s.hand) && t.pile == s.pile)
    ensures var u := s.(strategy := STRATEGIES[1]);
            var (t, k') := ApplyStrategy(u, n, f, k);
            AllShuffled(u, t, f, k, k')
    ensures var u := s.(strategy := STRATEGIES[2]);
            var (t, k') := ApplyStrategy(u, n, f, k);
            OnlyCombined(u, t, n, k, k')
  {
  }

  /** Strategy 3 shuffles when the hand's average is above the pile's, strategy 4 when
      it is not. */
  lemma AverageStrategies(s: Seat, n: nat, f: Shuffler, k: nat)
    ensures var richer := if s.pile == [] then Sum(s.hand) > 0 else Sum(s.hand) * |s.pile| > Sum(s.pile) * |s.hand|;
            var u, v := s.(strategy := STRATEGIES[3]), s.(strategy := STRATEGIES[4]);
            var (t, k') := ApplyStrategy(u, n, f, k);
            var (w, l') := ApplyStrategy(v, n, f, k);
            && (if richer then AllShuffled(u, t, f, k, k') else OnlyCombined(u, t, n, k, k'))
            && (if richer then OnlyCombined(v, w, n, k, l') else AllShuffled(v, w, f, k, l'))
  {
    AverageCrosswise(s);
    StrategySense(s, Average, n, f, k);
    hide ApplyStrategy, AllShuffled, OnlyCombined, Enriched;
  }

  /** Strategies 5 and 6 the same for the share of aces ... */
  lemma AceStrategies(s: Seat, n: nat, f: Shuffler, k: nat)
    ensures var richer := Count(s.hand, 14) * |s.pile| > Count(s.pile, 14) * |s.hand|;
            var u, v := s.(strategy := STRATEGIES[5]), s.(strategy := STRATEGIES[6]);
            var (t, k') := ApplyStrategy(u, n, f, k);
            var (w, l') := ApplyStrategy(v, n, f, k);
            && (if richer then AllShuffled(u, t, f, k, k') else OnlyCombined(u, t, n, k, k'))
            && (if richer then OnlyCombined(v, w, n, k, l') else AllShuffled(v, w, f, k, l'))
  {
    ShareCrosswise(s, 14);
    AcesAreCounted(s.hand);
    AcesAreCounted(s.pile);
    StrategySense(s, Aces, n, f, k);
    hide ApplyStrategy, AllShuffled, OnlyCombined, CountAtLeast, RicherHand;
  }

  /** ... and strategies 7 and 8 for the share of cards from the jack up. */
  lemma FaceCardStrategies(s: Seat, n: nat, f: Shuffler, k: nat)
    ensures var richer := FaceCount(s.hand) * |s.pile| > FaceCount(s.pile) * |s.hand|;
            var u, v := s.(strategy := STRATEGIES[7]), s.(strategy := STRATEGIES[8]);
            var (t, k') := ApplyStrategy(u, n, f, k);
            var (w, l') := ApplyStrategy(v, n, f, k);
            && (if richer then AllShuffled(u, t, f, k, k') else OnlyCombined(u, t, n, k, k'))
            && (if richer then OnlyCombined(v, w, n, k, l') else AllShuffled(v, w, f, k, l'))
  {
    ShareCrosswise(s, 11);
    FacesAreCounted(s.hand);
    FacesAreCounted(s.pile);
    StrategySense(s, FaceCards, n, f, k);
    hide ApplyStrategy, AllShuffled, OnlyCombined, CountAtLeast, RicherHand, FaceCount;
  }

  function FaceCount(s: seq<Card>): nat { Count(s, 11) + Count(s, 12) + Count(s, 13) + Count(s, 14) }

  lemma {:induction false} AcesAreCounted(s: seq<Card>)
    ensures CountAtLeast(s, 14) == Count(s, 14)
  {
    if s != [] {
      AcesAreCounted(s[1..]);
    }
  }

  lemma {:induction false} FacesAreCounted(s: seq<Card>)
    ensures CountAtLeast(s, 11) == FaceCount(s)
  {
    if s != [] {
      FacesAreCounted(s[1..]);
    }
  }

  lemma StrategySense(s: Seat, e: Enrichment, n: nat, f: Shuffler, k: nat)
    ensures var u, v := s.(strategy := Combine(e, true)), s.(strategy := Combine(e, false));
            var (t, k') := ApplyStrategy(u, n, f, k);
            var (w, l') := ApplyStrategy(v, n, f, k);
            && (if Enriched(e, s) then AllShuffled(u, t, f, k, k') else OnlyCombined(u, t, n, k, k'))
            && (if Enriched(e, s) then OnlyCombined(v, w, n, k, l') else AllShuffled(v, w, f, k, l'))
  {
    EnrichedByCards(s, s.(strategy := Combine(e, true)), e);
    EnrichedByCards(s, s.(strategy := Combine(e, false)), e);
    hide Enriched;
  }

  lemma EnrichedByCards(s: Seat, t: Seat, e: Enrichment)
    requires s.hand == t.hand && s.pile == t.pile
    ensures Enriched(e, s) == Enriched(e, t)
  {
  }

  /** A sum weighs every rank by its number of cards. */
  lemma {:induction false} SumByRank(s: seq<Card>)
    requires forall i | 0 <= i < |s| :: 2 <= s[i] <= MAX_CARD
    ensures Sum(s) == 2 * Count(s, 2) + 3 * Count(s, 3) + 4 * Count(s, 4) + 5 * Count(s, 5) + 6 * Count(s, 6)
                    + 7 * Count(s, 7) + 8 * Count(s, 8) + 9 * Count(s, 9) + 10 * Count(s, 10)
                    + 11 * Count(s, 11) + 12 * Count(s, 12) + 13 * Count(s, 13) + 14 * Count(s, 14)
  {
    if s != [] {
      SumByRank(s[1..]);
    }
  }
}
