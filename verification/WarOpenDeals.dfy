/** How two players who always shuffle keep a game open for ever: they lay out what
    they hold in tricks, so that every further pass has no tie either and leaves both
    with tricks again, one of each interlocking. */
module WarOpenDeals {
  import opened CardTable
  import opened WarHands
  import opened WarGames
  import opened WarSteering
  import opened WarTricks

  /** Either trick's high card beats the other's low card. */
  predicate Interlock(t: Trick, u: Trick) { t.high > u.low && u.high > t.low }

  /** The tricks of both players at the start of a pass. */
  datatype Table = Table(ts: seq<Trick>, us: seq<Trick>)

  ghost predicate Fine(t: Table) { Strict(t.ts) && Strict(t.us) && t.ts != [] && t.us != [] }

  ghost predicate Locked(t: Table) { Fine(t) && Interlock(t.ts[0], t.us[0]) }

  // ----- one pass

  function Tail(ts: seq<Trick>): seq<Trick> { if ts == [] then [] else ts[1..] }

  /** Player one plays its tricks high card first.  Player two plays low card first
      where two tricks interlock, and high card first elsewhere. */
  function Answer(ts: seq<Trick>, us: seq<Trick>): (s: seq<Card>)
    ensures |s| == 2 * |us|
    decreases us
  {
    if us == [] then []
    else
      (if ts != [] && Interlock(ts[0], us[0]) then [us[0].low, us[0].high] else [us[0].high, us[0].low])
      + Answer(Tail(ts), us[1..])
  }

  function Next(t: Table): Table {
    var x, y := Cards(t.ts), Answer(t.ts, t.us);
    var m := Min(|t.ts|, |t.us|);
    Table(Won(x, y) + t.ts[m..], Won(y, x) + t.us[m..])
  }

  lemma NoTiesPair(a: Card, b: Card, c: Card, d: Card, x: seq<Card>, y: seq<Card>)
    requires a != c && b != d && NoTies(x, y)
    ensures NoTies([a, b] + x, [c, d] + y)
  {
    var p, q := [a, b] + x, [c, d] + y;
    forall i | 0 <= i < |p| && i < |q|
      ensures p[i] != q[i]
    {
      if i >= 2 {
        assert p[i] == x[i - 2] && q[i] == y[i - 2];
      }
    }
  }

  lemma {:induction false} AnswerNeverTies(ts: seq<Trick>, us: seq<Trick>)
    requires Strict(ts) && Strict(us)
    ensures NoTies(Cards(ts), Answer(ts, us))
    decreases us
  {
    if ts != [] && us != [] {
      hide NoTies;
      AnswerNeverTies(ts[1..], us[1..]);
      var t, u := ts[0], us[0];
      assert t in ts && u in us;
      if Interlock(t, u) {
        NoTiesPair(t.high, t.low, u.low, u.high, Cards(ts[1..]), Answer(ts[1..], us[1..]));
      } else {
        NoTiesPair(t.high, t.low, u.high, u.low, Cards(ts[1..]), Answer(ts[1..], us[1..]));
      }
    }
  }

  lemma CountSwapped(c: Card, d: Card, s: seq<Card>, r: Card)
    ensures Count([c, d] + s, r) == Is(c, r) + Is(d, r) + Count(s, r)
  {
    CountAppend([c, d], s, r);
    CountTrick(Trick(c, d), r);
  }

  /** What is left of the hands after the first `m` tricks. */
  lemma {:induction false} CardsLeft(ts: seq<Trick>, m: nat)
    requires m <= |ts|
    ensures Cards(ts)[2 * m..] == Cards(ts[m..])
  {
    if m > 0 {
      CardsLeft(ts[1..], m - 1);
      assert ts[1..][m - 1..] == ts[m..];
      assert Cards(ts)[2..] == Cards(ts[1..]);
      assert Cards(ts)[2 * m..] == Cards(ts)[2..][2 * (m - 1)..];
    }
  }

  lemma {:induction false} AnswerLeft(ts: seq<Trick>, us: seq<Trick>, m: nat, r: Card)
    requires m <= |us|
    ensures Count(Answer(ts, us)[2 * m..], r) == Copies(us[m..], r)
    decreases us
  {
    if m > 0 {
      AnswerLeft(Tail(ts), us[1..], m - 1, r);
      assert us[1..][m - 1..] == us[m..];
      assert Answer(ts, us)[2..] == Answer(Tail(ts), us[1..]);
      assert Answer(ts, us)[2 * m..] == Answer(ts, us)[2..][2 * (m - 1)..];
    } else if us != [] {
      AnswerLeft(Tail(ts), us[1..], 0, r);
      var u, rest := us[0], Answer(Tail(ts), us[1..]);
      assert rest[0..] == rest && us[1..][0..] == us[1..] && us[0..] == us;
      CountSwapped(u.high, u.low, rest, r);
      CountSwapped(u.low, u.high, rest, r);
      CountSwapped(u.high, u.low, Cards(us[1..]), r);
      assert Answer(ts, us)[0..] == Answer(ts, us);
    }
  }

  /** Both players' cards are laid out for a pass. */
  predicate LaidOut(g: Game, t: Table) {
    && g.a == Seat(AlwaysShuffle, Cards(t.ts), [])
    && g.b == Seat(AlwaysShuffle, Answer(t.ts, t.us), [])
  }

  /** Between passes: one hand is empty, and the players hold these tricks. */
  ghost predicate Holding(g: Game, t: Table) {
    && g.a.strategy == g.b.strategy == AlwaysShuffle && (g.a.hand == [] || g.b.hand == [])
    && g.a.NCards() == 2 * |t.ts| && g.b.NCards() == 2 * |t.us|
    && forall r: Card :: g.a.Copies(r) == Copies(t.ts, r) && g.b.Copies(r) == Copies(t.us, r)
  }

  function PassRounds(t: Table): nat { 2 * Min(|t.ts|, |t.us|) }

  /** The cards left in the two hands once the shorter one is used up. */
  lemma HandsLeft(t: Table, r: Card)
    ensures var m := Min(|t.ts|, |t.us|);
            && Count(Cards(t.ts)[2 * m..], r) == Copies(t.ts[m..], r)
            && Count(Answer(t.ts, t.us)[2 * m..], r) == Copies(t.us[m..], r)
  {
    var m := Min(|t.ts|, |t.us|);
    CardsLeft(t.ts, m);
    AnswerLeft(t.ts, t.us, m, r);
  }

  /** What the players hold after a pass: the tricks won, and those not played. */
  lemma LeftOver(g: Game, e: Ending, m: nat, ts: seq<Trick>, us: seq<Trick>, p: seq<Trick>, q: seq<Trick>, r: Card)
    requires m <= |g.a.hand| && m <= |g.b.hand| && g.a.pile == g.b.pile == []
    requires Passed(g, e, m, ts, us, r)
    requires |g.a.hand| == m + 2 * |p| && Count(g.a.hand[m..], r) == Copies(p, r)
    requires |g.b.hand| == m + 2 * |q| && Count(g.b.hand[m..], r) == Copies(q, r)
    ensures e.game.a.NCards() == 2 * |ts + p| && e.game.b.NCards() == 2 * |us + q|
    ensures e.game.a.Copies(r) == Copies(ts + p, r) && e.game.b.Copies(r) == Copies(us + q, r)
  {
    CopiesAppend(ts, p, r);
    CopiesAppend(us, q, r);
    NothingLost(r);
    hide Count, Copies;
  }

  lemma PassLeaves(g: Game, f: Shuffler, t: Table, r: Card)
    requires LaidOut(g, t) && Fine(t)
    ensures var e := Run(g, f, NO_SWAP, PassRounds(t));
            && e.winner == None && e.game.shuffles == g.shuffles
            && e.game.a.strategy == e.game.b.strategy == AlwaysShuffle
            && (e.game.a.hand == [] || e.game.b.hand == [])
            && e.game.a.NCards() == 2 * |Next(t).ts| && e.game.b.NCards() == 2 * |Next(t).us|
            && e.game.a.Copies(r) == Copies(Next(t).ts, r) && e.game.b.Copies(r) == Copies(Next(t).us, r)
  {
    hide Run, Copies, NoTies, Strict, Seat.NCards, Seat.Copies;
    var x, y := g.a.hand, g.b.hand;
    var m := Min(|t.ts|, |t.us|);
    AnswerNeverTies(t.ts, t.us);
    Pass(g, f, NO_SWAP, r);
    HandsLeft(t, r);
    var e := Run(g, f, NO_SWAP, 2 * m);
    assert Passed(g, e, 2 * m, Won(x, y), Won(y, x), r);
    LeftOver(g, e, 2 * m, Won(x, y), Won(y, x), t.ts[m..], t.us[m..], r);
  }

  lemma PassDone(g: Game, f: Shuffler, t: Table)
    requires LaidOut(g, t) && Fine(t)
    ensures var e := Run(g, f, NO_SWAP, PassRounds(t));
            e.winner == None && e.game.shuffles == g.shuffles && Holding(e.game, Next(t))
  {
    hide Run, LaidOut, Fine, Next, PassRounds, Copies, Seat.Copies, Seat.NCards;
    forall r: Card
      ensures var e := Run(g, f, NO_SWAP, PassRounds(t));
              e.game.a.Copies(r) == Copies(Next(t).ts, r) && e.game.b.Copies(r) == Copies(Next(t).us, r)
    {
      PassLeaves(g, f, t, r);
    }
    PassLeaves(g, f, t, 0);
  }

  // ----- a plan for all passes

  ghost predicate SameTricks(ts: seq<Trick>, us: seq<Trick>) {
    |ts| == |us| && forall r: Card :: Copies(ts, r) == Copies(us, r)
  }

  ghost predicate SameTables(t: Table, u: Table) { SameTricks(t.ts, u.ts) && SameTricks(t.us, u.us) }

  /** Each pass of the plan starts with the tricks that the one before leaves. */
  ghost predicate Endless(p: nat -> Table) {
    forall i: nat :: Fine(p(i)) && SameTables(Next(p(i)), p(i + 1))
  }

  /** The shuffler lays out pass `i` of the plan with draws 2i + 1 and 2i + 2. */
  ghost predicate GuidedAt(f: Shuffler, p: nat -> Table, i: nat) {
    forall s: seq<Card> ::
      && (SameCards(s, Cards(p(i).ts)) ==> f(2 * i + 1, s) == Cards(p(i).ts))
      && (SameCards(s, Answer(p(i).ts, p(i).us)) ==> f(2 * i + 2, s) == Answer(p(i).ts, p(i).us))
  }

  ghost predicate Guided(f: Shuffler, p: nat -> Table) { forall i: nat :: GuidedAt(f, p, i) }

  lemma HoldingOther(g: Game, t: Table, u: Table)
    requires Holding(g, t) && SameTables(t, u)
    ensures Holding(g, u)
  {
  }

  lemma AnswerCopies(ts: seq<Trick>, us: seq<Trick>, r: Card)
    ensures Count(Answer(ts, us), r) == Copies(us, r)
  {
    AnswerLeft(ts, us, 0, r);
    assert Answer(ts, us)[0..] == Answer(ts, us) && us[0..] == us;
  }

  lemma RefillLaysOut(g: Game, f: Shuffler, p: nat -> Table, i: nat)
    requires Holding(g, p(i)) && Fine(p(i)) && GuidedAt(f, p, i) && g.shuffles == 2 * i + 1
    ensures Dry(g) && LaidOut(Refilled(g, f), p(i)) && Refilled(g, f).shuffles == 2 * i + 3
  {
    hide Answer, Cards, Count;
    var t := p(i);
    forall r: Card
      ensures Count(g.a.hand + g.a.pile, r) == Count(Cards(t.ts), r)
      ensures Count(g.b.hand + g.b.pile, r) == Count(Answer(t.ts, t.us), r)
    {
      CountAppend(g.a.hand, g.a.pile, r);
      CountAppend(g.b.hand, g.b.pile, r);
      AnswerCopies(t.ts, t.us, r);
    }
    assert SameCards(g.a.hand + g.a.pile, Cards(t.ts));
    assert SameCards(g.b.hand + g.b.pile, Answer(t.ts, t.us));
  }

  /** A game that follows an endless plan is undecided after any number of rounds. */
  lemma {:induction false} PlanGoesOn(g: Game, f: Shuffler, p: nat -> Table, i: nat, n: nat)
    requires Endless(p) && Guided(f, p) && Holding(g, p(i)) && g.shuffles == 2 * i + 1
    ensures Undecided(Run(g, f, NO_SWAP, n))
    decreases n
  {
    hide Run, Refilled, LaidOut, Next, Guided, GuidedAt;
    assert Fine(p(i)) && SameTables(Next(p(i)), p(i + 1));
    if n == 0 {
      RunStops(g, f, NO_SWAP, 0);
    } else {
      assert GuidedAt(f, p, i) by { GuidedThere(f, p, i); }
      RefillLaysOut(g, f, p, i);
      RefillHappens(g, f, NO_SWAP, n);
      var h, m := Refilled(g, f), PassRounds(p(i));
      PassDone(h, f, p(i));
      var e := Run(h, f, NO_SWAP, m);
      HoldingOther(e.game, Next(p(i)), p(i + 1));
      assert Fine(p(i + 1));
      hide Endless, Holding;
      if n <= m {
        StillHolding(e.game, p(i + 1));
        UndecidedBefore(h, f, NO_SWAP, n, m - n);
      } else {
        PlanGoesOn(e.game, f, p, i + 1, n - m);
        StillUndecided(h, f, NO_SWAP, m, n - m);
      }
    }
  }

  lemma GuidedThere(f: Shuffler, p: nat -> Table, i: nat)
    requires Guided(f, p)
    ensures GuidedAt(f, p, i)
  {
  }

  lemma StillHolding(g: Game, t: Table)
    requires Holding(g, t) && Fine(t)
    ensures g.a.NCards() > 0 && g.b.NCards() > 0
  {
  }

  // ----- plans

  /** Interlocking tricks in front stay in front: each player wins the other's low card. */
  lemma NextIsLocked(t: Table)
    requires Locked(t)
    ensures Locked(Next(t))
  {
    var u, v := t.ts[0], t.us[0];
    var x, y := Cards(t.ts), Answer(t.ts, t.us);
    assert u in t.ts && v in t.us;
    assert x[..2] == [u.high, u.low] && y[..2] == [v.low, v.high];
    FirstTricks(x, y);
    WonIsStrict(x, y, t.ts, Min(|t.ts|, |t.us|));
    WonIsStrict(y, x, t.us, Min(|t.ts|, |t.us|));
  }

  lemma FirstTricks(x: seq<Card>, y: seq<Card>)
    requires |x| >= 2 && |y| >= 2 && x[0] > y[0] && y[1] > x[1]
    ensures Won(x, y) != [] && Won(x, y)[0] == Trick(x[0], y[0])
    ensures Won(y, x) != [] && Won(y, x)[0] == Trick(y[1], x[1])
  {
    assert Won(y, x) == Won(y[1..], x[1..]) by {
      assert [] + Won(y[1..], x[1..]) == Won(y[1..], x[1..]);
    }
  }

  lemma WonIsStrict(x: seq<Card>, y: seq<Card>, ts: seq<Trick>, m: nat)
    requires Strict(ts) && m <= |ts|
    ensures Strict(Won(x, y) + ts[m..])
  {
  }

  function Plan(t: Table, i: nat): Table
    decreases i
  {
    if i == 0 then t else Plan(Next(t), i - 1)
  }

  lemma {:induction false} PlanStep(t: Table, i: nat)
    requires Locked(t)
    ensures Locked(Plan(t, i)) && Plan(t, i + 1) == Next(Plan(t, i))
    decreases i
  {
    hide Next, Locked;
    NextIsLocked(t);
    if i > 0 {
      PlanStep(Next(t), i - 1);
    }
  }

  lemma SameAsItself(t: Table)
    ensures SameTables(t, t)
  {
  }

  lemma LockedPlan(t: Table) returns (p: nat -> Table)
    requires Locked(t)
    ensures Endless(p) && p(0) == t
  {
    p := (i: nat) => Plan(t, i);
    forall i: nat
      ensures Fine(p(i)) && SameTables(Next(p(i)), p(i + 1))
    {
      hide Next, Plan;
      PlanStep(t, i);
      SameAsItself(Plan(t, i + 1));
    }
  }

  /** A plan with another pass before. */
  lemma LaterPlan(s: Table, t: Table) returns (p: nat -> Table)
    requires Fine(s) && Locked(t) && SameTables(Next(s), t)
    ensures Endless(p) && p(0) == s
  {
    var q := LockedPlan(t);
    p := (i: nat) => if i == 0 then s else q(i - 1);
    hide Next, SameTables, Fine, Plan;
    assert q(0) == t;
    forall i: nat
      ensures Fine(p(i)) && SameTables(Next(p(i)), p(i + 1))
    {
      if i > 0 {
        assert Fine(q(i - 1)) && SameTables(Next(q(i - 1)), q(i - 1 + 1));
      }
    }
  }

  // ----- finding interlocking tricks

  /** Every trick of `ts` is at least as high as all of `us`. */
  ghost predicate Above(ts: seq<Trick>, us: seq<Trick>) {
    forall t, u | t in ts && u in us :: t.low >= u.high
  }

  function ToFront(ts: seq<Trick>, i: nat): seq<Trick>
    requires i < |ts|
  {
    [ts[i]] + ts[..i] + ts[i + 1..]
  }

  lemma Parts(ts: seq<Trick>, i: nat, r: Card)
    requires i < |ts|
    ensures Copies(ts, r) == Copies([ts[i]], r) + Copies(ts[..i], r) + Copies(ts[i + 1..], r)
  {
    assert ts == ts[..i] + [ts[i]] + ts[i + 1..];
    CopiesAppend(ts[..i], [ts[i]], r);
    CopiesAppend(ts[..i] + [ts[i]], ts[i + 1..], r);
  }

  lemma ToFrontKeeps(ts: seq<Trick>, i: nat)
    requires i < |ts| && Strict(ts)
    ensures SameTricks(ToFront(ts, i), ts) && Strict(ToFront(ts, i)) && ToFront(ts, i)[0] == ts[i]
  {
    hide Copies;
    forall r: Card
      ensures Copies(ToFront(ts, i), r) == Copies(ts, r)
    {
      Parts(ts, i, r);
      CopiesAppend([ts[i]], ts[..i], r);
      CopiesAppend([ts[i]] + ts[..i], ts[i + 1..], r);
    }
  }

  lemma LockAt(ts: seq<Trick>, us: seq<Trick>, i: nat, j: nat) returns (t: Table)
    requires Strict(ts) && Strict(us) && i < |ts| && j < |us| && Interlock(ts[i], us[j])
    ensures Locked(t) && SameTables(Table(ts, us), t)
  {
    ToFrontKeeps(ts, i);
    ToFrontKeeps(us, j);
    t := Table(ToFront(ts, i), ToFront(us, j));
    hide Copies;
  }

  /** Exchanging the low cards of two tricks. */
  function Recut(ts: seq<Trick>, i: nat, k: nat): seq<Trick>
    requires i < |ts| && k < |ts|
  {
    ts[i := Trick(ts[i].high, ts[k].low)][k := Trick(ts[i].low, ts[k].high)]
  }

  lemma RecutKeeps(ts: seq<Trick>, i: nat, k: nat)
    requires Strict(ts) && i < |ts| && k < |ts| && i != k && ts[i].low > ts[k].high
    ensures SameTricks(Recut(ts, i, k), ts) && Strict(Recut(ts, i, k))
    ensures Recut(ts, i, k)[i] == Trick(ts[i].high, ts[k].low)
  {
    hide Copies;
    assert ts[i] in ts && ts[k] in ts;
    var v, w := Trick(ts[i].high, ts[k].low), Trick(ts[i].low, ts[k].high);
    var us := ts[i := v];
    forall r: Card
      ensures Copies(us[k := w], r) == Copies(ts, r)
    {
      UpdateCopies(ts, i, v, r);
      UpdateCopies(us, k, w, r);
      CopiesOne(ts[i], r);
      CopiesOne(ts[k], r);
      CopiesOne(v, r);
      CopiesOne(w, r);
    }
  }

  lemma UpdateCopies(ts: seq<Trick>, i: nat, t: Trick, r: Card)
    requires i < |ts|
    ensures Copies(ts[i := t], r) + Copies([ts[i]], r) == Copies(ts, r) + Copies([t], r)
  {
    Parts(ts, i, r);
    Parts(ts[i := t], i, r);
    assert ts[i := t][..i] == ts[..i] && ts[i := t][i + 1..] == ts[i + 1..];
  }

  /** Unless one player's tricks are all above the other's, two tricks interlock, or
      two of one player do so with a trick of the other once their low cards are
      exchanged. */
  lemma FindLock(ts: seq<Trick>, us: seq<Trick>) returns (t: Table)
    requires Strict(ts) && Strict(us) && !Above(ts, us) && !Above(us, ts)
    ensures Locked(t) && SameTables(Table(ts, us), t)
  {
    hide Copies, Locked, SameTables;
    var i: nat, j: nat :| i < |ts| && j < |us| && ts[i].low < us[j].high;
    var k: nat, l: nat :| k < |ts| && l < |us| && us[l].low < ts[k].high;
    assert ts[i] in ts && ts[k] in ts && us[j] in us && us[l] in us;
    if Interlock(ts[i], us[j]) {
      t := LockAt(ts, us, i, j);
    } else if Interlock(ts[k], us[l]) {
      t := LockAt(ts, us, k, l);
    } else if Interlock(ts[k], us[j]) {
      t := LockAt(ts, us, k, j);
    } else if ts[k].low >= us[j].high {
      RecutKeeps(ts, k, i);
      t := LockAt(Recut(ts, k, i), us, k, j);
      SameThrough(Recut(ts, k, i), ts, us, us, t);
    } else {
      RecutKeeps(us, j, l);
      t := LockAt(ts, Recut(us, j, l), k, j);
      SameThrough(ts, ts, Recut(us, j, l), us, t);
    }
  }

  lemma SameThrough(ts: seq<Trick>, ts': seq<Trick>, us: seq<Trick>, us': seq<Trick>, t: Table)
    requires SameTricks(ts, ts') && SameTricks(us, us') && SameTables(Table(ts, us), t)
    ensures SameTables(Table(ts', us'), t)
  {
    hide Copies;
  }

  /** The trick with the highest card last. */
  lemma {:induction false} HighestLast(ts: seq<Trick>) returns (us: seq<Trick>)
    requires ts != [] && Strict(ts)
    ensures SameTricks(us, ts) && Strict(us) && forall u | u in us :: u in ts && u.high <= us[|us| - 1].high
  {
    hide Copies;
    var i := HighestTrick(ts);
    us := ts[..i] + ts[i + 1..] + [ts[i]];
    forall r: Card
      ensures Copies(us, r) == Copies(ts, r)
    {
      Parts(ts, i, r);
      CopiesAppend(ts[..i], ts[i + 1..], r);
      CopiesAppend(ts[..i] + ts[i + 1..], [ts[i]], r);
    }
  }

  lemma {:induction false} HighestTrick(ts: seq<Trick>) returns (i: nat)
    requires ts != []
    ensures i < |ts| && forall t | t in ts :: t.high <= ts[i].high
  {
    if |ts| == 1 {
      i := 0;
    } else {
      var k := HighestTrick(ts[1..]);
      i := if ts[0].high >= ts[1..][k].high then 0 else k + 1;
      assert forall t | t in ts :: t == ts[0] || t in ts[1..];
    }
  }

  /** The two tricks of a duel that does not interlock. */
  lemma DuelWon(x: seq<Card>, y: seq<Card>)
    requires |x| >= 2 && |y| >= 2 && x[0] > y[0] && x[1] > y[1]
    ensures |Won(x, y)| >= 2 && Won(x, y)[1] == Trick(x[1], y[1])
  {
    assert Won(x[1..], y[1..])[0] == Trick(x[1], y[1]);
  }

  /** The first duel of a pass won by player one, who has fewer tricks. */
  lemma FirstDuelOne(ts: seq<Trick>, us: seq<Trick>)
    requires Strict(ts) && Strict(us) && ts != [] && |ts| < |us| && ts[0].low >= us[0].high
    ensures var n := Next(Table(ts, us));
            && Fine(n) && |n.ts| >= 2 && n.ts[1] == Trick(ts[0].low, us[0].low)
            && n.us[|n.us| - 1] == us[|us| - 1]
  {
    var x, y := Cards(ts), Answer(ts, us);
    var t, u := ts[0], us[0];
    assert t in ts && u in us;
    assert x[..2] == [t.high, t.low] && y[..2] == [u.high, u.low];
    DuelWon(x, y);
    hide Cards, Answer, Won, Strict;
    NextIsFine(Table(ts, us));
  }

  lemma FirstDuelTwo(ts: seq<Trick>, us: seq<Trick>)
    requires Strict(ts) && Strict(us) && us != [] && |us| < |ts| && us[0].low >= ts[0].high
    ensures var n := Next(Table(ts, us));
            && Fine(n) && |n.us| >= 2 && n.us[1] == Trick(us[0].low, ts[0].low)
            && n.ts[|n.ts| - 1] == ts[|ts| - 1]
  {
    var x, y := Cards(ts), Answer(ts, us);
    var t, u := ts[0], us[0];
    assert t in ts && u in us;
    assert x[..2] == [t.high, t.low] && y[..2] == [u.high, u.low];
    DuelWon(y, x);
    hide Cards, Answer, Won, Strict;
    NextIsFine(Table(ts, us));
  }

  /** If one player's tricks are above the other's but fewer, they are not after one
      more pass in which the other's highest trick is not played. */
  lemma PassFirst(ts: seq<Trick>, us: seq<Trick>) returns (p: nat -> Table)
    requires Strict(ts) && Strict(us) && ts != [] && Above(ts, us) && |ts| < |us|
    ensures Endless(p) && SameTables(Table(ts, us), p(0))
  {
    hide Copies, Next;
    var vs := HighestLast(us);
    var t, u, v := ts[0], vs[0], vs[|vs| - 1];
    assert t in ts && u in vs && v in vs;
    FirstDuelOne(ts, vs);
    var s := Table(ts, vs);
    var n := Next(s);
    var l := LockAt(n.ts, n.us, 1, |n.us| - 1);
    p := LaterPlan(s, l);
  }

  lemma PassFirstToo(ts: seq<Trick>, us: seq<Trick>) returns (p: nat -> Table)
    requires Strict(ts) && Strict(us) && us != [] && Above(us, ts) && |us| < |ts|
    ensures Endless(p) && SameTables(Table(ts, us), p(0))
  {
    hide Copies, Next;
    var vs := HighestLast(ts);
    var t, u, v := vs[0], us[0], vs[|vs| - 1];
    assert t in vs && u in us && v in vs;
    FirstDuelTwo(vs, us);
    var s := Table(vs, us);
    var n := Next(s);
    var l := LockAt(n.ts, n.us, |n.ts| - 1, 1);
    p := LaterPlan(s, l);
  }

  lemma NextIsFine(t: Table)
    requires Strict(t.ts) && Strict(t.us) && Next(t).ts != [] && Next(t).us != []
    ensures Fine(Next(t))
  {
  }

  /** One player's tricks are above the other's, and no fewer. */
  ghost predicate Towers(ts: seq<Trick>, us: seq<Trick>) { |ts| >= |us| && Above(ts, us) }

  /** Any other two piles of tricks can be played for ever. */
  lemma PlanFor(ts: seq<Trick>, us: seq<Trick>) returns (p: nat -> Table)
    requires Strict(ts) && Strict(us) && ts != [] && us != []
    requires !Towers(ts, us) && !Towers(us, ts)
    ensures Endless(p) && SameTables(Table(ts, us), p(0))
  {
    hide Copies, Endless, SameTables, Locked;
    if Above(ts, us) {
      p := PassFirst(ts, us);
    } else if Above(us, ts) {
      p := PassFirstToo(ts, us);
    } else {
      var t := FindLock(ts, us);
      p := LockedPlan(t);
    }
  }
}
