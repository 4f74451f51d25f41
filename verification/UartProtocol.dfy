/** The receive buffer shared by the UART interrupt and the main loop, as a step
    machine.  `shell_port_getchar` is cut at every access to shared state; the
    interrupt may run before any step while interrupts are enabled.  Besides the
    shared fields the state keeps the history the claims are about. */
module UartProtocol {
  const CAPACITY: nat := 64

  /** Where the main loop is: outside `shell_port_getchar`, past its test, past the
      load, in the critical section, or about to return the byte. */
  datatype Pc = Idle | Tested | Loaded | Masked | Advanced | Fetched | Stored | Enabled

  /** `readIdx`, `numBytes` and `buf` are the shared buffer; `c` and `fetched` the
      main loop's registers.  `from[i]` tells which accepted byte slot `i` holds and
      `loadedFrom` which one `c` is (-1 for the initial contents); `at[j]` is how
      many bytes had been taken out when byte `j` was accepted; `source[k]` is the
      accepted byte delivered as the `k`-th. */
  datatype Port = Port(
    readIdx: nat, numBytes: int, buf: seq<char>,
    pc: Pc, c: char, fetched: int,
    accepted: seq<char>, at: seq<nat>, from: seq<int>,
    delivered: seq<char>, loadedFrom: int, source: seq<int>)

  datatype Event = Interrupt(c: char) | Main

  predicate IrqEnabled(s: Port) {
    s.pc == Idle || s.pc == Tested || s.pc == Loaded || s.pc == Enabled
  }

  /** Bytes taken out of the buffer: delivered, or about to be. */
  function Taken(s: Port): nat {
    |s.delivered| + if s.pc == Advanced || s.pc == Fetched || s.pc == Stored || s.pc == Enabled then 1 else 0
  }

  predicate Shape(s: Port) {
    && |s.buf| == |s.from| == CAPACITY && s.readIdx < CAPACITY
    && |s.at| == |s.accepted| && |s.source| == |s.delivered|
  }

  /** `uart_byte_received_from_isr_cb`. */
  function Isr(s: Port, c: char): (t: Port)
    requires Shape(s)
    ensures Shape(t)
  {
    if s.numBytes >= CAPACITY then s
    else s.(buf := s.buf[s.readIdx := c], numBytes := s.numBytes + 1,
            accepted := s.accepted + [c], at := s.at + [Taken(s)],
            from := s.from[s.readIdx := |s.accepted|])
  }

  /** The next step of the main loop. */
  function MainStep(s: Port): (t: Port)
    requires Shape(s)
    ensures Shape(t)
  {
    match s.pc
    case Idle => if s.numBytes == 0 then s else s.(pc := Tested)
    case Tested => s.(pc := Loaded, c := s.buf[s.readIdx], loadedFrom := s.from[s.readIdx])
    case Loaded => s.(pc := Masked)
    case Masked => s.(pc := Advanced, readIdx := (s.readIdx + 1) % CAPACITY)
    case Advanced => s.(pc := Fetched, fetched := s.numBytes)
    case Fetched => s.(pc := Stored, numBytes := s.fetched - 1)
    case Stored => s.(pc := Enabled)
    case Enabled => s.(pc := Idle, delivered := s.delivered + [s.c], source := s.source + [s.loadedFrom])
  }

  /** An interrupt that arrives while masked stays pending: no such step. */
  function Step(s: Port, e: Event): (t: Port)
    requires Shape(s)
    ensures Shape(t)
  {
    match e
    case Interrupt(c) => if IrqEnabled(s) then Isr(s, c) else s
    case Main => MainStep(s)
  }

  function Run(s: Port, events: seq<Event>): (t: Port)
    requires Shape(s)
    ensures Shape(t)
    decreases events
  {
    if events == [] then s else Run(Step(s, events[0]), events[1..])
  }

  function Boot(): Port {
    Port(0, 0, seq(CAPACITY, _ => '\0'), Idle, '\0', 0, [], [], seq(CAPACITY, _ => -1), [], -1, [])
  }

  /** The counting invariant. */
  predicate Counted(s: Port) {
    && Shape(s)
    && s.readIdx == Taken(s) % CAPACITY
    && s.numBytes == |s.accepted| - |s.delivered| - (if s.pc == Stored || s.pc == Enabled then 1 else 0)
    && 0 <= s.numBytes <= CAPACITY
    && (s.pc == Tested || s.pc == Loaded || s.pc == Masked || s.pc == Advanced || s.pc == Fetched ==> s.numBytes >= 1)
    && (s.pc == Fetched ==> s.fetched == s.numBytes)
  }

  /** The history says where every byte is from. */
  ghost predicate Traced(s: Port) {
    && Shape(s)
    && (forall j | 0 <= j < |s.accepted| :: s.at[j] <= j < s.at[j] + CAPACITY)
    && (forall i | 0 <= i < CAPACITY :: -1 <= s.from[i] < |s.accepted|)
    && (forall i | 0 <= i < CAPACITY && s.from[i] >= 0 ::
          s.buf[i] == s.accepted[s.from[i]] && s.at[s.from[i]] % CAPACITY == i)
    && (forall k | 0 <= k < |s.delivered| :: -1 <= s.source[k] < |s.accepted|)
    && (forall k | 0 <= k < |s.delivered| && s.source[k] >= 0 ::
          s.delivered[k] == s.accepted[s.source[k]] && s.at[s.source[k]] % CAPACITY == k % CAPACITY)
  }

  /** A byte held by the main loop is as well traced as one in the buffer. */
  predicate Holding(s: Port) {
    && |s.at| == |s.accepted|
    && (s.pc != Idle && s.pc != Tested ==>
         && -1 <= s.loadedFrom < |s.accepted|
         && (s.loadedFrom >= 0 ==>
              && s.c == s.accepted[s.loadedFrom]
              && s.at[s.loadedFrom] % CAPACITY == |s.delivered| % CAPACITY))
  }

  ghost predicate Inv(s: Port) { Counted(s) && Traced(s) && Holding(s) }

  lemma BootInv()
    ensures Inv(Boot())
  {
  }

  lemma IsrInv(s: Port, c: char)
    requires Inv(s) && IrqEnabled(s)
    ensures Inv(Isr(s, c))
  {
    if s.numBytes < CAPACITY {
      var t := Isr(s, c);
      assert forall j | 0 <= j < |s.accepted| :: t.at[j] == s.at[j] && t.accepted[j] == s.accepted[j];
    }
  }

  lemma MainCounted(s: Port)
    requires Counted(s)
    ensures Counted(MainStep(s))
  {
    if s.pc == Masked {
      NextSlot(|s.delivered|);
    }
  }

  lemma MainTraced(s: Port)
    requires Traced(s) && Holding(s)
    ensures Traced(MainStep(s))
  {
  }

  lemma MainHolding(s: Port)
    requires Inv(s)
    ensures Holding(MainStep(s))
  {
  }

  lemma MainInv(s: Port)
    requires Inv(s)
    ensures Inv(MainStep(s))
  {
    hide Counted, Traced, Holding, MainStep;
    MainCounted(s);
    MainTraced(s);
    MainHolding(s);
  }

  lemma NextSlot(n: nat)
    ensures (n % CAPACITY + 1) % CAPACITY == (n + 1) % CAPACITY
  {
  }

  /** In every interleaving the count is exact, stays between 0 and 64 and is never
      decremented from 0, and the read index follows the bytes taken out. */
  lemma {:induction false} RunInv(s: Port, events: seq<Event>)
    requires Inv(s)
    ensures Inv(Run(s, events))
    decreases events
  {
    if events != [] {
      match events[0] {
        case Interrupt(c) =>
          if IrqEnabled(s) {
            IsrInv(s, c);
          }
        case Main => MainInv(s);
      }
      hide Inv;
      RunInv(Step(s, events[0]), events[1..]);
    }
  }

  lemma CountingHolds(events: seq<Event>)
    ensures var s := Run(Boot(), events);
            && 0 <= s.numBytes <= CAPACITY
            && (s.pc == Idle ==> s.numBytes == |s.accepted| - |s.delivered| && s.readIdx == |s.delivered| % CAPACITY)
            && (s.pc == Fetched ==> s.numBytes > 0 && s.fetched == s.numBytes)
  {
    BootInv();
    RunInv(Boot(), events);
  }

  // ----- what is accepted

  /** An interrupt that is taken stores its byte unless 64 are waiting; one that finds 64
      waiting, or interrupts masked, changes nothing. */
  lemma InterruptStores(s: Port, c: char)
    requires Shape(s)
    ensures var t := Step(s, Interrupt(c));
            && (IrqEnabled(s) && s.numBytes < 64 ==>
                 && t.accepted == s.accepted + [c] && t.numBytes == s.numBytes + 1 && t.buf == s.buf[s.readIdx := c]
                 && t.readIdx == s.readIdx && t.delivered == s.delivered && t.pc == s.pc)
            && (!IrqEnabled(s) || s.numBytes >= 64 ==> t == s)
  {
  }

  /** When an interrupt is taken: at any time but between the masking and the unmasking
      of interrupts around the update of index and count. */
  lemma InterruptWindow(s: Port, c: char)
    requires Shape(s) && s.numBytes < 64
    ensures var t := Step(s, Interrupt(c));
            if s.pc == Masked || s.pc == Advanced || s.pc == Fetched || s.pc == Stored then t == s
            else t.accepted == s.accepted + [c]
  {
  }

  /** The bytes of the interrupts taken in a run, in order. */
  function Arrivals(s: Port, events: seq<Event>): seq<char>
    requires Shape(s)
    decreases events
  {
    if events == [] then []
    else
      (if events[0].Interrupt? && IrqEnabled(s) then [events[0].c] else [])
      + Arrivals(Step(s, events[0]), events[1..])
  }

  /** Every interrupt taken finds fewer than 64 bytes waiting. */
  predicate NeverFull(s: Port, events: seq<Event>)
    requires Shape(s)
    decreases events
  {
    || events == []
    || ((events[0].Interrupt? && IrqEnabled(s) ==> s.numBytes < 64) && NeverFull(Step(s, events[0]), events[1..]))
  }

  /** Everything that arrives is accepted exactly when no interrupt finds the buffer full. */
  lemma {:induction false} AcceptsExactly(s: Port, events: seq<Event>)
    requires Shape(s)
    ensures var t := Run(s, events);
            && |t.accepted| <= |s.accepted| + |Arrivals(s, events)|
            && (NeverFull(s, events) <==> t.accepted == s.accepted + Arrivals(s, events))
            && (!NeverFull(s, events) ==> |t.accepted| < |s.accepted| + |Arrivals(s, events)|)
    decreases events
  {
    if events == [] {
      assert s.accepted + [] == s.accepted;
    } else {
      var e, t := events[0], Step(s, events[0]);
      var rest := Arrivals(t, events[1..]);
      if e.Interrupt? {
        InterruptStores(s, e.c);
        assert s.accepted + ([e.c] + rest) == s.accepted + [e.c] + rest;
      } else {
        MainAccepts(s);
      }
      assert [] + rest == rest;
      AcceptsExactly(t, events[1..]);
      hide Step;
    }
  }

  lemma MainAccepts(s: Port)
    requires Shape(s)
    ensures MainStep(s).accepted == s.accepted
  {
  }

  function Burst(bytes: seq<char>): (events: seq<Event>)
    ensures |events| == |bytes| && forall i | 0 <= i < |bytes| :: events[i] == Interrupt(bytes[i])
  {
    seq(|bytes|, i requires 0 <= i < |bytes| => Interrupt(bytes[i]))
  }

  /** As many of the bytes as there is room for. */
  function Fitting(bytes: seq<char>, room: nat): (s: seq<char>)
    ensures |s| == if |bytes| <= room then |bytes| else room
  {
    if |bytes| <= room then bytes else bytes[..room]
  }

  lemma FittingOne(bytes: seq<char>, room: nat)
    requires bytes != []
    ensures Fitting(bytes, room) == if room == 0 then [] else [bytes[0]] + Fitting(bytes[1..], room - 1)
  {
  }

  /** From `s` to `t` the bytes that fit have been accepted and counted. */
  predicate Queued(s: Port, t: Port, bytes: seq<char>) {
    && 0 <= s.numBytes <= 64
    && t.accepted == s.accepted + Fitting(bytes, 64 - s.numBytes)
    && t.numBytes == s.numBytes + |Fitting(bytes, 64 - s.numBytes)|
  }

  lemma QueuedOneMore(s: Port, t: Port, bytes: seq<char>)
    requires Shape(s) && IrqEnabled(s) && 0 <= s.numBytes <= 64 && bytes != []
    requires Queued(Step(s, Interrupt(bytes[0])), t, bytes[1..])
    ensures Queued(s, t, bytes)
  {
    InterruptStores(s, bytes[0]);
    FittingOne(bytes, 64 - s.numBytes);
    hide Step, Shape, Fitting;
    if s.numBytes < 64 {
      AppendThrough(s.accepted, bytes[0], Fitting(bytes[1..], 63 - s.numBytes));
    } else {
      FittingNone(bytes[1..]);
    }
  }

  lemma AppendThrough(s: seq<char>, c: char, t: seq<char>)
    ensures s + [c] + t == s + ([c] + t)
  {
  }

  lemma FittingNone(bytes: seq<char>)
    ensures Fitting(bytes, 0) == []
  {
  }

  lemma {:induction false} BurstFrom(s: Port, bytes: seq<char>)
    requires Shape(s) && IrqEnabled(s) && 0 <= s.numBytes <= 64
    ensures Queued(s, Run(s, Burst(bytes)), bytes)
    decreases bytes
  {
    if bytes == [] {
      assert s.accepted + [] == s.accepted;
    } else {
      var t := Step(s, Interrupt(bytes[0]));
      assert Burst(bytes)[1..] == Burst(bytes[1..]);
      InterruptStores(s, bytes[0]);
      hide Step, Queued, Shape;
      BurstFrom(t, bytes[1..]);
      QueuedOneMore(s, Run(t, Burst(bytes[1..])), bytes);
    }
  }

  /** Before the first read the first 64 bytes are accepted, and no more. */
  lemma FirstSixtyFour(bytes: seq<char>)
    ensures var s := Run(Boot(), Burst(bytes));
            && s.accepted == (if |bytes| <= 64 then bytes else bytes[..64])
            && s.numBytes == (if |bytes| <= 64 then |bytes| else 64)
  {
    BurstFrom(Boot(), bytes);
    assert forall s: seq<char> :: [] + s == s;
  }

  // ----- order

  /** Every byte was accepted into an empty buffer. */
  ghost predicate OneAtATime(s: Port) {
    forall j | 0 <= j < |s.at| :: s.at[j] == j
  }

  /** Every delivered byte is the accepted byte of the same number. */
  ghost predicate InOrder(s: Port) {
    forall k | 0 <= k < |s.source| :: s.source[k] == k
  }

  /** While bytes come one at a time, the outstanding one is where it is looked for. */
  ghost predicate Aligned(s: Port) {
    && |s.from| == CAPACITY && s.readIdx < CAPACITY
    && InOrder(s)
    && |s.accepted| <= Taken(s) + 1
    && (|s.accepted| == Taken(s) + 1 ==> s.from[s.readIdx] == Taken(s))
    && (s.pc != Idle && s.pc != Tested ==> s.loadedFrom == |s.delivered|)
  }

  lemma StepKeepsOrder(s: Port, e: Event)
    requires Inv(s) && OneAtATime(Step(s, e))
    requires OneAtATime(s) ==> Aligned(s)
    ensures Aligned(Step(s, e))
  {
    var t := Step(s, e);
    assert OneAtATime(s) by {
      assert forall j | 0 <= j < |s.at| :: s.at[j] == t.at[j];
    }
    if e.Interrupt? && IrqEnabled(s) && s.numBytes < CAPACITY {
      assert t.at[|s.at|] == Taken(s);
    }
  }

  lemma {:induction false} RunKeepsOrder(s: Port, events: seq<Event>)
    requires Inv(s) && (OneAtATime(s) ==> Aligned(s))
    ensures OneAtATime(Run(s, events)) ==> Aligned(Run(s, events))
    decreases events
  {
    if events != [] {
      var t := Step(s, events[0]);
      RunInv(s, [events[0]]);
      assert [events[0]][1..] == [];
      if OneAtATime(t) {
        StepKeepsOrder(s, events[0]);
      }
      hide Inv, OneAtATime, Aligned, Step;
      RunKeepsOrder(t, events[1..]);
    }
  }

  /** Every interrupt that is taken finds the buffer empty. */
  predicate ArrivesEmpty(s: Port, events: seq<Event>)
    requires Shape(s)
    decreases events
  {
    || events == []
    || ((events[0].Interrupt? && IrqEnabled(s) ==> s.numBytes == 0) && ArrivesEmpty(Step(s, events[0]), events[1..]))
  }

  lemma StepArrival(s: Port, e: Event)
    requires Inv(s) && (OneAtATime(s) ==> Aligned(s))
    ensures OneAtATime(Step(s, e)) <==> OneAtATime(s) && (e.Interrupt? && IrqEnabled(s) ==> s.numBytes == 0)
  {
    var t := Step(s, e);
    assert |s.at| <= |t.at| && forall j | 0 <= j < |s.at| :: t.at[j] == s.at[j];
    if e.Interrupt? && IrqEnabled(s) && s.numBytes < CAPACITY {
      assert t.at[|s.at|] == Taken(s);
    }
  }

  /** The history says so exactly when the interrupts found it so. */
  lemma {:induction false} ArrivalIsHistory(s: Port, events: seq<Event>)
    requires Inv(s) && (OneAtATime(s) ==> Aligned(s))
    ensures OneAtATime(Run(s, events)) <==> OneAtATime(s) && ArrivesEmpty(s, events)
    decreases events
  {
    if events != [] {
      var t := Step(s, events[0]);
      RunInv(s, [events[0]]);
      assert [events[0]][1..] == [];
      StepArrival(s, events[0]);
      if OneAtATime(t) {
        StepKeepsOrder(s, events[0]);
      }
      hide Inv, OneAtATime, Aligned, Step;
      ArrivalIsHistory(t, events[1..]);
    }
  }

  lemma ArrivalFromBoot(events: seq<Event>)
    ensures OneAtATime(Run(Boot(), events)) <==> ArrivesEmpty(Boot(), events)
  {
    BootInv();
    ArrivalIsHistory(Boot(), events);
  }

  /** If the interrupt only ever finds the buffer empty, what has been delivered is
      a prefix of what was received, in order, with at most one byte outstanding. */
  lemma OrderIsKept(events: seq<Event>)
    requires ArrivesEmpty(Boot(), events)
    ensures var s := Run(Boot(), events);
            s.delivered <= s.accepted && |s.accepted| <= Taken(s) + 1
  {
    ArrivalFromBoot(events);
    BootInv();
    RunInv(Boot(), events);
    RunKeepsOrder(Boot(), events);
  }

  /** And no more can be hoped for.  The interrupt stores at the read index, not
      behind the bytes waiting there: once all bytes have been taken out, they came
      out in order exactly when each had arrived in an empty buffer. */
  lemma OrderExactly(events: seq<Event>)
    requires var s := Run(Boot(), events); s.pc == Idle && s.numBytes == 0
    ensures InOrder(Run(Boot(), events)) <==> ArrivesEmpty(Boot(), events)
  {
    ArrivalFromBoot(events);
    BootInv();
    RunInv(Boot(), events);
    var s := Run(Boot(), events);
    if InOrder(s) {
      forall j | 0 <= j < |s.at|
        ensures s.at[j] == j
      {
        assert s.source[j] == j;
        SameSlot(s.at[j], j);
      }
    }
    RunKeepsOrder(Boot(), events);
  }

  lemma SameSlot(m: nat, n: nat)
    requires m % CAPACITY == n % CAPACITY && m <= n < m + CAPACITY
    ensures m == n
  {
  }

  function Getchar(): seq<Event> { [Main, Main, Main, Main, Main, Main, Main, Main] }

  /** An undisturbed call takes the byte at the read index. */
  lemma GetcharTakes(s: Port)
    requires Shape(s) && s.pc == Idle && s.numBytes > 0
    ensures Run(s, Getchar())
         == s.(readIdx := (s.readIdx + 1) % CAPACITY, numBytes := s.numBytes - 1,
               c := s.buf[s.readIdx], fetched := s.numBytes, loadedFrom := s.from[s.readIdx],
               delivered := s.delivered + [s.buf[s.readIdx]], source := s.source + [s.from[s.readIdx]])
  {
    EightSteps(s);
    var s3 := MainStep(MainStep(MainStep(s)));
    assert s3 == s.(pc := Masked, c := s.buf[s.readIdx], loadedFrom := s.from[s.readIdx]);
    var s6 := MainStep(MainStep(MainStep(s3)));
    assert s6 == s3.(pc := Stored, readIdx := (s.readIdx + 1) % CAPACITY,
                     fetched := s.numBytes, numBytes := s.numBytes - 1);
  }

  /** Bytes that are each followed by a call. */
  function Polled(bytes: seq<char>): seq<Event> {
    if bytes == [] then [] else [Interrupt(bytes[0])] + Getchar() + Polled(bytes[1..])
  }

  /** They are delivered as they came. */
  lemma {:induction false} PolledBytesArrive(s: Port, bytes: seq<char>)
    requires Shape(s) && s.pc == Idle && s.numBytes == 0
    ensures var t := Run(s, Polled(bytes));
            t.pc == Idle && t.numBytes == 0 && t.delivered == s.delivered + bytes
    decreases bytes
  {
    if bytes == [] {
      assert s.delivered + [] == s.delivered;
    } else {
      var c := bytes[0];
      InterruptStores(s, c);
      var t := Step(s, Interrupt(c));
      GetcharTakes(t);
      var calls, rest := Getchar(), Polled(bytes[1..]);
      assert [Interrupt(c)] + calls + rest == [Interrupt(c)] + (calls + rest);
      assert ([Interrupt(c)] + (calls + rest))[1..] == calls + rest;
      hide Getchar, Step;
      RunConcat(t, calls, rest);
      var v := Run(t, calls);
      PolledBytesArrive(v, bytes[1..]);
      assert s.delivered + [c] + bytes[1..] == s.delivered + bytes;
    }
  }

  lemma EightSteps(s: Port)
    requires Shape(s)
    ensures Run(s, Getchar())
         == MainStep(MainStep(MainStep(MainStep(MainStep(MainStep(MainStep(MainStep(s))))))))
  {
    hide Run, MainStep, Shape;
    var s2 := MainStep(MainStep(s));
    var s4 := MainStep(MainStep(s2));
    var s6 := MainStep(MainStep(s4));
    RunTwo(s, [Main, Main, Main, Main, Main, Main]);
    RunTwo(s2, [Main, Main, Main, Main]);
    RunTwo(s4, [Main, Main]);
    RunTwo(s6, []);
    RunNone(MainStep(MainStep(s6)));
    assert Getchar() == [Main, Main] + [Main, Main, Main, Main, Main, Main];
    assert [Main, Main, Main, Main, Main, Main] == [Main, Main] + [Main, Main, Main, Main];
    assert [Main, Main, Main, Main] == [Main, Main] + [Main, Main];
    assert [Main, Main] == [Main, Main] + [];
  }

  lemma RunNone(s: Port)
    requires Shape(s)
    ensures Run(s, []) == s
  {
  }

  lemma RunOne(s: Port, e: Event)
    requires Shape(s)
    ensures Run(s, [e]) == Step(s, e)
  {
    assert [e][1..] == [];
  }

  lemma RunTwo(s: Port, rest: seq<Event>)
    requires Shape(s)
    ensures Run(s, [Main, Main] + rest) == Run(MainStep(MainStep(s)), rest)
  {
    assert ([Main, Main] + rest)[1..] == [Main] + rest;
    assert ([Main] + rest)[1..] == rest;
  }

  /** The smallest run that loses the order: two bytes before the first is read.
      The second overwrites the first, and the second read finds an unused slot. */
  lemma TwoBytesWaiting(x: char, y: char)
    ensures var s := Run(Boot(), [Interrupt(x), Interrupt(y)] + Getchar() + Getchar());
            s.accepted == [x, y] && s.delivered == [y, '\0']
  {
    var both := [Interrupt(x), Interrupt(y)];
    var s := Isr(Isr(Boot(), x), y);
    assert both == [Interrupt(x)] + [Interrupt(y)];
    RunConcat(Boot(), [Interrupt(x)], [Interrupt(y)]);
    RunOne(Boot(), Interrupt(x));
    RunOne(Isr(Boot(), x), Interrupt(y));
    RunConcat(Boot(), both, Getchar());
    RunConcat(Boot(), both + Getchar(), Getchar());
    GetcharTakes(s);
    GetcharTakes(Run(s, Getchar()));
  }

  lemma {:induction false} RunConcat(s: Port, x: seq<Event>, y: seq<Event>)
    requires Shape(s)
    ensures Run(s, x + y) == Run(Run(s, x), y)
    decreases x
  {
    if x == [] {
      assert x + y == y;
    } else {
      assert (x + y)[1..] == x[1..] + y;
      RunConcat(Step(s, x[0]), x[1..], y);
    }
  }
}
