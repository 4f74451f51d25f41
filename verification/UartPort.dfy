/** The shared receive buffer as it runs.  A call of `shell_port_getchar` is given
    the bytes whose interrupts arrive at each point where interrupts are enabled,
    and is proved to be the corresponding run of `UartProtocol`. */
module UartPort {
  import opened UartProtocol

  datatype Reading = Nothing | Byte(c: char)

  function Interrupts(input: seq<char>): seq<Event> {
    seq(|input|, i requires 0 <= i < |input| => Interrupt(input[i]))
  }

  lemma InterruptMore(s: Port, input: seq<char>, i: nat)
    requires Shape(s) && i < |input|
    ensures Run(s, Interrupts(input)[..i + 1]) == Step(Run(s, Interrupts(input)[..i]), Interrupt(input[i]))
  {
    var events := Interrupts(input);
    RunConcat(s, events[..i], [events[i]]);
    RunOne(Run(s, events[..i]), events[i]);
    assert events[..i] + [events[i]] == events[..i + 1];
  }

  /** The steps of one call with interrupts before the test, the load, the masking
      and the return. */
  function CallSteps(s: Port, first: seq<char>, second: seq<char>, third: seq<char>, fourth: seq<char>): seq<Event>
    requires Shape(s)
  {
    if Run(s, Interrupts(first)).numBytes == 0 then Interrupts(first) + [Main]
    else
      Interrupts(first) + [Main] + Interrupts(second) + [Main] + Interrupts(third)
      + [Main, Main, Main, Main, Main] + Interrupts(fourth) + [Main]
  }

  class Buffer {
    var readIdx: nat
    var numBytes: int
    const buf: array<char>
    /** The protocol state, kept in step with every access. */
    ghost var state: Port

    ghost predicate Valid()
      reads this, buf
    {
      && buf.Length == CAPACITY && Inv(state)
      && state.readIdx == readIdx && state.numBytes == numBytes && state.buf == buf[..]
    }

    constructor ()
      ensures Valid() && state == Boot() && fresh(buf)
    {
      readIdx, numBytes := 0, 0;
      buf := new char[CAPACITY](_ => '\0');
      state := Boot();
      new;
      BootInv();
    }

    method ByteReceivedFromIsr(c: char)
      requires Valid() && IrqEnabled(state)
      modifies this, buf
      ensures Valid() && state == Step(old(state), Interrupt(c))
    {
      IsrInv(state, c);
      state := Isr(state, c);
      if numBytes >= buf.Length {
        return;
      }
      buf[readIdx] := c;
      numBytes := numBytes + 1;
    }

    /** Interrupts that arrive one after another. */
    method Pending(input: seq<char>)
      requires Valid() && IrqEnabled(state)
      modifies this, buf
      ensures Valid() && state == Run(old(state), Interrupts(input)) && state.pc == old(state).pc
      ensures state.delivered == old(state).delivered && state.c == old(state).c
    {
      hide Traced, Holding;
      var i := 0;
      assert Interrupts(input)[..0] == [];
      while i < |input|
        invariant 0 <= i <= |input| && Valid() && state.pc == old(state).pc
        invariant state.delivered == old(state).delivered && state.c == old(state).c
        invariant state == Run(old(state), Interrupts(input)[..i])
      {
        InterruptMore(old(state), input, i);
        ByteReceivedFromIsr(input[i]);
        i := i + 1;
      }
      assert Interrupts(input)[..|input|] == Interrupts(input);
    }

    /** The main loop's next step, in the history. */
    ghost method Advance()
      requires Inv(state)
      modifies this`state
      ensures Inv(state) && state == MainStep(old(state))
    {
      MainInv(state);
      state := MainStep(state);
    }

    /** The critical section. */
    method TakeOut()
      requires Valid() && state.pc == Loaded
      modifies this
      ensures Valid() && state == Critical(old(state)) && state.pc == Enabled
      ensures state.delivered == old(state).delivered && state.c == old(state).c
    {
      hide Traced, Holding;
      Advance();  // __disable_irq
      readIdx := (readIdx + 1) % buf.Length;
      Advance();
      var count := numBytes;
      Advance();
      numBytes := count - 1;
      Advance();
      Advance();  // __enable_irq
    }

    method Getchar(first: seq<char>, second: seq<char>, third: seq<char>, fourth: seq<char>) returns (r: Reading)
      requires Valid() && state.pc == Idle
      modifies this, buf
      ensures Valid() && state.pc == Idle
      ensures state == Run(old(state), CallSteps(old(state), first, second, third, fourth))
      ensures r.Nothing? <==> Run(old(state), Interrupts(first)).numBytes == 0
      ensures state.delivered == old(state).delivered + match r case Nothing => [] case Byte(c) => [c]
    {
      hide Run, Critical, CallSteps, Interrupts, Traced, Holding;
      Pending(first);
      ghost var s0 := state;
      if numBytes == 0 {
        Advance();
        NothingRead(old(state), first, second, third, fourth);
        return Nothing;
      }
      Advance();
      Pending(second);
      ghost var s2 := state;
      var c := buf[readIdx];
      Advance();
      Pending(third);
      ghost var s4 := state;
      TakeOut();
      Pending(fourth);
      ghost var s6 := state;
      Advance();
      ByteRead(old(state), first, second, third, fourth, s0, s2, s4, s6);
      return Byte(c);
    }
  }

  function Critical(s: Port): (t: Port)
    requires Shape(s)
    ensures Shape(t)
  {
    MainStep(MainStep(MainStep(MainStep(MainStep(s)))))
  }

  lemma NothingRead(s: Port, first: seq<char>, second: seq<char>, third: seq<char>, fourth: seq<char>)
    requires Shape(s) && Run(s, Interrupts(first)).numBytes == 0
    ensures Run(s, CallSteps(s, first, second, third, fourth)) == MainStep(Run(s, Interrupts(first)))
  {
    RunConcat(s, Interrupts(first), [Main]);
    RunOne(Run(s, Interrupts(first)), Main);
  }

  lemma RunCritical(s: Port)
    requires Shape(s)
    ensures Run(s, [Main, Main, Main, Main, Main]) == Critical(s)
  {
    RunTwo(s, [Main, Main, Main]);
    RunTwo(MainStep(MainStep(s)), [Main]);
    RunOne(MainStep(MainStep(MainStep(MainStep(s)))), Main);
  }

  lemma ByteRead(s: Port, first: seq<char>, second: seq<char>, third: seq<char>, fourth: seq<char>,
                 s0: Port, s2: Port, s4: Port, s6: Port)
    requires Shape(s) && s0 == Run(s, Interrupts(first)) && s0.numBytes != 0
    requires s2 == Run(MainStep(s0), Interrupts(second))
    requires s4 == Run(MainStep(s2), Interrupts(third))
    requires s6 == Run(Critical(s4), Interrupts(fourth))
    ensures Run(s, CallSteps(s, first, second, third, fourth)) == MainStep(s6)
  {
    hide *;
    var early := ThenMain(s, Interrupts(first), s0);
    var loading := ThenMain(s, Then(s, early, Interrupts(second), MainStep(s0)), s2);
    var masking := Then(s, loading, Interrupts(third), MainStep(s2));
    RunCritical(s4);
    var taken := Then(s, masking, [Main, Main, Main, Main, Main], s4);
    var all := ThenMain(s, Then(s, taken, Interrupts(fourth), Critical(s4)), s6);
    StepsOfByte(s, first, second, third, fourth);
  }

  lemma StepsOfByte(s: Port, first: seq<char>, second: seq<char>, third: seq<char>, fourth: seq<char>)
    requires Shape(s) && Run(s, Interrupts(first)).numBytes != 0
    ensures CallSteps(s, first, second, third, fourth)
         == Interrupts(first) + [Main] + Interrupts(second) + [Main] + Interrupts(third)
            + [Main, Main, Main, Main, Main] + Interrupts(fourth) + [Main]
  {
  }

  /** A run, and what it becomes with more steps. */
  function Then(s: Port, x: seq<Event>, y: seq<Event>, t: Port): (xy: seq<Event>)
    requires Shape(s) && Run(s, x) == t
    ensures xy == x + y && Run(s, xy) == Run(t, y)
  {
    RunConcat(s, x, y);
    x + y
  }

  function ThenMain(s: Port, x: seq<Event>, t: Port): (xm: seq<Event>)
    requires Shape(s) && Run(s, x) == t
    ensures xm == x + [Main] && Run(s, xm) == MainStep(t)
  {
    RunOne(t, Main);
    Then(s, x, [Main], t)
  }
}
