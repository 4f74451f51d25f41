/** The shell as it runs: one receive buffer edited and cut up in place, proved to
    compute the line editor of `LineEditor` and to echo as in `Terminal`. */
module Shell {
  import opened LineEditor
  import opened Terminal

  // ----- cutting a line into arguments

  /** Where the scan for arguments stops: after the sixteenth word, or at the end. */
  function Scanned(words: seq<string>, starts: seq<nat>, size: nat): int
    requires |starts| == MAX_ARGS <= |words| || |starts| < MAX_ARGS
  {
    if |starts| == MAX_ARGS then starts[MAX_ARGS - 1] + |words[MAX_ARGS - 1]| + 1 else size
  }

  /** `starts` are the positions of the first words of `text`, in order and apart. */
  ghost predicate Located(text: string, words: seq<string>, starts: seq<nat>) {
    && |starts| <= |words|
    && (forall k | 0 <= k < |starts| ::
          && starts[k] + |words[k]| <= |text|
          && text[starts[k]..starts[k] + |words[k]|] == words[k]
          && Cut(text, starts[k] + |words[k]|))
    && (forall j, k | 0 <= j < k < |starts| :: starts[j] + |words[j]| < starts[k])
  }

  /** Position `i` ends a word: a delimiter, or the end of the text. */
  predicate Cut(text: string, i: nat) {
    i >= |text| || IsDelimiter(text[i])
  }

  function WordEnd(done: seq<string>, starts: seq<nat>): nat
    requires |done| == |starts|
  {
    if starts == [] then 0 else starts[|starts| - 1] + |done[|done| - 1]| + 1
  }

  /** How far a scan that has passed the first `i` characters has got: the words
      completed, where they start, and the start of a word still open. */
  ghost predicate Progress(text: string, done: seq<string>, starts: seq<nat>, inWord: bool, start: nat, i: nat) {
    && i <= |text| + 1 && |done| == |starts| <= MAX_ARGS
    && Located(text, done, starts)
    && WordEnd(done, starts) <= i
    && (|starts| == MAX_ARGS ==> WordEnd(done, starts) == i && !inWord)
    && (inWord ==> WordEnd(done, starts) <= start < i <= |text| && forall m | start <= m < i :: !IsDelimiter(text[m]))
    && Words(text) == done + Words(text[if inWord then start else if i <= |text| then i else |text|..])
  }

  lemma LocateNext(text: string, done: seq<string>, starts: seq<nat>, start: nat, i: nat)
    requires |done| == |starts| && Located(text, done, starts)
    requires WordEnd(done, starts) <= start < i <= |text| && Cut(text, i)
    ensures Located(text, done + [text[start..i]], starts + [start])
    ensures WordEnd(done + [text[start..i]], starts + [start]) == i + 1
  {
    hide IsDelimiter, Cut;
    var more, at := done + [text[start..i]], starts + [start];
    assert forall k | 0 <= k < |starts| :: more[k] == done[k] && at[k] == starts[k];
    assert forall k | 0 <= k < |starts| :: starts[k] + |done[k]| < start;
  }

  lemma NextWord(text: string, start: nat, i: nat)
    requires start < i <= |text| && Cut(text, i)
    requires forall m | start <= m < i :: !IsDelimiter(text[m])
    ensures Words(text[start..]) == [text[start..i]] + Words(text[if i < |text| then i + 1 else i..])
  {
    FirstWord(text[start..i], text[i..]);
    assert text[start..i] + text[i..] == text[start..];
    if i < |text| {
      assert text[i..][1..] == text[i + 1..];
    }
  }

  lemma CloseWord(text: string, done: seq<string>, starts: seq<nat>, start: nat, i: nat)
    requires Progress(text, done, starts, true, start, i) && Cut(text, i)
    ensures Progress(text, done + [text[start..i]], starts + [start], false, start, i + 1)
  {
    hide Words, Located;
    NextWord(text, start, i);
    LocateNext(text, done, starts, start, i);
    var rest := Words(text[if i < |text| then i + 1 else i..]);
    assert done + ([text[start..i]] + rest) == done + [text[start..i]] + rest;
  }

  lemma SkipDelimiter(text: string, done: seq<string>, starts: seq<nat>, start: nat, i: nat)
    requires Progress(text, done, starts, false, start, i) && Cut(text, i)
    requires i <= |text| && |starts| < MAX_ARGS
    ensures Progress(text, done, starts, false, start, i + 1)
  {
    if i < |text| {
      assert text[i..][1..] == text[i + 1..];
    }
  }

  /** The stored characters with NUL in place of every delimiter before `upTo`,
      the last character counting as one. */
  function CutUp(stored: string, upTo: int): (cut: string)
    ensures |cut| == |stored|
    ensures forall i | 0 <= i < |stored| ::
              cut[i] == if i < upTo && (i == |stored| - 1 || IsDelimiter(stored[i])) then '\0' else stored[i]
  {
    seq(|stored|, i requires 0 <= i < |stored| =>
      if i < upTo && (i == |stored| - 1 || IsDelimiter(stored[i])) then '\0' else stored[i])
  }

  /** The tokenizing loop.  The last of the `size` characters only ends the text:
      it is a newline, or the character that filled the buffer. */
  method Tokenize(buffer: array<char>, size: nat) returns (starts: seq<nat>)
    requires 0 < size <= buffer.Length
    modifies buffer
    ensures var text := old(buffer[..size - 1]);
            var words := Words(text);
            && |starts| == (if |words| < MAX_ARGS then |words| else MAX_ARGS)
            && Located(text, words, starts)
            && buffer[..size] == CutUp(old(buffer[..size]), Scanned(words, starts, size))
            && buffer[size..] == old(buffer[size..])
  {
    hide Words, Located;
    ghost var text := buffer[..size - 1];
    ghost var done: seq<string> := [];
    starts := [];
    var inWord, start := false, 0;
    var i := 0;
    ScanStarts(text);
    while i < size && |starts| < MAX_ARGS
      invariant 0 <= i <= size
      invariant Progress(text, done, starts, inWord, start, i)
      invariant forall m | 0 <= m < buffer.Length ::
                  buffer[m] == if m < i && (m == size - 1 || IsDelimiter(old(buffer[m]))) then '\0' else old(buffer[m])
    {
      var c := buffer[i];
      assert Cut(text, i) <==> c == ' ' || c == '\n' || i == size - 1;
      if c == ' ' || c == '\n' || i == size - 1 {
        buffer[i] := '\0';
        if inWord {
          CloseWord(text, done, starts, start, i);
          done := done + [text[start..i]];
          starts := starts + [start];
          inWord := false;
        } else {
          SkipDelimiter(text, done, starts, start, i);
        }
      } else if !inWord {
        inWord, start := true, i;
      }
      i := i + 1;
    }
    ScanEnds(text, done, starts, inWord, start, i);
  }

  lemma ScanStarts(text: string)
    ensures Progress(text, [], [], false, 0, 0)
  {
    assert text[0..] == text;
    assert [] + Words(text) == Words(text);
  }

  lemma ScanEnds(text: string, done: seq<string>, starts: seq<nat>, inWord: bool, start: nat, i: nat)
    requires Progress(text, done, starts, inWord, start, i)
    requires i == |text| + 1 || |starts| == MAX_ARGS
    ensures var words := Words(text);
            && |starts| == (if |words| < MAX_ARGS then |words| else MAX_ARGS)
            && Located(text, words, starts)
            && i == Scanned(words, starts, |text| + 1)
  {
    var words := Words(text);
    var open := if inWord then start else if i <= |text| then i else |text|;
    if i == |text| + 1 {
      assert text[|text|..] == "";
      assert words == done;
    } else {
      assert words == done + Words(text[open..]);
    }
    hide Words;
    LocatedLonger(text, done, words, starts);
  }

  lemma LocatedLonger(text: string, done: seq<string>, words: seq<string>, starts: seq<nat>)
    requires |done| == |starts| && Located(text, done, starts) && done <= words
    ensures Located(text, words, starts)
  {
    assert forall k | 0 <= k < |done| :: words[k] == done[k];
  }

  /** What the handler gets: after the cutting, the C string at each start is the
      C string of the word there. */
  lemma ArgumentsInPlace(stored: string, starts: seq<nat>, after: string)
    requires stored != ""
    requires var text := stored[..|stored| - 1];
             var words := Words(text);
             && |starts| == (if |words| < MAX_ARGS then |words| else MAX_ARGS)
             && Located(text, words, starts)
             && CutUp(stored, Scanned(words, starts, |stored|)) <= after
    ensures |Args(stored[..|stored| - 1])| == |starts|
    ensures forall k | 0 <= k < |starts| ::
              starts[k] < |after| && CString(after[starts[k]..]) == Args(stored[..|stored| - 1])[k]
  {
    hide Words, CutUp;
    var text := stored[..|stored| - 1];
    var words := Words(text);
    WordsAreWords(text);
    forall k | 0 <= k < |starts|
      ensures starts[k] < |after| && CString(after[starts[k]..]) == Args(text)[k]
    {
      WordInPlace(stored, words[k], starts[k], Scanned(words, starts, |stored|), after);
    }
  }

  /** A word before the end of the scan, in the cut buffer. */
  lemma WordInPlace(stored: string, w: string, p: nat, upTo: int, after: string)
    requires p + |w| < |stored| && p + |w| < upTo && stored[p..p + |w|] == w
    requires Cut(stored[..|stored| - 1], p + |w|)
    requires forall i | 0 <= i < |w| :: !IsDelimiter(w[i])
    requires CutUp(stored, upTo) <= after
    ensures CString(after[p..]) == CString(w)
  {
    hide IsDelimiter;
    var q := p + |w|;
    var cut := CutUp(stored, upTo);
    assert cut[q] == '\0';
    UncutWord(stored, w, p, upTo);
    hide CutUp;
    var rest := Spliced(cut, after, w, p);
    CutString(after[p..], w, rest);
  }

  lemma CutString(s: string, w: string, rest: string)
    requires s == w + ['\0'] + rest
    ensures CString(s) == CString(w)
  {
    CStringStops(w, rest);
  }

  lemma UncutWord(stored: string, w: string, p: nat, upTo: int)
    requires p + |w| < |stored| && stored[p..p + |w|] == w
    requires forall i | 0 <= i < |w| :: !IsDelimiter(w[i])
    ensures CutUp(stored, upTo)[p..p + |w|] == w
  {
    hide IsDelimiter;
    var cut := CutUp(stored, upTo);
    forall k | 0 <= k < |w|
      ensures cut[p + k] == w[k]
    {
      assert stored[p..p + |w|][k] == stored[p + k];
      assert !IsDelimiter(w[k]);
    }
    var part := cut[p..p + |w|];
    assert forall k | 0 <= k < |w| :: part[k] == w[k];
  }

  lemma Spliced(cut: string, after: string, w: string, p: nat) returns (rest: string)
    requires p + |w| < |cut| && cut <= after && cut[p..p + |w|] == w && cut[p + |w|] == '\0'
    ensures after[p..] == w + ['\0'] + rest
  {
    var q := p + |w|;
    rest := after[q + 1..];
    assert after[p..q] == cut[p..q] && after[q] == cut[q];
    assert after[p..] == after[p..q] + [after[q]] + rest;
  }

  /** One character by cases: ignored, a backspace, stored, or the end of a line. */
  lemma ReceivedAs(commands: seq<Command>, line: string, c: char)
    ensures c == '\r' || (c == BS && line == "") ==>
              Receive(line, c) == Edit(line, []) && Response(commands, line, c) == ""
    ensures c == BS && line != "" ==>
              Receive(line, c) == Edit(line[..|line| - 1], []) && Response(commands, line, c) == EchoChar(c)
    ensures c != '\r' && c != BS && !Completes(line, c) ==>
              Receive(line, c) == Edit(line + [c], []) && Response(commands, line, c) == EchoChar(c)
    ensures c != '\r' && c != BS && Completes(line, c) ==>
              && Receive(line, c) == Edit("", if Args(line) == [] then [] else [Args(line)])
              && Response(commands, line, c)
                 == EchoChar(c) + (Overflow(line) + (Reply(commands, Args(line)) + Echo(PROMPT)))
  {
    hide Args, Reply, Echo;
  }

  lemma EchoOneMore(s: string, i: nat)
    requires i < |s|
    ensures Echo(s[..i + 1]) == Echo(s[..i]) + EchoChar(s[i])
  {
    EchoConcat(s[..i], [s[i]]);
    assert s[..i] + [s[i]] == s[..i + 1];
    assert Echo([s[i]]) == EchoChar(s[i]) + "";
  }

  // ----- the shell

  class ShellContext {
    const commands: seq<Command>
    const buffer: array<char>
    var size: nat
    var booted: bool
    /** All characters passed to `send_char` so far. */
    var sent: string
    /** The argument lists acted upon so far, by a handler or as an unknown command. */
    var dispatched: seq<seq<string>>

    ghost predicate Valid()
      reads this, buffer
    {
      && buffer.Length == BUFFER_SIZE && size < BUFFER_SIZE
      && GoodLine(buffer[..size])
      && forall i | size <= i < BUFFER_SIZE :: buffer[i] == '\0'
    }

    constructor (commands: seq<Command>)
      ensures Valid() && fresh(buffer) && !booted && size == 0 && sent == "" && dispatched == []
      ensures this.commands == commands
    {
      this.commands := commands;
      buffer := new char[BUFFER_SIZE](_ => '\0');
      size, booted, sent, dispatched := 0, false, "", [];
    }

    method SendChar(c: char)
      modifies this`sent
      ensures sent == if booted then old(sent) + [c] else old(sent)
    {
      if !booted {
        return;
      }
      sent := sent + [c];
    }

    method SendEcho(c: char)
      modifies this`sent
      ensures sent == if booted then old(sent) + EchoChar(c) else old(sent)
    {
      if c == '\n' {
        SendChar('\r');
        SendChar('\n');
      } else if c == BS {
        SendChar(BS);
        SendChar(' ');
        SendChar(BS);
      } else {
        SendChar(c);
      }
    }

    method SendEchoStr(s: string)
      modifies this`sent
      ensures sent == if booted then old(sent) + Echo(s) else old(sent)
    {
      for i := 0 to |s|
        invariant sent == if booted then old(sent) + Echo(s[..i]) else old(sent)
      {
        SendEcho(s[i]);
        EchoOneMore(s, i);
        hide Echo, EchoChar;
      }
      assert s[..|s|] == s;
    }

    method ResetRxBuffer()
      requires buffer.Length == BUFFER_SIZE
      modifies this`size, buffer
      ensures Valid() && size == 0
    {
      forall i | 0 <= i < buffer.Length {
        buffer[i] := '\0';
      }
      size := 0;
    }

    method FindCommand(name: string) returns (i: nat)
      ensures i == Find(commands, name)
    {
      i := 0;
      assert commands[0..] == commands;
      while i < |commands|
        invariant i <= |commands|
        invariant Find(commands, name) == i + Find(commands[i..], name)
      {
        if commands[i].name == name {
          return;
        }
        assert commands[i..][1..] == commands[i + 1..];
        i := i + 1;
      }
    }

    method UnknownCommand(name: string)
      requires booted
      modifies this`sent
      ensures sent == old(sent) + UnknownReply(name)
    {
      hide Echo;
      SendEchoStr(UNKNOWN);
      SendEchoStr(name);
      SendEcho('\n');
      SendEchoStr(HINT + "\n");
      Reassociate(old(sent), Echo(UNKNOWN), Echo(name), EchoChar('\n'), Echo(HINT + "\n"));
    }

    static lemma Reassociate(s: string, a: string, b: string, c: string, d: string)
      ensures s + a + b + c + d == s + (a + b + c + d)
    {
    }

    static lemma JoinThree(s: string, a: string, b: string, c: string)
      ensures s + a + b + c == s + (a + (b + c))
    {
    }

    static lemma Joined(s: string, e: string, a: string, b: string, c: string)
      ensures s + e + (a + (b + c)) == s + (e + (a + (b + c)))
    {
    }

    /** Acts on an argument list. */
    method Dispatch(args: seq<string>)
      requires booted
      modifies this`sent, this`dispatched
      ensures sent == old(sent) + Reply(commands, args)
      ensures dispatched == old(dispatched) + if args == [] then [] else [args]
    {
      hide Find, UnknownReply;
      if |args| >= 1 {
        dispatched := dispatched + [args];
        var i := FindCommand(args[0]);
        if i == |commands| {
          UnknownCommand(args[0]);
        } else {
          sent := sent + commands[i].reply(args);
        }
      }
    }

    /** `shell_help_handler`. */
    method ShowHelp()
      requires booted
      modifies this`sent
      ensures sent == old(sent) + Help(commands)
    {
      hide Echo;
      assert commands[0..] == commands;
      for i := 0 to |commands|
        invariant sent + Help(commands[i..]) == old(sent) + Help(commands)
      {
        ghost var line := Echo(commands[i].name) + Echo(": ") + Echo(commands[i].help) + EchoChar('\n');
        assert commands[i..][1..] == commands[i + 1..];
        label before:
        SendEchoStr(commands[i].name);
        SendEchoStr(": ");
        SendEchoStr(commands[i].help);
        SendEcho('\n');
        HelpLine(old@before(sent), Echo(commands[i].name), Echo(": "), Echo(commands[i].help), EchoChar('\n'),
                 Help(commands[i + 1..]));
      }
      assert commands[|commands|..] == [];
    }

    static lemma HelpLine(s: string, a: string, b: string, c: string, d: string, rest: string)
      ensures s + a + b + c + d + rest == s + (a + b + c + d + rest)
    {
    }

    /** Called after a character is stored; does nothing unless the line is complete. */
    method Process()
      requires booted && buffer.Length == BUFFER_SIZE && 0 < size <= BUFFER_SIZE
      requires GoodLine(buffer[..size - 1]) && buffer[size - 1] != '\r' && buffer[size - 1] != BS
      requires forall i | size <= i < BUFFER_SIZE :: buffer[i] == '\0'
      modifies this`size, this`sent, this`dispatched, buffer
      ensures Valid()
      ensures var line, c := old(buffer[..size - 1]), old(buffer[size - 1]);
              if Completes(line, c) then
                && size == 0
                && sent == old(sent) + (Overflow(line) + (Reply(commands, Args(line)) + Echo(PROMPT)))
                && dispatched == old(dispatched) + if Args(line) == [] then [] else [Args(line)]
              else
                && size == old(size) && buffer[..] == old(buffer[..])
                && sent == old(sent) && dispatched == old(dispatched)
    {
      hide Words, Args, Located, Scanned, Reply, Echo;
      ghost var stored := buffer[..size];
      ghost var line := buffer[..size - 1];
      assert stored[..size - 1] == line;
      if buffer[size - 1] != '\n' && size < BUFFER_SIZE {
        return;
      }
      var starts := Tokenize(buffer, size);
      assert buffer[..size] <= buffer[..];
      ArgumentsInPlace(stored, starts, buffer[..]);
      var argv := seq(|starts|, k requires 0 <= k < |starts| && starts[k] <= buffer.Length reads buffer =>
                                  CString(buffer[starts[k]..]));
      assert argv == Args(line);
      hide Completes;
      Answer(argv, line);
    }

    /** The second half of it, once the line is cut up. */
    method Answer(argv: seq<string>, ghost line: string)
      requires booted && buffer.Length == BUFFER_SIZE && size == |line| + 1
      modifies this`size, this`sent, this`dispatched, buffer
      ensures Valid() && size == 0
      ensures sent == old(sent) + (Overflow(line) + (Reply(commands, argv) + Echo(PROMPT)))
      ensures dispatched == old(dispatched) + if argv == [] then [] else [argv]
    {
      hide Reply, Echo;
      if size == BUFFER_SIZE {
        SendEcho('\n');
      }
      Dispatch(argv);
      ResetRxBuffer();
      SendEchoStr(PROMPT);
      JoinThree(old(sent), Overflow(line), Reply(commands, argv), Echo(PROMPT));
    }

    method Boot()
      requires buffer.Length == BUFFER_SIZE
      modifies this, buffer
      ensures Valid() && booted && size == 0
      ensures sent == old(sent) + Echo("\n" + PROMPT) && dispatched == old(dispatched)
    {
      booted := true;
      ResetRxBuffer();
      SendEchoStr("\n" + PROMPT);
    }

    method DropLast()
      requires Valid() && size > 0
      modifies this`size, buffer
      ensures Valid() && size == old(size) - 1 && buffer[..size] == old(buffer[..size - 1])
    {
      size := size - 1;
      buffer[size] := '\0';
      assert forall i | 0 <= i < size :: buffer[..size][i] == old(buffer[..size])[i];
    }

    method Append(c: char)
      requires Valid()
      modifies this`size, buffer
      ensures size == old(size) + 1 && buffer[size - 1] == c && buffer[..size - 1] == old(buffer[..size])
      ensures buffer[..size] == old(buffer[..size]) + [c]
      ensures forall i | size <= i < BUFFER_SIZE :: buffer[i] == '\0'
    {
      buffer[size] := c;
      size := size + 1;
    }

    /** Stores a character and acts on the line if that completes it. */
    method Take(c: char)
      requires Valid() && booted && c != '\r' && c != BS
      modifies this`size, this`sent, this`dispatched, buffer
      ensures Valid()
      ensures var line := old(buffer[..size]);
              if Completes(line, c) then
                && buffer[..size] == ""
                && sent == old(sent) + (Overflow(line) + (Reply(commands, Args(line)) + Echo(PROMPT)))
                && dispatched == old(dispatched) + if Args(line) == [] then [] else [Args(line)]
              else
                buffer[..size] == line + [c] && sent == old(sent) && dispatched == old(dispatched)
    {
      hide Args, Reply, Echo, Overflow, GoodLine, Completes;
      Append(c);
      Process();
    }

    method ReceiveChar(c: char)
      requires Valid()
      modifies this`size, this`sent, this`dispatched, buffer
      ensures Valid()
      ensures !booted ==> size == old(size) && buffer[..] == old(buffer[..]) && sent == old(sent)
                          && dispatched == old(dispatched)
      ensures booted ==> buffer[..size] == Receive(old(buffer[..size]), c).line
      ensures booted ==> dispatched == old(dispatched) + Receive(old(buffer[..size]), c).sent
      ensures booted ==> sent == old(sent) + Response(commands, old(buffer[..size]), c)
    {
      ghost var line := buffer[..size];
      ReceivedAs(commands, line, c);
      hide Args, Reply, Echo, EchoChar, Receive, Response, Overflow, GoodLine, Completes;
      if c == '\r' || size >= BUFFER_SIZE || !booted {
        return;
      }
      var isBackspace := c == BS;
      if isBackspace && size == 0 {
        return;
      }
      SendEcho(c);
      if isBackspace {
        DropLast();
        return;
      }
      Take(c);
      Joined(old(sent), EchoChar(c), Overflow(line), Reply(commands, Args(line)), Echo(PROMPT));
    }

    /** The processing loop, over a finite input. */
    method ProcessInput(input: string)
      requires Valid() && booted
      modifies this`size, this`sent, this`dispatched, buffer
      ensures Valid()
      ensures buffer[..size] == Feed(old(buffer[..size]), input).line
      ensures dispatched == old(dispatched) + Feed(old(buffer[..size]), input).sent
      ensures sent == old(sent) + Responses(commands, old(buffer[..size]), input)
    {
      hide Receive, Response, GoodLine;
      ghost var line := buffer[..size];
      for i := 0 to |input|
        invariant Valid()
        invariant Feed(line, input).line == Feed(buffer[..size], input[i..]).line
        invariant old(dispatched) + Feed(line, input).sent == dispatched + Feed(buffer[..size], input[i..]).sent
        invariant old(sent) + Responses(commands, line, input) == sent + Responses(commands, buffer[..size], input[i..])
      {
        ghost var now, rest := buffer[..size], input[i + 1..];
        assert input[i..][0] == input[i] && input[i..][1..] == rest;
        ReceiveChar(input[i]);
      }
    }
  }
}
