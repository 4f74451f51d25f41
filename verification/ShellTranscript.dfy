/** What a user sees of the shell, character by character: the transcript of typed
    command lines, with the replies of the commands they name. */
module ShellTranscript {
  import opened LineEditor
  import opened Terminal

  // ----- text

  lemma {:induction false} EchoOfText(s: string)
    requires AllPrintable(s)
    ensures Echo(s) == s
  {
    if s != "" {
      EchoOfText(s[1..]);
      assert s == [s[0]] + s[1..];
    }
  }

  lemma EchoOfLine(s: string)
    requires AllPrintable(s)
    ensures Echo(s + "\n") == s + "\r\n"
  {
    EchoConcat(s, "\n");
    EchoOfText(s);
    assert Echo("\n") == EchoChar('\n') + "";
  }

  lemma Associative(a: string, b: string, c: string)
    ensures a + b + c == a + (b + c)
  {
  }

  lemma {:induction false} ResponsesConcat(commands: seq<Command>, line: string, x: string, y: string)
    ensures Responses(commands, line, x + y)
         == Responses(commands, line, x) + Responses(commands, Feed(line, x).line, y)
    decreases x
  {
    if x == "" {
      assert x + y == y;
    } else {
      hide Response, Receive;
      assert (x + y)[0] == x[0] && (x + y)[1..] == x[1..] + y;
      var next := Receive(line, x[0]).line;
      ResponsesConcat(commands, next, x[1..], y);
      Associative(Response(commands, line, x[0]), Responses(commands, next, x[1..]),
                  Responses(commands, Feed(line, x).line, y));
    }
  }

  lemma ResponsesOne(commands: seq<Command>, line: string, c: char)
    ensures Responses(commands, line, [c]) == Response(commands, line, c)
  {
    hide Response, Receive;
    assert [c][1..] == "";
  }

  lemma CharacterIsEchoed(commands: seq<Command>, line: string, c: char)
    requires Printable(c) && |line| + 1 < 256
    ensures Receive(line, c) == Edit(line + [c], []) && Response(commands, line, c) == [c]
  {
    hide Args;
  }

  /** Text that leaves the buffer unfilled is echoed as it is. */
  lemma {:induction false} TextIsEchoed(commands: seq<Command>, line: string, text: string)
    requires AllPrintable(text) && |line| + |text| < 256
    ensures Responses(commands, line, text) == text && Feed(line, text).line == line + text
    decreases text
  {
    if text == "" {
      assert line + text == line;
    } else {
      CharacterIsEchoed(commands, line, text[0]);
      hide Receive, Response;
      TextIsEchoed(commands, line + [text[0]], text[1..]);
      assert text == [text[0]] + text[1..];
      Associative(line, [text[0]], text[1..]);
    }
  }

  // ----- what is answered to a line

  /** `text` answers the words typed: it is what the first command of that name sends
      for the first sixteen of them, or the notice that there is none. */
  ghost predicate Answers(commands: seq<Command>, words: seq<string>, text: string)
    requires words != []
  {
    || (exists i: nat :: i < |commands| && Names(commands, words[0], i)
                         && text == commands[i].reply(if |words| <= 16 then words else words[..16]))
    || ((forall k | 0 <= k < |commands| :: commands[k].name != words[0])
        && text == "Unknown command: " + words[0] + "\r\n" + "Type 'help' to list all commands" + "\r\n")
  }

  predicate Names(commands: seq<Command>, name: string, i: nat)
    requires i < |commands|
  {
    commands[i].name == name && forall k | 0 <= k < i :: commands[k].name != name
  }

  lemma ReplyAnswers(commands: seq<Command>, words: seq<string>, args: seq<string>, text: string)
    requires words != [] && args == (if |words| <= 16 then words else words[..16]) && AllPrintable(words[0])
    requires Answers(commands, words, text)
    ensures Reply(commands, args) == text
  {
    assert args[0] == words[0];
    var i := Find(commands, args[0]);
    if i == |commands| {
      UnknownIs(words[0]);
    }
  }

  lemma UnknownIs(name: string)
    requires AllPrintable(name)
    ensures UnknownReply(name)
         == "Unknown command: " + name + "\r\n" + "Type 'help' to list all commands" + "\r\n"
  {
    assert AllPrintable(UNKNOWN) && AllPrintable(HINT);
    NoticeIs(UNKNOWN, name, HINT);
  }

  lemma NoticeIs(unknown: string, name: string, hint: string)
    requires AllPrintable(unknown) && AllPrintable(name) && AllPrintable(hint)
    ensures Echo(unknown) + Echo(name) + EchoChar('\n') + Echo(hint + "\n")
         == unknown + name + "\r\n" + hint + "\r\n"
  {
    EchoOfText(unknown);
    EchoOfText(name);
    EchoOfLine(hint);
    hide Echo;
    Associative(unknown + name + "\r\n", hint, "\r\n");
  }

  /** Words of printable characters other than blanks. */
  ghost predicate Typed(words: seq<string>) {
    words != [] && forall k | 0 <= k < |words| :: words[k] != "" && Visible(words[k])
  }

  predicate Visible(w: string) { forall i | 0 <= i < |w| :: '!' <= w[i] <= '~' }

  lemma TypedWords(words: seq<string>)
    requires Typed(words)
    ensures forall k | 0 <= k < |words| :: IsWord(words[k]) && AllPrintable(words[k])
  {
  }

  lemma ArgsOfWords(text: string, words: seq<string>)
    requires Words(text) == words && Typed(words)
    ensures Args(text) == if |words| <= 16 then words else words[..16]
  {
    TypedWords(words);
    hide Words, CString;
    forall k | 0 <= k < |words|
      ensures CString(words[k]) == words[k]
    {
      assert AllPrintable(words[k]);
      CStringWhole(words[k]);
    }
  }

  /** The characters that end a line and are not part of it: a newline, or whatever
      comes as the 256th. */
  predicate Ends(text: string, c: char) { c == '\n' || (|text| == 255 && Printable(c)) }

  /** What is echoed for them.  A full buffer gets a newline of its own. */
  function EndEcho(text: string, c: char): string {
    (if c == '\n' then "\r\n" else [c]) + if |text| == 255 then "\r\n" else ""
  }

  /** A line, from the prompt on: its text, its end, the answer and the next prompt. */
  lemma LineTranscript(commands: seq<Command>, text: string, c: char, words: seq<string>, answer: string)
    requires AllPrintable(text) && |text| < 256 && Ends(text, c)
    requires Words(text) == words && Typed(words) && Answers(commands, words, answer)
    ensures Responses(commands, "", text + [c]) == text + EndEcho(text, c) + answer + "shell> "
    ensures Feed("", text + [c]).line == ""
  {
    TypedWords(words);
    ArgsOfWords(text, words);
    ReplyAnswers(commands, words, Args(text), answer);
    EndOfLine(commands, text, c);
    JoinFour(text, EndEcho(text, c), answer, PROMPT);
  }

  /** A line without words gets no answer. */
  lemma BlankTranscript(commands: seq<Command>, text: string, c: char)
    requires AllPrintable(text) && |text| < 256 && Ends(text, c) && Words(text) == []
    ensures Responses(commands, "", text + [c]) == text + EndEcho(text, c) + "shell> "
    ensures Feed("", text + [c]).line == ""
  {
    EndOfLine(commands, text, c);
    assert Reply(commands, Args(text)) == "";
    JoinFour(text, EndEcho(text, c), "", PROMPT);
    NothingBetween(text + EndEcho(text, c));
  }

  lemma EndOfLine(commands: seq<Command>, text: string, c: char)
    requires AllPrintable(text) && |text| < 256 && Ends(text, c)
    ensures Responses(commands, "", text + [c])
         == text + (EndEcho(text, c) + (Reply(commands, Args(text)) + PROMPT))
    ensures Feed("", text + [c]).line == ""
  {
    ResponsesConcat(commands, "", text, [c]);
    FeedConcat("", text, [c]);
    TextIsEchoed(commands, "", text);
    assert "" + text == text;
    ResponsesOne(commands, text, c);
    FeedOne(text, c);
    EndResponse(commands, text, c);
  }

  lemma FeedOne(line: string, c: char)
    ensures Feed(line, [c]).line == Receive(line, c).line
  {
    hide Receive;
    assert [c][1..] == "";
  }

  lemma EndResponse(commands: seq<Command>, text: string, c: char)
    requires |text| < 256 && Ends(text, c)
    ensures Response(commands, text, c) == EndEcho(text, c) + (Reply(commands, Args(text)) + PROMPT)
    ensures Receive(text, c).line == ""
  {
    assert AllPrintable(PROMPT);
    EchoOfText(PROMPT);
    EndEchoed(text, c);
    hide Echo, Reply, Args, EndEcho;
    Associative(EchoChar(c), Overflow(text), Reply(commands, Args(text)) + PROMPT);
  }

  lemma EndEchoed(text: string, c: char)
    requires |text| < 256 && Ends(text, c)
    ensures EndEcho(text, c) == EchoChar(c) + Overflow(text)
  {
  }

  lemma JoinFour(a: string, b: string, c: string, d: string)
    ensures a + (b + (c + d)) == a + b + c + d
  {
  }

  lemma NothingBetween(a: string)
    ensures a + "" == a
  {
  }

  // ----- command lines

  lemma {:induction false} JoinIsPrintable(words: seq<string>)
    requires forall k | 0 <= k < |words| :: AllPrintable(words[k])
    ensures AllPrintable(Join(words))
  {
    if |words| > 1 {
      JoinIsPrintable(words[1..]);
    }
  }

  /** A typed command line, from the prompt on. */
  lemma CommandTranscript(commands: seq<Command>, words: seq<string>, answer: string)
    requires Typed(words) && |Join(words)| < 255 && Answers(commands, words, answer)
    ensures Responses(commands, "", Join(words) + "\n") == Join(words) + "\r\n" + answer + "shell> "
    ensures Feed("", Join(words) + "\n").line == ""
  {
    TypedWords(words);
    JoinIsPrintable(words);
    WordsOfJoin(words);
    hide Join, Answers, Responses, Feed;
    LineTranscript(commands, Join(words), '\n', words, answer);
    assert "\r\n" + "" == "\r\n";
  }

  function Input(lines: seq<seq<string>>): string {
    if lines == [] then "" else Join(lines[0]) + "\n" + Input(lines[1..])
  }

  function Output(lines: seq<seq<string>>, answers: seq<string>): string
    requires |lines| == |answers|
  {
    if lines == [] then ""
    else Join(lines[0]) + "\r\n" + answers[0] + "shell> " + Output(lines[1..], answers[1..])
  }

  /** Any number of them: every line is followed by the answer of the command it names
      and by the next prompt. */
  lemma {:induction false} SessionTranscript(commands: seq<Command>, lines: seq<seq<string>>, answers: seq<string>)
    requires |lines| == |answers|
    requires forall i | 0 <= i < |lines| ::
               Typed(lines[i]) && |Join(lines[i])| < 255 && Answers(commands, lines[i], answers[i])
    ensures Responses(commands, "", Input(lines)) == Output(lines, answers)
    ensures Feed("", Input(lines)).line == ""
    decreases lines
  {
    if lines != [] {
      assert Typed(lines[0]) && |Join(lines[0])| < 255 && Answers(commands, lines[0], answers[0]);
      CommandTranscript(commands, lines[0], answers[0]);
      hide Typed, Answers;
      SessionTranscript(commands, lines[1..], answers[1..]);
      var first, rest := Join(lines[0]) + "\n", Input(lines[1..]);
      ResponsesConcat(commands, "", first, rest);
      FeedConcat("", first, rest);
    }
  }

  /** A backspace takes the last character off the line and off the screen; on an empty
      line it does nothing, as a carriage return on any. */
  lemma KeyTranscript(commands: seq<Command>, line: string)
    ensures var back := 8 as char;
            && (line != "" ==>
                 && Responses(commands, line, [back]) == [back, ' ', back]
                 && Feed(line, [back]) == Edit(line[..|line| - 1], []))
            && Responses(commands, "", [back]) == "" && Feed("", [back]) == Edit("", [])
            && Responses(commands, line, "\r") == "" && Feed(line, "\r") == Edit(line, [])
  {
    var back := 8 as char;
    ResponsesOne(commands, line, back);
    ResponsesOne(commands, "", back);
    ResponsesOne(commands, line, '\r');
    FeedExactlyOne(line, back);
    FeedExactlyOne("", back);
    FeedExactlyOne(line, '\r');
    hide Responses, Feed, Args;
  }

  lemma FeedExactlyOne(line: string, c: char)
    ensures Feed(line, [c]) == Receive(line, c)
  {
    hide Receive;
    assert [c][1..] == "";
    assert Receive(line, c).sent + [] == Receive(line, c).sent;
  }

  /** The boot message. */
  lemma BootTranscript()
    ensures Echo("\n" + PROMPT) == "\r\n" + "shell> "
  {
    EchoConcat("\n", "shell> ");
    EchoOfText("shell> ");
    assert Echo("\n") == EchoChar('\n') + "";
  }

  /** The help handler lists every command in a line of its own. */
  lemma {:induction false} HelpTranscript(commands: seq<Command>)
    requires forall i | 0 <= i < |commands| :: AllPrintable(commands[i].name) && AllPrintable(commands[i].help)
    ensures Help(commands) == HelpText(commands)
  {
    if commands != [] {
      EchoOfText(commands[0].name);
      EchoOfText(": ");
      EchoOfText(commands[0].help);
      HelpTranscript(commands[1..]);
    }
  }

  function HelpText(commands: seq<Command>): string {
    if commands == [] then "" else commands[0].name + ": " + commands[0].help + "\r\n" + HelpText(commands[1..])
  }
}
