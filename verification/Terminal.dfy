/** What the shell sends back, and a terminal that shows it. */
module Terminal {
  import opened LineEditor

  const PROMPT: string := "shell> "
  const UNKNOWN: string := "Unknown command: "
  const HINT: string := "Type 'help' to list all commands"

  /** A command's name, its help text, and the characters its handler sends for
      given arguments; the handler is otherwise opaque. */
  datatype Command = Command(name: string, help: string, reply: seq<string> -> string)

  function EchoChar(c: char): string {
    if c == '\n' then "\r\n" else if c == BS then [BS, ' ', BS] else [c]
  }

  function Echo(s: string): string {
    if s == "" then "" else EchoChar(s[0]) + Echo(s[1..])
  }

  /** The first command of that name. */
  function Find(commands: seq<Command>, name: string): (i: nat)
    ensures i <= |commands|
    ensures i < |commands| ==> commands[i].name == name
    ensures forall k | 0 <= k < i :: commands[k].name != name
  {
    if commands == [] || commands[0].name == name then 0 else 1 + Find(commands[1..], name)
  }

  /** What is sent for a dispatched argument list. */
  function Reply(commands: seq<Command>, args: seq<string>): string {
    if args == [] then ""
    else
      var i := Find(commands, args[0]);
      if i < |commands| then commands[i].reply(args)
      else UnknownReply(args[0])
  }

  function UnknownReply(name: string): string {
    Echo(UNKNOWN) + Echo(name) + EchoChar('\n') + Echo(HINT + "\n")
  }

  /** What is sent for one received character. */
  function Response(commands: seq<Command>, line: string, c: char): string {
    if c == '\r' || (c == BS && line == "") then ""
    else if c == BS || !Completes(line, c) then EchoChar(c)
    else EchoChar(c) + (Overflow(line) + (Reply(commands, Args(line)) + Echo(PROMPT)))
  }

  /** The extra newline sent when the buffer has been filled. */
  function Overflow(line: string): string {
    if |line| + 1 == BUFFER_SIZE then EchoChar('\n') else ""
  }

  function Responses(commands: seq<Command>, line: string, input: string): string
    decreases input
  {
    if input == "" then ""
    else Response(commands, line, input[0]) + Responses(commands, Receive(line, input[0]).line, input[1..])
  }

  // ----- the terminal

  /** The row the cursor is in, whose cells beyond the end are blank. */
  datatype Screen = Screen(row: string, col: nat)

  function Blanks(n: nat): (s: string)
    ensures |s| == n && forall i | 0 <= i < n :: s[i] == ' '
  {
    seq(n, _ => ' ')
  }

  function Padded(row: string, n: nat): (s: string)
    ensures |s| >= n && row <= s && forall i | |row| <= i < |s| :: s[i] == ' '
  {
    if |row| >= n then row else row + Blanks(n - |row|)
  }

  /** A carriage return goes to the first column, a line feed to a blank row, a
      backspace one column left; anything else is put in the cell at the cursor. */
  function Show(s: Screen, c: char): Screen {
    if c == '\r' then s.(col := 0)
    else if c == '\n' then s.(row := "")
    else if c == BS then s.(col := if s.col == 0 then 0 else s.col - 1)
    else Screen(Padded(s.row, s.col + 1)[s.col := c], s.col + 1)
  }

  function Display(s: Screen, out: string): Screen
    decreases out
  {
    if out == "" then s else Display(Show(s, out[0]), out[1..])
  }

  /** The row holds `text` and nothing else, with the cursor at its end. */
  predicate Shows(s: Screen, text: string) {
    && text <= s.row && s.col == |text|
    && forall i | |text| <= i < |s.row| :: s.row[i] == ' '
  }

  predicate Printable(c: char) { ' ' <= c <= '~' }

  predicate AllPrintable(s: string) { forall i | 0 <= i < |s| :: Printable(s[i]) }

  lemma {:induction false} DisplayConcat(s: Screen, x: string, y: string)
    ensures Display(s, x + y) == Display(Display(s, x), y)
    decreases x
  {
    if x == "" {
      assert x + y == y;
    } else {
      assert (x + y)[1..] == x[1..] + y;
      DisplayConcat(Show(s, x[0]), x[1..], y);
    }
  }

  /** Printable text appears where the cursor is. */
  lemma {:induction false} TextAppears(s: Screen, text: string, more: string)
    requires Shows(s, text) && AllPrintable(more)
    ensures Echo(more) == more
    ensures Shows(Display(s, more), text + more)
    decreases more
  {
    if more == "" {
      assert text + more == text;
    } else {
      assert Shows(Show(s, more[0]), text + [more[0]]);
      TextAppears(Show(s, more[0]), text + [more[0]], more[1..]);
      assert text + [more[0]] + more[1..] == text + more;
    }
  }

  lemma NewlineBlanks(s: Screen)
    ensures Shows(Display(s, EchoChar('\n')), "")
  {
    DisplayConcat(s, "\r", "\n");
    assert "\r" + "\n" == "\r\n";
    assert "\r"[1..] == "" && "\n"[1..] == "";
  }

  lemma BackspaceErases(s: Screen, text: string)
    requires Shows(s, text) && text != ""
    ensures Shows(Display(s, EchoChar(BS)), text[..|text| - 1])
  {
    var out := EchoChar(BS);
    var s1 := Show(s, BS);
    var s2 := Show(s1, ' ');
    var s3 := Show(s2, BS);
    assert out[1..] == [' ', BS] && out[1..][1..] == [BS] && out[1..][1..][1..] == "";
    assert Display(s, out) == Display(s1, [' ', BS]);
    assert Display(s1, [' ', BS]) == Display(s2, [BS]);
    assert Display(s2, [BS]) == Display(s3, "");
    assert s3.col == |text| - 1 && |s3.row| == |s.row|;
    assert forall i | 0 <= i < |s.row| && i != |text| - 1 :: s3.row[i] == s.row[i];
  }

  /** A handler that, started on a blank row, ends on a blank row. */
  ghost predicate Polite(c: Command) {
    forall s: Screen, args: seq<string> :: Shows(s, "") ==> Shows(Display(s, c.reply(args)), "")
  }

  ghost predicate AllPolite(commands: seq<Command>) {
    forall i | 0 <= i < |commands| :: Polite(commands[i])
  }

  /** A printed line leaves a blank row. */
  lemma LineThenBlank(s: Screen, text: string)
    requires Shows(s, "") && AllPrintable(text)
    ensures Shows(Display(s, Echo(text) + EchoChar('\n')), "")
  {
    TextAppears(s, "", text);
    DisplayConcat(s, text, EchoChar('\n'));
    NewlineBlanks(Display(s, text));
  }

  lemma {:induction false} EchoConcat(x: string, y: string)
    ensures Echo(x + y) == Echo(x) + Echo(y)
  {
    if x == "" {
      assert x + y == y;
    } else {
      assert (x + y)[1..] == x[1..] + y;
      EchoConcat(x[1..], y);
    }
  }

  /** What `shell_help_handler` sends. */
  function Help(commands: seq<Command>): string {
    if commands == [] then ""
    else Echo(commands[0].name) + Echo(": ") + Echo(commands[0].help) + EchoChar('\n') + Help(commands[1..])
  }

  /** The shell's own handler is polite when names and help texts are printable. */
  lemma {:induction false} HelpIsPolite(commands: seq<Command>, s: Screen)
    requires Shows(s, "")
    requires forall i | 0 <= i < |commands| :: AllPrintable(commands[i].name) && AllPrintable(commands[i].help)
    ensures Shows(Display(s, Help(commands)), "")
    decreases commands
  {
    if commands != [] {
      var c := commands[0];
      var text := c.name + ": " + c.help;
      EchoConcat(c.name, ": ");
      EchoConcat(c.name + ": ", c.help);
      LineThenBlank(s, text);
      DisplayConcat(s, Echo(text) + EchoChar('\n'), Help(commands[1..]));
      HelpIsPolite(commands[1..], Display(s, Echo(text) + EchoChar('\n')));
    }
  }

  lemma {:induction false} CStringIsPrefix(w: string)
    ensures CString(w) <= w
  {
    if w != "" {
      CStringIsPrefix(w[1..]);
    }
  }

  lemma {:induction false} WordsArePrintable(s: string)
    requires AllPrintable(s)
    ensures forall k | 0 <= k < |Words(s)| :: AllPrintable(Words(s)[k])
  {
    if s != "" {
      if IsDelimiter(s[0]) {
        WordsArePrintable(s[1..]);
      } else {
        WordsArePrintable(s[WordLength(s)..]);
      }
    }
  }

  lemma ArgsArePrintable(line: string)
    requires AllPrintable(line)
    ensures forall k | 0 <= k < |Args(line)| :: AllPrintable(Args(line)[k])
  {
    WordsArePrintable(line);
    forall k | 0 <= k < |Args(line)|
      ensures AllPrintable(Args(line)[k])
    {
      CStringIsPrefix(Words(line)[k]);
    }
  }

  lemma EchoLine(text: string)
    ensures Echo(text + "\n") == Echo(text) + EchoChar('\n')
  {
    EchoConcat(text, "\n");
    assert Echo("\n") == EchoChar('\n') + "";
  }

  lemma UnknownLeavesBlank(name: string, s: Screen)
    requires Shows(s, "") && AllPrintable(name)
    ensures Shows(Display(s, Echo(UNKNOWN + name) + EchoChar('\n') + (Echo(HINT) + EchoChar('\n'))), "")
  {
    hide Display, Echo;
    assert AllPrintable(UNKNOWN) && AllPrintable(HINT);
    var first := Echo(UNKNOWN + name) + EchoChar('\n');
    LineThenBlank(s, UNKNOWN + name);
    LineThenBlank(Display(s, first), HINT);
    DisplayConcat(s, first, Echo(HINT) + EchoChar('\n'));
  }

  /** Whatever is dispatched, the screen is back on a blank row. */
  lemma ReplyLeavesBlank(commands: seq<Command>, args: seq<string>, s: Screen)
    requires AllPolite(commands) && Shows(s, "")
    requires forall k | 0 <= k < |args| :: AllPrintable(args[k])
    ensures Shows(Display(s, Reply(commands, args)), "")
  {
    if args != [] && Find(commands, args[0]) == |commands| {
      hide Display, Echo;
      EchoConcat(UNKNOWN, args[0]);
      EchoLine(HINT);
      UnknownLeavesBlank(args[0], s);
    }
  }

  predicate GoodLength(line: string) { |line| < BUFFER_SIZE }

  predicate Typeable(c: char) { Printable(c) || c == '\n' || c == '\r' || c == BS }

  /** One character: the screen goes on showing the prompt and the line. */
  lemma ScreenFollowsLine(commands: seq<Command>, line: string, c: char, s: Screen)
    requires AllPolite(commands) && AllPrintable(line) && GoodLength(line) && Typeable(c)
    requires Shows(s, PROMPT + line)
    ensures GoodLength(Receive(line, c).line) && AllPrintable(Receive(line, c).line)
    ensures Shows(Display(s, Response(commands, line, c)), PROMPT + Receive(line, c).line)
  {
    if c == '\r' || (c == BS && line == "") {
    } else if c == BS {
      BackspaceErases(s, PROMPT + line);
      assert (PROMPT + line)[..|PROMPT + line| - 1] == PROMPT + line[..|line| - 1];
    } else if Completes(line, c) {
      ScreenAfterCompletion(commands, line, c, s);
      assert PROMPT + "" == PROMPT;
    } else {
      TextAppears(s, PROMPT + line, [c]);
      assert PROMPT + line + [c] == PROMPT + (line + [c]);
    }
  }

  lemma ScreenAfterCompletion(commands: seq<Command>, line: string, c: char, s: Screen)
    requires AllPolite(commands) && AllPrintable(line) && GoodLength(line) && Completes(line, c)
    ensures Shows(Display(s, EchoChar(c) + (Overflow(line) + (Reply(commands, Args(line)) + Echo(PROMPT)))), PROMPT)
  {
    hide Display, Reply, Args, Echo;
    var reply := Reply(commands, Args(line));
    var s1 := Display(s, EchoChar(c));
    var s2 := Display(s1, Overflow(line));
    DisplayConcat(s, EchoChar(c), Overflow(line) + (reply + Echo(PROMPT)));
    DisplayConcat(s1, Overflow(line), reply + Echo(PROMPT));
    DisplayConcat(s2, reply, Echo(PROMPT));
    NewlineBlanks(s);
    NewlineBlanks(s1);
    DisplayNothing(s1);
    ArgsArePrintable(line);
    ReplyLeavesBlank(commands, Args(line), s2);
    assert AllPrintable(PROMPT);
    TextAppears(Display(s2, reply), "", PROMPT);
    assert "" + PROMPT == PROMPT;
  }

  lemma DisplayNothing(s: Screen)
    ensures Display(s, "") == s
  {
  }

  /** From the first prompt on, after any typed input the screen shows the prompt
      followed by the line being edited, with the cursor at its end. */
  lemma {:induction false} ScreenFollowsInput(commands: seq<Command>, line: string, input: string, s: Screen)
    requires AllPolite(commands) && AllPrintable(line) && GoodLength(line)
    requires forall i | 0 <= i < |input| :: Typeable(input[i])
    requires Shows(s, PROMPT + line)
    ensures Shows(Display(s, Responses(commands, line, input)), PROMPT + Feed(line, input).line)
    decreases input
  {
    if input != "" {
      var c, next := input[0], Receive(line, input[0]).line;
      ScreenFollowsLine(commands, line, c, s);
      var out := Response(commands, line, c);
      ScreenFollowsInput(commands, next, input[1..], Display(s, out));
      DisplayConcat(s, out, Responses(commands, next, input[1..]));
    }
  }

  /** Booting shows the first prompt whatever was on the screen. */
  lemma BootShowsPrompt(s: Screen)
    ensures Shows(Display(s, Echo("\n" + PROMPT)), PROMPT)
  {
    EchoConcat("\n", PROMPT);
    assert Echo("\n") == EchoChar('\n') + "";
    NewlineBlanks(s);
    assert AllPrintable(PROMPT);
    TextAppears(Display(s, EchoChar('\n')), "", PROMPT);
    DisplayConcat(s, EchoChar('\n'), PROMPT);
    assert "" + PROMPT == PROMPT;
  }

  /** A whole session, whatever was on the screen before: the boot message, then
      the responses to everything typed so far, leave the prompt and the line. */
  lemma SessionShowsLine(commands: seq<Command>, input: string, s: Screen)
    requires AllPolite(commands) && forall i | 0 <= i < |input| :: Typeable(input[i])
    ensures Shows(Display(s, Echo("\n" + PROMPT) + Responses(commands, "", input)), PROMPT + Feed("", input).line)
  {
    BootShowsPrompt(s);
    assert PROMPT + "" == PROMPT;
    ScreenFollowsInput(commands, "", input, Display(s, Echo("\n" + PROMPT)));
    DisplayConcat(s, Echo("\n" + PROMPT), Responses(commands, "", input));
  }
}
