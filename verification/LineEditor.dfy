/** What the tiny shell does with the characters it receives, on values: the line
    being edited, the argument lists it hands out and the characters it echoes. */
module LineEditor {
  const BUFFER_SIZE: nat := 256
  const MAX_ARGS: nat := 16
  const BS: char := 8 as char  // backspace

  // ----- words

  predicate IsDelimiter(c: char) { c == ' ' || c == '\n' }

  function WordLength(s: string): (n: nat)
    ensures n <= |s|
    ensures forall i | 0 <= i < n :: !IsDelimiter(s[i])
    ensures n < |s| ==> IsDelimiter(s[n])
  {
    if s == "" || IsDelimiter(s[0]) then 0 else 1 + WordLength(s[1..])
  }

  /** The maximal runs of characters that are not delimiters. */
  function Words(s: string): seq<string> {
    if s == "" then []
    else if IsDelimiter(s[0]) then Words(s[1..])
    else [s[..WordLength(s)]] + Words(s[WordLength(s)..])
  }

  predicate IsWord(w: string) {
    w != "" && forall i | 0 <= i < |w| :: !IsDelimiter(w[i])
  }

  lemma {:induction false} WordsAreWords(s: string)
    ensures forall k | 0 <= k < |Words(s)| :: IsWord(Words(s)[k])
  {
    if s != "" {
      if IsDelimiter(s[0]) {
        WordsAreWords(s[1..]);
      } else {
        WordsAreWords(s[WordLength(s)..]);
      }
    }
  }

  lemma {:induction false} WordLengthOf(w: string, rest: string)
    requires forall i | 0 <= i < |w| :: !IsDelimiter(w[i])
    requires rest == "" || IsDelimiter(rest[0])
    ensures WordLength(w + rest) == |w|
  {
    if w == "" {
      assert w + rest == rest;
    } else {
      assert (w + rest)[1..] == w[1..] + rest;
      WordLengthOf(w[1..], rest);
    }
  }

  lemma FirstWord(w: string, rest: string)
    requires IsWord(w) && (rest == "" || IsDelimiter(rest[0]))
    ensures Words(w + rest) == [w] + Words(rest)
  {
    WordLengthOf(w, rest);
    assert (w + rest)[..|w|] == w && (w + rest)[|w|..] == rest;
  }

  function Join(words: seq<string>): string {
    if words == [] then ""
    else if |words| == 1 then words[0]
    else words[0] + " " + Join(words[1..])
  }

  /** Splitting undoes joining with single spaces. */
  lemma {:induction false} WordsOfJoin(words: seq<string>)
    requires forall k | 0 <= k < |words| :: IsWord(words[k])
    ensures Words(Join(words)) == words
  {
    if |words| == 1 {
      FirstWord(words[0], "");
      assert words[0] + "" == words[0];
    } else if |words| > 1 {
      var rest := " " + Join(words[1..]);
      WordsOfJoin(words[1..]);
      FirstWord(words[0], rest);
      assert Join(words) == words[0] + rest;
      assert rest[1..] == Join(words[1..]);
    }
  }

  function WithoutDelimiters(s: string): string {
    if s == "" then "" else (if IsDelimiter(s[0]) then "" else [s[0]]) + WithoutDelimiters(s[1..])
  }

  function Concat(words: seq<string>): string {
    if words == [] then "" else words[0] + Concat(words[1..])
  }

  lemma {:induction false} WithoutDelimitersSplit(w: string, rest: string)
    requires forall i | 0 <= i < |w| :: !IsDelimiter(w[i])
    ensures WithoutDelimiters(w + rest) == w + WithoutDelimiters(rest)
  {
    if w == "" {
      assert w + rest == rest;
    } else {
      assert (w + rest)[1..] == w[1..] + rest;
      WithoutDelimitersSplit(w[1..], rest);
    }
  }

  /** No character but delimiters is lost, and the order is kept. */
  lemma {:induction false} WordsKeepText(s: string)
    ensures Concat(Words(s)) == WithoutDelimiters(s)
  {
    if s != "" {
      if IsDelimiter(s[0]) {
        WordsKeepText(s[1..]);
      } else {
        var n := WordLength(s);
        WordsKeepText(s[n..]);
        WithoutDelimitersSplit(s[..n], s[n..]);
        assert s[..n] + s[n..] == s;
      }
    }
  }

  // ----- C strings

  /** The characters before the first NUL. */
  function CString(s: string): string {
    if s == "" || s[0] == '\0' then "" else [s[0]] + CString(s[1..])
  }

  lemma {:induction false} CStringStops(w: string, rest: string)
    ensures CString(w + ['\0'] + rest) == CString(w)
  {
    if w != "" {
      assert (w + ['\0'] + rest)[1..] == w[1..] + ['\0'] + rest;
      CStringStops(w[1..], rest);
    }
  }

  lemma {:induction false} CStringWhole(w: string)
    ensures CString(w) == w <==> '\0' !in w
  {
    if w != "" {
      CStringWhole(w[1..]);
    }
  }

  /** The arguments a line is dispatched with: its first sixteen words, each as
      the C string that a handler sees. */
  function Args(line: string): seq<string> {
    var words := Words(line);
    seq(if |words| < MAX_ARGS then |words| else MAX_ARGS, k requires 0 <= k < |words| => CString(words[k]))
  }

  // ----- editing

  datatype Edit = Edit(line: string, sent: seq<seq<string>>)

  predicate Completes(line: string, c: char) {
    c == '\n' || |line| + 1 >= BUFFER_SIZE
  }

  /** One received character: the line afterwards and the argument lists dispatched. */
  function Receive(line: string, c: char): Edit {
    if c == '\r' then Edit(line, [])
    else if c == BS then Edit(if line == "" then "" else line[..|line| - 1], [])
    else if Completes(line, c) then Edit("", if Args(line) == [] then [] else [Args(line)])
    else Edit(line + [c], [])
  }

  /** A stream of received characters, from a given line. */
  function Feed(line: string, input: string): Edit
    decreases input
  {
    if input == "" then Edit(line, [])
    else
      var first := Receive(line, input[0]);
      var rest := Feed(first.line, input[1..]);
      Edit(rest.line, first.sent + rest.sent)
  }

  predicate Ordinary(c: char) { c != '\r' && c != BS && c != '\n' }

  /** Between characters the line is short of a full buffer and free of control
      characters that the editor interprets. */
  predicate GoodLine(line: string) {
    |line| < BUFFER_SIZE && forall i | 0 <= i < |line| :: Ordinary(line[i])
  }

  lemma {:induction false} FeedKeepsGoodLines(line: string, input: string)
    requires GoodLine(line)
    ensures GoodLine(Feed(line, input).line)
    decreases input
  {
    if input != "" {
      FeedKeepsGoodLines(Receive(line, input[0]).line, input[1..]);
    }
  }

  lemma {:induction false} FeedConcat(line: string, x: string, y: string)
    ensures var e := Feed(line, x);
            var f := Feed(e.line, y);
            Feed(line, x + y) == Edit(f.line, e.sent + f.sent)
    decreases x
  {
    if x == "" {
      assert x + y == y;
    } else {
      assert (x + y)[1..] == x[1..] + y;
      FeedConcat(Receive(line, x[0]).line, x[1..], y);
    }
  }

  /** A typed character and a backspace cancel, unless the character was the one
      that filled the buffer: then the line is gone. */
  lemma BackspaceUndoes(line: string, c: char)
    requires GoodLine(line) && Ordinary(c)
    ensures Feed(line, [c, BS]) == Edit(line, []) <==> |line| + 1 < BUFFER_SIZE
  {
    hide Args;
    FeedTwo(line, c, BS);
    if |line| + 1 < BUFFER_SIZE {
      assert (line + [c])[..|line|] == line;
    }
  }

  lemma FeedTwo(line: string, c: char, d: char)
    ensures var e := Receive(line, c);
            var f := Receive(e.line, d);
            Feed(line, [c, d]) == Edit(f.line, e.sent + f.sent)
  {
    hide Receive;
    assert [c, d][1..] == [d];
    assert [d][1..] == "";
    var e := Receive(line, c);
    assert Feed(e.line, [d]).sent == Receive(e.line, d).sent + [];
  }

  /** The same in the middle of a stream. */
  lemma BackspaceUndoesAnywhere(line: string, x: string, c: char, y: string)
    requires GoodLine(line) && Ordinary(c) && |Feed(line, x).line| + 1 < BUFFER_SIZE
    ensures Feed(line, x + [c, BS] + y) == Feed(line, x + y)
  {
    var e := Feed(line, x);
    FeedKeepsGoodLines(line, x);
    BackspaceUndoes(e.line, c);
    FeedConcat(line, x, y);
    FeedConcat(line, x, [c, BS]);
    FeedConcat(line, x + [c, BS], y);
  }

  function WithoutReturns(input: string): string {
    if input == "" then ""
    else (if input[0] == '\r' then "" else [input[0]]) + WithoutReturns(input[1..])
  }

  /** Carriage returns are ignored wherever they occur. */
  lemma {:induction false} ReturnsAreIgnored(line: string, input: string)
    ensures Feed(line, input) == Feed(line, WithoutReturns(input))
    decreases input
  {
    if input != "" {
      ReturnsAreIgnored(Receive(line, input[0]).line, input[1..]);
      var rest := WithoutReturns(input[1..]);
      if input[0] == '\r' {
        assert WithoutReturns(input) == rest;
      } else {
        assert WithoutReturns(input)[1..] == rest;
      }
    }
  }

  /** Length of the first line of a stream without backspaces: up to its newline,
      at most one less than the buffer. */
  function LineLength(input: string, limit: nat): (n: nat)
    ensures n <= limit && n <= |input|
    ensures forall i | 0 <= i < n :: input[i] != '\n'
  {
    if limit == 0 || input == "" || input[0] == '\n' then 0 else 1 + LineLength(input[1..], limit - 1)
  }

  /** The complete lines of a plain stream, each followed by the one character
      that ends it and is dropped. */
  function Lines(input: string): seq<string> {
    var n := LineLength(input, BUFFER_SIZE - 1);
    if n == |input| then [] else [input[..n]] + Lines(input[n + 1..])
  }

  function Dispatched(lines: seq<string>): seq<seq<string>> {
    if lines == [] then []
    else (if Args(lines[0]) == [] then [] else [Args(lines[0])]) + Dispatched(lines[1..])
  }

  lemma {:induction false} FeedPlain(line: string, text: string)
    requires |line| + |text| < BUFFER_SIZE && forall i | 0 <= i < |text| :: Ordinary(text[i])
    ensures Feed(line, text) == Edit(line + text, [])
    decreases text
  {
    hide Args;
    if text == "" {
      assert line + text == line;
    } else {
      var c, more := text[0], text[1..];
      FeedPlain(line + [c], more);
      assert Receive(line, c) == Edit(line + [c], []);
      assert line + [c] + more == line + text;
    }
  }

  /** A line that `c` completes is dispatched without `c`, and the rest starts afresh. */
  lemma FeedLine(text: string, c: char, rest: string)
    requires GoodLine(text) && Completes(text, c) && c != '\r' && c != BS
    ensures var f := Feed("", rest);
            Feed("", text + [c] + rest) == Edit(f.line, (if Args(text) == [] then [] else [Args(text)]) + f.sent)
  {
    hide Args;
    FeedPlain("", text);
    assert "" + text == text;
    FeedConcat("", text, [c] + rest);
    assert text + ([c] + rest) == text + [c] + rest;
    assert ([c] + rest)[1..] == rest;
  }

  lemma {:induction false} LineLengthIsMaximal(input: string, limit: nat)
    ensures var n := LineLength(input, limit);
            n == |input| || n == limit || input[n] == '\n'
  {
    if limit != 0 && input != "" && input[0] != '\n' {
      LineLengthIsMaximal(input[1..], limit - 1);
    }
  }

  /** On a stream of text and newlines, what is dispatched is exactly the argument
      lists of its lines, cut at newlines and at 255 characters. */
  lemma {:induction false} FeedDispatchesLines(input: string)
    requires forall i | 0 <= i < |input| :: input[i] != BS && input[i] != '\r'
    ensures Feed("", input).sent == Dispatched(Lines(input))
    decreases |input|
  {
    hide Args, Feed;
    var n := LineLength(input, BUFFER_SIZE - 1);
    LineLengthIsMaximal(input, BUFFER_SIZE - 1);
    if n == |input| {
      FeedPlain("", input);
    } else {
      var text, c, rest := input[..n], input[n], input[n + 1..];
      assert input == text + [c] + rest;
      FeedLine(text, c, rest);
      FeedDispatchesLines(rest);
      assert Lines(input)[1..] == Lines(rest);
    }
  }

  /** Typing a proper command line and a newline dispatches exactly its words, the
      first sixteen of them. */
  lemma CommandLine(words: seq<string>)
    requires words != [] && |Join(words)| < BUFFER_SIZE
    requires forall k | 0 <= k < |words| :: IsWord(words[k])
    requires forall k | 0 <= k < |words| :: '\0' !in words[k]
    requires forall i | 0 <= i < |Join(words)| :: Ordinary(Join(words)[i])
    ensures Feed("", Join(words) + "\n") == Edit("", [if |words| <= 16 then words else words[..16]])
  {
    hide Feed, Join, Receive;
    var text := Join(words);
    WordsOfJoin(words);
    forall k | 0 <= k < |words|
      ensures CString(words[k]) == words[k]
    {
      CStringWhole(words[k]);
    }
    assert Args(text) == if |words| <= 16 then words else words[..16];
    FeedLine(text, '\n', "");
    FeedNothing("");
    assert text + "\n" + "" == text + "\n";
  }

  lemma FeedNothing(line: string)
    ensures Feed(line, "") == Edit(line, [])
  {
  }
}
