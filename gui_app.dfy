/**
 * The desktop front end (gui_app.py): what `run_autocompose` decides before
 * it starts the engine — the two early returns, the argument list, and the
 * shell-quoted command line it shows.
 */
module GuiApp {
  import opened Wrappers
  import opened Text

  const ScriptPath := "/app/autocompose.py"
  const Interpreter := "python"
  const FullFlag := "--full"
  /** The message when the script is missing: "`autocompose.py` not found at /app/autocompose.py". */
  const ScriptMissing := "`autocompose.py` not found at " + ScriptPath
  const NoIds := "No container IDs provided."

  /** The four values `run_autocompose` returns. */
  datatype RunResult = RunResult(stdout: Option<string>, stderr: string, returnCode: int, displayCommand: string)

  /** Either an early return, or the command to execute and the line shown for it. */
  datatype Launch = Finished(result: RunResult) | Execute(command: seq<string>, displayCommand: string)

  /** The argument list: interpreter, script, `--full` when asked, then the ids in order. */
  function CommandLine(ids: seq<string>, full: bool): seq<string> {
    [Interpreter, ScriptPath] + (if full then [FullFlag] else []) + ids
  }

  /** gui_app.py:37-40, built with `append` and `extend`. */
  method BuildCommand(ids: seq<string>, full: bool) returns (command: seq<string>)
    ensures command == CommandLine(ids, full)
  {
    command := [Interpreter, ScriptPath];
    if full {
      command := command + [FullFlag];
    }
    command := command + ids;
  }

  /** The characters `shlex.quote` leaves unquoted: `[A-Za-z0-9_@%+=:,./-]`. */
  predicate IsSafeChar(c: char) {
    'a' <= c <= 'z' || 'A' <= c <= 'Z' || '0' <= c <= '9'
    || c == '_' || c == '@' || c == '%' || c == '+' || c == '=' || c == ':' || c == ',' || c == '.' || c == '/' || c == '-'
  }

  predicate AllSafe(s: string) {
    forall i :: 0 <= i < |s| ==> IsSafeChar(s[i])
  }

  /** `s.replace("'", "'\"'\"'")`. */
  function EscapeQuotes(s: string): string {
    if |s| == 0 then ""
    else (if s[0] == '\'' then "'\"'\"'" else [s[0]]) + EscapeQuotes(s[1..])
  }

  /** `shlex.quote(s)`. */
  function ShellQuote(s: string): string {
    if s == "" then "''"
    else if AllSafe(s) then s
    else "'" + EscapeQuotes(s) + "'"
  }

  function QuoteAll(args: seq<string>): (r: seq<string>)
    ensures |r| == |args|
    ensures forall i :: 0 <= i < |args| ==> r[i] == ShellQuote(args[i])
  {
    if |args| == 0 then [] else [ShellQuote(args[0])] + QuoteAll(args[1..])
  }

  /** `' '.join(shlex.quote(c) for c in command)` (gui_app.py:42). */
  function DisplayCommand(command: seq<string>): string {
    Join(QuoteAll(command), " ")
  }

  /** gui_app.py:26-42 up to the point where the engine is started. */
  method PrepareRun(scriptExists: bool, ids: seq<string>, full: bool) returns (launch: Launch)
    ensures !scriptExists ==> launch == Finished(RunResult(None, ScriptMissing, -2, ""))
    ensures scriptExists && |ids| == 0 ==> launch == Finished(RunResult(Some(""), NoIds, -1, ""))
    ensures scriptExists && |ids| > 0 ==> launch == Execute(CommandLine(ids, full), DisplayCommand(CommandLine(ids, full)))
  {
    if !scriptExists {
      return Finished(RunResult(None, ScriptMissing, -2, ""));
    }
    if |ids| == 0 {
      return Finished(RunResult(Some(""), NoIds, -1, ""));
    }
    var command := BuildCommand(ids, full);
    launch := Execute(command, DisplayCommand(command));
  }

  /**
   * `--full` comes right after the script and before every id, and the ids
   * follow in their order, untouched.
   */
  lemma CommandLineShape(ids: seq<string>, full: bool)
    ensures var c := CommandLine(ids, full);
      && |c| == 2 + (if full then 1 else 0) + |ids|
      && c[..2] == [Interpreter, ScriptPath]
      && c[|c| - |ids|..] == ids
      && (full <==> FullFlag in c[..|c| - |ids|])
  {
    var c := CommandLine(ids, full);
    if full {
      assert c[..|c| - |ids|] == [Interpreter, ScriptPath, FullFlag];
    } else {
      assert c[..|c| - |ids|] == [Interpreter, ScriptPath];
    }
  }

  // ---------------------------------------------------------------------------
  // Reading the shown line back, as a POSIX shell splits and unquotes it

  /**
   * A word read so far: its text, and the input after the unquoted blank
   * that ended it (None when the input ended instead). None as a whole
   * means a quote was left open.
   */
  type WordRead = Option<(string, Option<string>)>

  function Prepend(p: string, r: WordRead): (q: WordRead)
    ensures q.Some? <==> r.Some?
    ensures r.Some? ==> q.value.1 == r.value.1
  {
    match r
    case None => None
    case Some((v, rest)) => Some((p + v, rest))
  }

  /** One word, outside any quotes: it ends at an unquoted blank or at the end of the input. */
  function ReadPlain(w: string): (r: WordRead)
    ensures r.Some? && r.value.1.Some? ==> |r.value.1.value| < |w|
    decreases |w|
  {
    if |w| == 0 then Some(("", None))
    else if w[0] == ' ' then Some(("", Some(w[1..])))
    else if w[0] == '\'' then ReadSingle(w[1..])
    else if w[0] == '"' then ReadDouble(w[1..])
    else if w[0] == '\\' && |w| > 1 then Prepend([w[1]], ReadPlain(w[2..]))
    else Prepend([w[0]], ReadPlain(w[1..]))
  }

  /** Inside single quotes everything, blanks included, is literal up to the next `'`. */
  function ReadSingle(w: string): (r: WordRead)
    ensures r.Some? && r.value.1.Some? ==> |r.value.1.value| < |w|
    decreases |w|
  {
    if |w| == 0 then None
    else if w[0] == '\'' then ReadPlain(w[1..])
    else Prepend([w[0]], ReadSingle(w[1..]))
  }

  /** Inside double quotes a backslash escapes only `$`, backquote, `"`, `\` and newline. */
  function ReadDouble(w: string): (r: WordRead)
    ensures r.Some? && r.value.1.Some? ==> |r.value.1.value| < |w|
    decreases |w|
  {
    if |w| == 0 then None
    else if w[0] == '"' then ReadPlain(w[1..])
    else if w[0] == '\\' && |w| > 1 && (w[1] == '$' || w[1] == '`' || w[1] == '"' || w[1] == '\\' || w[1] == '\n')
    then Prepend([w[1]], ReadDouble(w[2..]))
    else Prepend([w[0]], ReadDouble(w[1..]))
  }

  /** The words of a line: runs of unquoted blanks separate them and are dropped. */
  function ReadWords(line: string): Option<seq<string>>
    decreases |line|
  {
    if |line| == 0 then Some([])
    else if line[0] == ' ' then ReadWords(line[1..])
    else match ReadPlain(line)
      case None => None
      case Some((word, None)) => Some([word])
      case Some((word, Some(rest))) =>
        match ReadWords(rest)
        case None => None
        case Some(words) => Some([word] + words)
  }

  lemma PrependAssoc(a: string, b: string, r: WordRead)
    ensures Prepend(a, Prepend(b, r)) == Prepend(a + b, r)
  {
    match r
    case None =>
    case Some((v, rest)) => assert a + (b + v) == (a + b) + v;
  }

  lemma PrependNothing(r: WordRead)
    ensures Prepend("", r) == r
  {
    match r
    case None =>
    case Some((v, rest)) => assert "" + v == v;
  }

  /** Safe characters read as themselves, whatever follows them. */
  lemma {:induction false} ReadSafe(s: string, tail: string)
    requires AllSafe(s)
    ensures ReadPlain(s + tail) == Prepend(s, ReadPlain(tail))
  {
    if |s| == 0 {
      assert s + tail == tail;
      PrependNothing(ReadPlain(tail));
    } else {
      assert s + tail == [s[0]] + (s[1..] + tail);
      ReadSafe(s[1..], tail);
      PlainLiteral(s[0], s[1..] + tail);
      PrependAssoc([s[0]], s[1..], ReadPlain(tail));
      assert [s[0]] + s[1..] == s;
    }
  }

  lemma PlainLiteral(c: char, w: string)
    requires IsSafeChar(c)
    ensures ReadPlain([c] + w) == Prepend([c], ReadPlain(w))
  {
    assert ([c] + w)[1..] == w;
  }

  /** Inside single quotes, an escaped text and the closing quote read as the text. */
  lemma {:induction false} ReadEscaped(s: string, rest: string)
    ensures ReadSingle(EscapeQuotes(s) + "'" + rest) == Prepend(s, ReadPlain(rest))
  {
    if |s| == 0 {
      assert EscapeQuotes(s) + "'" + rest == ['\''] + rest;
      SingleHead('\'', rest);
      PrependNothing(ReadPlain(rest));
    } else {
      ReadEscaped(s[1..], rest);
      EscapedHead(s, rest);
      PrependAssoc([s[0]], s[1..], ReadPlain(rest));
      assert [s[0]] + s[1..] == s;
    }
  }

  /** The first character of an escaped text reads as itself. */
  lemma EscapedHead(s: string, rest: string)
    requires |s| > 0
    ensures ReadSingle(EscapeQuotes(s) + "'" + rest)
         == Prepend([s[0]], ReadSingle(EscapeQuotes(s[1..]) + "'" + rest))
  {
    var tail := EscapeQuotes(s[1..]) + "'" + rest;
    if s[0] == '\'' {
      assert EscapeQuotes(s) + "'" + rest == "'\"'\"'" + tail;
      EscapedQuote(tail);
    } else {
      assert EscapeQuotes(s) + "'" + rest == [s[0]] + tail;
      SingleHead(s[0], tail);
    }
  }

  /** `'"'"'` closes the quotes, reads a quote in double quotes, and reopens them. */
  lemma EscapedQuote(tail: string)
    ensures ReadSingle("'\"'\"'" + tail) == Prepend("'", ReadSingle(tail))
  {
    var q, d := '\'', '"';
    assert "'\"'\"'" + tail == [q] + ([d] + ([q] + ([d] + ([q] + tail))));
    SingleHead(q, [d] + ([q] + ([d] + ([q] + tail))));
    PlainHead(d, [q] + ([d] + ([q] + tail)));
    DoubleHead(q, [d] + ([q] + tail));
    DoubleHead(d, [q] + tail);
    PlainHead(q, tail);
  }

  lemma PlainHead(c: char, w: string)
    requires c == '\'' || c == '"'
    ensures ReadPlain([c] + w) == if c == '\'' then ReadSingle(w) else ReadDouble(w)
  {
    assert ([c] + w)[1..] == w;
  }

  lemma SingleHead(c: char, w: string)
    ensures ReadSingle([c] + w) == if c == '\'' then ReadPlain(w) else Prepend([c], ReadSingle(w))
  {
    assert ([c] + w)[1..] == w;
  }

  lemma DoubleHead(c: char, w: string)
    requires c != '\\'
    ensures ReadDouble([c] + w) == if c == '"' then ReadPlain(w) else Prepend([c], ReadDouble(w))
  {
    assert ([c] + w)[1..] == w;
  }

  /** `''` reads as the empty word. */
  lemma EmptyQuoted(tail: string)
    ensures ReadPlain("''" + tail) == Prepend("", ReadPlain(tail))
  {
    assert "''" + tail == ['\''] + (['\''] + tail);
    PlainHead('\'', ['\''] + tail);
    SingleHead('\'', tail);
    PrependNothing(ReadPlain(tail));
  }

  /** A single-quoted, escaped argument reads as the argument. */
  lemma QuotedReadsBack(s: string, tail: string)
    ensures ReadPlain("'" + EscapeQuotes(s) + "'" + tail) == Prepend(s, ReadPlain(tail))
  {
    ReadEscaped(s, tail);
    assert "'" + EscapeQuotes(s) + "'" + tail == ['\''] + (EscapeQuotes(s) + "'" + tail);
    PlainHead('\'', EscapeQuotes(s) + "'" + tail);
  }

  /** A quoted argument reads back as the argument, and the reader goes on with what follows. */
  lemma ShellQuoteRoundTrip(s: string, tail: string)
    ensures ReadPlain(ShellQuote(s) + tail) == Prepend(s, ReadPlain(tail))
  {
    if s == "" {
      EmptyQuoted(tail);
    } else if AllSafe(s) {
      ReadSafe(s, tail);
    } else {
      QuotedReadsBack(s, tail);
    }
  }

  /** A quoted word never starts with a blank. */
  lemma QuotedStart(s: string)
    ensures ShellQuote(s) != [] && ShellQuote(s)[0] != ' '
  {
    if s != "" && AllSafe(s) {
      assert IsSafeChar(s[0]);
    }
  }

  /** A quoted argument alone on the line is read as one word. */
  lemma LastWord(a: string)
    ensures ReadWords(ShellQuote(a)) == Some([a])
  {
    QuotedStart(a);
    ShellQuoteRoundTrip(a, "");
    assert ShellQuote(a) + "" == ShellQuote(a);
    assert a + "" == a;
  }

  /** A line that starts with a word ended by a blank: that word, then the words of the rest. */
  lemma WordsAfterBlank(line: string, word: string, rest: string)
    requires |line| > 0 && line[0] != ' '
    requires ReadPlain(line) == Some((word, Some(rest)))
    ensures ReadWords(line)
         == match ReadWords(rest) case None => None case Some(ws) => Some([word] + ws)
  {
  }

  /** A quoted argument followed by a blank is one word, read back, and the reader moves past the blank. */
  lemma QuotedThenBlank(a: string, line: string)
    ensures ReadPlain(ShellQuote(a) + " " + line) == Some((a, Some(line)))
  {
    ShellQuoteRoundTrip(a, " " + line);
    assert ShellQuote(a) + (" " + line) == ShellQuote(a) + " " + line;
    assert ReadPlain(" " + line) == Some(("", Some(line))) by {
      assert (" " + line)[1..] == line;
    }
    assert a + "" == a;
  }

  /** A quoted argument and a blank: the argument is the first word, the rest of the line follows. */
  lemma FirstWord(a: string, line: string)
    ensures ReadWords(ShellQuote(a) + " " + line)
         == match ReadWords(line) case None => None case Some(ws) => Some([a] + ws)
  {
    var w := ShellQuote(a) + " " + line;
    QuotedStart(a);
    assert w[0] == ShellQuote(a)[0];
    QuotedThenBlank(a, line);
    WordsAfterBlank(w, a, line);
  }

  /** The shown line of several arguments: the first one quoted, a blank, the shown rest. */
  lemma DisplayCons(command: seq<string>)
    requires |command| > 1
    ensures DisplayCommand(command) == ShellQuote(command[0]) + " " + DisplayCommand(command[1..])
  {
    var q := QuoteAll(command);
    assert q[0] == ShellQuote(command[0]);
    assert q[1..] == QuoteAll(command[1..]);
  }

  lemma DisplayOne(command: seq<string>)
    requires |command| == 1
    ensures ReadWords(DisplayCommand(command)) == Some(command)
  {
    assert DisplayCommand(command) == ShellQuote(command[0]);
    LastWord(command[0]);
    assert [command[0]] == command;
  }

  lemma DisplayStep(command: seq<string>)
    requires |command| > 1
    requires ReadWords(DisplayCommand(command[1..])) == Some(command[1..])
    ensures ReadWords(DisplayCommand(command)) == Some(command)
  {
    DisplayCons(command);
    FirstWord(command[0], DisplayCommand(command[1..]));
    assert [command[0]] + command[1..] == command;
  }

  /** The line shown splits and unquotes to exactly the command that is run. */
  lemma {:induction false} DisplayRoundTrip(command: seq<string>)
    ensures ReadWords(DisplayCommand(command)) == Some(command)
  {
    if |command| == 0 {
      assert DisplayCommand(command) == "";
    } else if |command| == 1 {
      DisplayOne(command);
    } else {
      DisplayRoundTrip(command[1..]);
      DisplayStep(command);
    }
  }

  /** Plain words are shown as they are. */
  lemma {:induction false} QuoteAllPlain(args: seq<string>)
    requires forall i :: 0 <= i < |args| ==> args[i] != "" && AllSafe(args[i])
    ensures QuoteAll(args) == args
  {
    if |args| > 0 {
      QuoteAllPlain(args[1..]);
    }
  }

  lemma CommandWordsSafe()
    ensures AllSafe(Interpreter) && AllSafe(ScriptPath) && AllSafe(FullFlag)
  {
  }

  /** When every id is a plain word, the shown line is the arguments joined by spaces. */
  lemma DisplayPlain(ids: seq<string>, full: bool)
    requires forall i :: 0 <= i < |ids| ==> ids[i] != "" && AllSafe(ids[i])
    ensures DisplayCommand(CommandLine(ids, full)) == Join(CommandLine(ids, full), " ")
  {
    CommandWordsSafe();
    var c := CommandLine(ids, full);
    var k := if full then 3 else 2;
    assert forall i :: k <= i < |c| ==> c[i] == ids[i - k];
    QuoteAllPlain(c);
  }

  /** A text without single quotes needs no escaping. */
  lemma {:induction false} NoQuotesKept(s: string)
    requires forall i :: 0 <= i < |s| ==> s[i] != '\''
    ensures EscapeQuotes(s) == s
  {
    if |s| > 0 {
      NoQuotesKept(s[1..]);
      assert [s[0]] + s[1..] == s;
    }
  }

  /** A word with a space is shown single-quoted. */
  lemma QuoteExample()
    ensures ShellQuote("a b") == "'a b'"
  {
    var s := "a b";
    assert !IsSafeChar(s[1]);
    NoQuotesKept(s);
  }
}
