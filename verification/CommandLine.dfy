/**
 Quoting arguments for a Windows command line (`src/sandbox/sandbox_utils.rs`), and the rules by
 which the started program takes the line apart again.
 */
module CommandLine {
  import opened Text

  const NUL: char := '\0'

  // ----- quoting -----

  predicate NeedsQuotes(arg: string) {
    exists c :: c in arg && (IsWhitespace(c) || c == '"')
  }

  function Backslashes(n: nat): (r: string)
    ensures |r| == n && forall c :: c in r ==> c == '\\'
  {
    if n == 0 then "" else ['\\'] + Backslashes(n - 1)
  }

  /** What follows the opening quote: `pending` backslashes have been read but not written. */
  function QuotedBody(arg: string, pending: nat): string {
    if arg == "" then Backslashes(2 * pending) + ['"']
    else if arg[0] == '\\' then QuotedBody(arg[1..], pending + 1)
    else if arg[0] == '"' then Backslashes(2 * pending + 1) + ['"'] + QuotedBody(arg[1..], 0)
    else Backslashes(pending) + [arg[0]] + QuotedBody(arg[1..], 0)
  }

  function Quote(arg: string): string {
    if arg == "" then "\"\""
    else if !NeedsQuotes(arg) then arg
    else ['"'] + QuotedBody(arg, 0)
  }

  method QuoteWindowsArg(arg: string) returns (quoted: string)
    ensures quoted == Quote(arg)
  {
    if arg == "" {
      return "\"\"";
    }
    if !NeedsQuotes(arg) {
      return arg;
    }
    quoted := ['"'];
    var backslashes := 0;
    assert arg[0..] == arg;
    for i := 0 to |arg|
      invariant quoted + QuotedBody(arg[i..], backslashes) == ['"'] + QuotedBody(arg, 0)
    {
      var c := arg[i];
      assert arg[i..][1..] == arg[i + 1..];
      ghost var before := quoted + QuotedBody(arg[i..], backslashes);
      if c == '\\' {
        backslashes := backslashes + 1;
      } else if c == '"' {
        quoted := quoted + Backslashes(2 * backslashes + 1) + ['"'];
        backslashes := 0;
      } else {
        quoted := quoted + Backslashes(backslashes) + [c];
        backslashes := 0;
      }
      assert quoted + QuotedBody(arg[i + 1..], backslashes) == before;
    }
    quoted := quoted + Backslashes(2 * backslashes) + ['"'];
  }

  function Join(parts: seq<string>): string
    requires parts != []
  {
    if |parts| == 1 then parts[0] else parts[0] + " " + Join(parts[1..])
  }

  function QuoteAll(args: seq<string>): (r: seq<string>)
    ensures |r| == |args|
  {
    if args == [] then [] else [Quote(args[0])] + QuoteAll(args[1..])
  }

  /** `build_windows_command_line`. */
  function BuildCommandLine(program: string, args: seq<string>): string {
    Join(QuoteAll([program] + args))
  }

  // ----- the Microsoft C runtime's rules for taking a command line apart -----

  predicate Blank(c: char) { c == ' ' || c == '\t' }

  /** A C string ends at its first NUL. */
  function CString(s: string): string {
    if s == "" || s[0] == NUL then "" else [s[0]] + CString(s[1..])
  }

  /** The program name: quotes only group, and backslashes mean themselves. */
  function ScanProgram(s: string, inQuotes: bool): (r: (string, string))
    ensures |r.1| <= |s|
  {
    if s == "" then ("", "")
    else if s[0] == '"' then ScanProgram(s[1..], !inQuotes)
    else if Blank(s[0]) && !inQuotes then ("", s)
    else
      var (name, rest) := ScanProgram(s[1..], inQuotes);
      ([s[0]] + name, rest)
  }

  /**
   One argument, with `pending` backslashes read: 2n backslashes and a quote are n backslashes and a
   delimiter, 2n+1 are n backslashes and a literal quote, a doubled quote inside quotes is literal.
   */
  function ScanArg(s: string, pending: nat, inQuotes: bool): (r: (string, string))
    ensures |r.1| <= |s|
    ensures s != "" && (inQuotes || !Blank(s[0])) ==> |r.1| < |s|
  {
    if s == "" then (Backslashes(pending), "")
    else if s[0] == '\\' then ScanArg(s[1..], pending + 1, inQuotes)
    else if s[0] == '"' then
      var prefix := Backslashes(pending / 2);
      if pending % 2 == 1 then
        var (arg, rest) := ScanArg(s[1..], 0, inQuotes);
        (prefix + ['"'] + arg, rest)
      else if inQuotes && |s| > 1 && s[1] == '"' then
        var (arg, rest) := ScanArg(s[2..], 0, inQuotes);
        (prefix + ['"'] + arg, rest)
      else
        var (arg, rest) := ScanArg(s[1..], 0, !inQuotes);
        (prefix + arg, rest)
    else if Blank(s[0]) && !inQuotes then (Backslashes(pending), s)
    else
      var (arg, rest) := ScanArg(s[1..], 0, inQuotes);
      (Backslashes(pending) + [s[0]] + arg, rest)
  }

  function ScanArgs(s: string): seq<string>
    decreases |s|
  {
    if s == "" then []
    else if Blank(s[0]) then ScanArgs(s[1..])
    else
      var (arg, rest) := ScanArg(s, 0, false);
      [arg] + ScanArgs(rest)
  }

  function ParseCommandLine(line: string): (r: seq<string>)
    ensures r != []
  {
    var (program, rest) := ScanProgram(line, false);
    [program] + ScanArgs(rest)
  }

  // ----- arguments survive -----

  lemma {:induction false} BackslashesAppend(m: nat, n: nat)
    ensures Backslashes(m) + Backslashes(n) == Backslashes(m + n)
  {
    if m > 0 { BackslashesAppend(m - 1, n); }
  }

  lemma {:induction false} ScanBackslashes(n: nat, s: string, pending: nat, inQuotes: bool)
    ensures ScanArg(Backslashes(n) + s, pending, inQuotes) == ScanArg(s, pending + n, inQuotes)
  {
    if n == 0 {
      assert Backslashes(0) + s == s;
    } else {
      ScanBackslashes(n - 1, s, pending + 1, inQuotes);
      assert (Backslashes(n) + s)[1..] == Backslashes(n - 1) + s;
    }
  }

  ghost predicate Delimited(tail: string) {
    tail == "" || tail[0] == ' '
  }

  // One character of the scanner's input at a time.

  lemma ScanOrdinary(c: char, rest: string, pending: nat, inQuotes: bool)
    requires c != '\\' && c != '"' && (inQuotes || !Blank(c))
    ensures var (arg, tail) := ScanArg(rest, 0, inQuotes);
            ScanArg([c] + rest, pending, inQuotes) == (Backslashes(pending) + [c] + arg, tail)
  {
    assert ([c] + rest)[1..] == rest;
  }

  lemma ScanEscapedQuote(rest: string, pending: nat, inQuotes: bool)
    ensures var (arg, tail) := ScanArg(rest, 0, inQuotes);
            ScanArg(Backslashes(2 * pending + 1) + (['"'] + rest), 0, inQuotes) == (Backslashes(pending) + ['"'] + arg, tail)
  {
    ScanBackslashes(2 * pending + 1, ['"'] + rest, 0, inQuotes);
    assert (['"'] + rest)[1..] == rest;
  }

  lemma ScanClosingQuote(tail: string, pending: nat)
    requires Delimited(tail)
    ensures ScanArg(Backslashes(2 * pending) + (['"'] + tail), 0, true) == (Backslashes(pending), tail)
  {
    ScanBackslashes(2 * pending, ['"'] + tail, 0, true);
    assert (['"'] + tail)[1..] == tail;
    ScanEnd(tail);
    assert Backslashes(pending) + "" == Backslashes(pending);
  }

  lemma ScanEnd(tail: string)
    requires Delimited(tail)
    ensures ScanArg(tail, 0, false) == ("", tail)
  {}

  lemma OneMoreBackslash(pending: nat, rest: string)
    ensures Backslashes(pending + 1) + rest == Backslashes(pending) + (['\\'] + rest)
  {
    BackslashesAppend(pending, 1);
    assert Backslashes(1) == ['\\'];
  }

  lemma Assoc(a: string, b: string, c: string)
    ensures a + b + c == a + (b + c)
  {}

  lemma {:induction false} ScanQuoted(arg: string, pending: nat, tail: string)
    requires Delimited(tail)
    ensures ScanArg(QuotedBody(arg, pending) + tail, 0, true) == (Backslashes(pending) + arg, tail)
  {
    if arg == "" {
      ScanClosingQuote(tail, pending);
      Assoc(Backslashes(2 * pending), ['"'], tail);
      assert Backslashes(pending) + arg == Backslashes(pending);
    } else {
      assert arg == [arg[0]] + arg[1..];
      if arg[0] == '\\' {
        ScanQuoted(arg[1..], pending + 1, tail);
        OneMoreBackslash(pending, arg[1..]);
      } else {
        ScanQuoted(arg[1..], 0, tail);
        assert Backslashes(0) + arg[1..] == arg[1..];
        Assoc(Backslashes(pending), [arg[0]], arg[1..]);
        if arg[0] == '"' {
          QuoteEndsRun(arg[1..], QuotedBody(arg[1..], 0), pending, tail);
        } else {
          OrdinaryEndsRun(arg[0], arg[1..], QuotedBody(arg[1..], 0), pending, tail);
        }
      }
    }
  }

  /** A run of backslashes in front of a quote. */
  lemma QuoteEndsRun(arg: string, body: string, pending: nat, tail: string)
    requires ScanArg(body + tail, 0, true) == (arg, tail)
    ensures ScanArg(Backslashes(2 * pending + 1) + ['"'] + body + tail, 0, true) == (Backslashes(pending) + ['"'] + arg, tail)
  {
    ScanEscapedQuote(body + tail, pending, true);
    Assoc(Backslashes(2 * pending + 1) + ['"'], body, tail);
    Assoc(Backslashes(2 * pending + 1), ['"'], body + tail);
  }

  /** A run of backslashes in front of any other character. */
  lemma OrdinaryEndsRun(c: char, arg: string, body: string, pending: nat, tail: string)
    requires c != '\\' && c != '"' && ScanArg(body + tail, 0, true) == (arg, tail)
    ensures ScanArg(Backslashes(pending) + [c] + body + tail, 0, true) == (Backslashes(pending) + [c] + arg, tail)
  {
    ScanBackslashes(pending, [c] + (body + tail), 0, true);
    ScanOrdinary(c, body + tail, pending, true);
    Assoc(Backslashes(pending) + [c], body, tail);
    Assoc(Backslashes(pending), [c], body + tail);
  }

  ghost predicate Plain(arg: string) {
    forall i :: 0 <= i < |arg| ==> !IsWhitespace(arg[i]) && arg[i] != '"'
  }

  lemma {:induction false} ScanPlain(arg: string, pending: nat, tail: string)
    requires Plain(arg) && Delimited(tail)
    ensures ScanArg(arg + tail, pending, false) == (Backslashes(pending) + arg, tail)
  {
    if arg == "" {
      assert arg + tail == tail;
      assert Backslashes(pending) + arg == Backslashes(pending);
    } else {
      assert arg == [arg[0]] + arg[1..];
      Assoc([arg[0]], arg[1..], tail);
      if arg[0] == '\\' {
        ScanPlain(arg[1..], pending + 1, tail);
        OneMoreBackslash(pending, arg[1..]);
        assert (arg + tail)[1..] == arg[1..] + tail;
      } else {
        ScanPlain(arg[1..], 0, tail);
        assert Backslashes(0) + arg[1..] == arg[1..];
        ScanOrdinary(arg[0], arg[1..] + tail, pending, false);
        Assoc(Backslashes(pending), [arg[0]], arg[1..]);
      }
    }
  }

  lemma PlainNeedsNoQuotes(arg: string)
    ensures NeedsQuotes(arg) <==> !Plain(arg)
  {
    assert forall c :: c in arg ==> exists i :: 0 <= i < |arg| && arg[i] == c;
    assert forall i :: 0 <= i < |arg| ==> arg[i] in arg;
  }

  /** Whatever an argument contains, scanning its quoted form gives it back. */
  lemma ScanQuote(arg: string, tail: string)
    requires Delimited(tail)
    ensures ScanArg(Quote(arg) + tail, 0, false) == (arg, tail)
    ensures Quote(arg) != "" && !Blank(Quote(arg)[0])
  {
    PlainNeedsNoQuotes(arg);
    assert Backslashes(0) + arg == arg;
    if arg == "" || NeedsQuotes(arg) {
      ScanQuoted(arg, 0, tail);
      ScanOpeningQuote(QuotedBody(arg, 0), tail);
      EmptyIsQuoted();
    } else {
      ScanPlain(arg, 0, tail);
    }
  }

  lemma EmptyIsQuoted()
    ensures Quote("") == ['"'] + QuotedBody("", 0)
  {}

  lemma ScanOpeningQuote(body: string, tail: string)
    ensures ScanArg(['"'] + body + tail, 0, false) == ScanArg(body + tail, 0, true)
  {
    assert (['"'] + body + tail)[1..] == body + tail;
    var (arg, rest) := ScanArg(body + tail, 0, true);
    assert Backslashes(0) + arg == arg;
  }

  /** Everything that `join` puts behind the program name. */
  function Tail(args: seq<string>): string {
    if args == [] then "" else " " + Quote(args[0]) + Tail(args[1..])
  }

  function Spaced(parts: seq<string>): string {
    if parts == [] then "" else " " + parts[0] + Spaced(parts[1..])
  }

  lemma {:induction false} JoinIsSpaced(first: string, rest: seq<string>)
    ensures Join([first] + rest) == first + Spaced(rest)
    decreases |rest|
  {
    var all := [first] + rest;
    assert all[1..] == rest;
    if rest != [] {
      JoinIsSpaced(rest[0], rest[1..]);
      assert [rest[0]] + rest[1..] == rest;
      Assoc(first, " ", rest[0] + Spaced(rest[1..]));
      Assoc(" ", rest[0], Spaced(rest[1..]));
    }
  }

  lemma {:induction false} TailIsSpaced(args: seq<string>)
    ensures Spaced(QuoteAll(args)) == Tail(args)
  {
    if args != [] {
      TailIsSpaced(args[1..]);
      assert QuoteAll(args)[1..] == QuoteAll(args[1..]);
    }
  }

  lemma JoinIsTail(program: string, args: seq<string>)
    ensures BuildCommandLine(program, args) == Quote(program) + Tail(args)
  {
    var all := [program] + args;
    assert all[0] == program && all[1..] == args;
    JoinIsSpaced(Quote(program), QuoteAll(args));
    TailIsSpaced(args);
  }

  lemma {:induction false} ScanTail(args: seq<string>)
    ensures ScanArgs(Tail(args)) == args
    ensures Delimited(Tail(args))
  {
    if args != [] {
      ScanTail(args[1..]);
      ScanQuote(args[0], Tail(args[1..]));
      ScanOneMore(Quote(args[0]), args[0], Tail(args[1..]));
      assert args == [args[0]] + args[1..];
    }
  }

  lemma ScanOneMore(quoted: string, arg: string, rest: string)
    requires quoted != "" && !Blank(quoted[0]) && ScanArg(quoted + rest, 0, false) == (arg, rest)
    ensures ScanArgs(" " + quoted + rest) == [arg] + ScanArgs(rest)
  {
    assert (" " + quoted + rest)[1..] == quoted + rest;
  }

  // ----- the program name survives, or does not -----

  /** The program token is parsed by simpler rules, so not every name gets through them. */
  predicate ProgramSurvives(program: string) {
    '"' !in program && (NeedsQuotes(program) ==> program != "" && program[|program| - 1] != '\\')
  }

  /** The run of backslashes at the end of `s`, when `pending` come before it. */
  function TrailingRun(s: string, pending: nat): nat {
    if s == "" then pending else TrailingRun(s[1..], if s[0] == '\\' then pending + 1 else 0)
  }

  lemma {:induction false} TrailingRunZero(s: string, pending: nat)
    requires s != ""
    ensures TrailingRun(s, pending) == 0 <==> s[|s| - 1] != '\\'
  {
    if |s| > 1 { TrailingRunZero(s[1..], if s[0] == '\\' then pending + 1 else 0); }
  }

  lemma {:induction false} BodyWithoutQuotes(s: string, pending: nat)
    requires '"' !in s
    ensures QuotedBody(s, pending) == Backslashes(pending) + s + Backslashes(TrailingRun(s, pending)) + ['"']
  {
    if s == "" {
      BackslashesAppend(pending, pending);
      assert Backslashes(pending) + "" == Backslashes(pending);
    } else {
      assert s == [s[0]] + s[1..];
      if s[0] == '\\' {
        BodyWithoutQuotes(s[1..], pending + 1);
        OneMoreBackslash(pending, s[1..]);
      } else {
        BodyWithoutQuotes(s[1..], 0);
        assert Backslashes(0) + s[1..] == s[1..];
        var run := Backslashes(TrailingRun(s[1..], 0));
        Assoc(Backslashes(pending), [s[0]], s[1..]);
        Assoc(Backslashes(pending) + [s[0]], s[1..] + run, ['"']);
        Assoc(Backslashes(pending) + [s[0]], s[1..], run);
      }
    }
  }

  lemma {:induction false} ScanProgramGrouped(s: string, tail: string)
    requires '"' !in s && Delimited(tail)
    ensures ScanProgram(s + ['"'] + tail, true) == (s, tail)
  {
    if s == "" {
      assert (s + ['"'] + tail)[1..] == tail;
    } else {
      ScanProgramGrouped(s[1..], tail);
      assert (s + ['"'] + tail)[1..] == s[1..] + ['"'] + tail;
      assert s == [s[0]] + s[1..];
    }
  }

  lemma {:induction false} ScanProgramPlain(s: string, tail: string)
    requires Plain(s) && Delimited(tail)
    ensures ScanProgram(s + tail, false) == (s, tail)
  {
    if s == "" {
      assert s + tail == tail;
    } else {
      ScanProgramPlain(s[1..], tail);
      assert (s + tail)[1..] == s[1..] + tail;
      assert s == [s[0]] + s[1..];
    }
  }

  /** No quote ever ends up in a parsed program name. */
  lemma {:induction false} ScanProgramDropsQuotes(s: string, inQuotes: bool)
    ensures '"' !in ScanProgram(s, inQuotes).0
  {
    if s != "" {
      ScanProgramDropsQuotes(s[1..], inQuotes);
      ScanProgramDropsQuotes(s[1..], !inQuotes);
    }
  }

  lemma ProgramToken(program: string, tail: string)
    requires Delimited(tail)
    ensures ScanProgram(Quote(program) + tail, false).0 == program <==> ProgramSurvives(program)
    ensures ProgramSurvives(program) ==> ScanProgram(Quote(program) + tail, false).1 == tail
  {
    PlainNeedsNoQuotes(program);
    ScanProgramDropsQuotes(Quote(program) + tail, false);
    if '"' !in program {
      if program == "" || NeedsQuotes(program) {
        EmptyIsQuoted();
        QuotedProgram(program, tail);
      } else {
        ScanProgramPlain(program, tail);
      }
    }
  }

  lemma QuotedName(program: string)
    requires '"' !in program
    ensures QuotedBody(program, 0) == program + Backslashes(TrailingRun(program, 0)) + ['"']
  {
    BodyWithoutQuotes(program, 0);
    assert Backslashes(0) + program == program;
  }

  lemma ScanQuotedProgram(body: string, name: string, tail: string)
    requires Delimited(tail) && '"' !in name && body == name + ['"']
    ensures ScanProgram(['"'] + body + tail, false) == (name, tail)
  {
    ScanProgramGrouped(name, tail);
    assert (['"'] + body + tail)[1..] == name + ['"'] + tail;
  }

  lemma LongerName(program: string, run: nat)
    ensures program + Backslashes(run) == program <==> run == 0
  {
    assert |program + Backslashes(run)| == |program| + run;
  }

  /** A quoted program name comes back with its trailing backslashes doubled. */
  lemma QuotedProgram(program: string, tail: string)
    requires Delimited(tail) && '"' !in program
    ensures ScanProgram(['"'] + QuotedBody(program, 0) + tail, false) == (program + Backslashes(TrailingRun(program, 0)), tail)
    ensures program != "" ==> (TrailingRun(program, 0) == 0 <==> program[|program| - 1] != '\\')
    ensures program + Backslashes(TrailingRun(program, 0)) == program <==> TrailingRun(program, 0) == 0
  {
    QuotedName(program);
    ScanQuotedProgram(QuotedBody(program, 0), program + Backslashes(TrailingRun(program, 0)), tail);
    LongerName(program, TrailingRun(program, 0));
    if program != "" { TrailingRunZero(program, 0); }
  }

  // ----- NUL -----

  ghost predicate NulFree(args: seq<string>) {
    forall a :: a in args ==> NUL !in a
  }

  lemma {:induction false} CStringNoNul(s: string)
    ensures NUL !in CString(s)
    ensures NUL !in s ==> CString(s + [NUL]) == s
  {
    if s == "" {
      assert s + [NUL] == [NUL];
    } else {
      CStringNoNul(s[1..]);
      assert (s + [NUL])[1..] == s[1..] + [NUL];
      assert s == [s[0]] + s[1..];
    }
  }

  lemma {:induction false} QuotedBodyNoNul(arg: string, pending: nat)
    requires NUL !in arg
    ensures NUL !in QuotedBody(arg, pending)
  {
    if arg != "" {
      QuotedBodyNoNul(arg[1..], 0);
      QuotedBodyNoNul(arg[1..], pending + 1);
    }
  }

  lemma {:induction false} TailNoNul(args: seq<string>)
    requires NulFree(args)
    ensures NUL !in Tail(args)
  {
    if args != [] {
      TailNoNul(args[1..]);
      assert args[0] in args;
      QuotedBodyNoNul(args[0], 0);
    }
  }

  lemma {:induction false} ScanProgramNoNul(s: string, inQuotes: bool)
    requires NUL !in s
    ensures NUL !in ScanProgram(s, inQuotes).0 && NUL !in ScanProgram(s, inQuotes).1
  {
    if s != "" {
      ScanProgramNoNul(s[1..], inQuotes);
      ScanProgramNoNul(s[1..], !inQuotes);
    }
  }

  lemma {:induction false} ScanArgNoNul(s: string, pending: nat, inQuotes: bool)
    requires NUL !in s
    ensures NUL !in ScanArg(s, pending, inQuotes).0 && NUL !in ScanArg(s, pending, inQuotes).1
    decreases |s|
  {
    if s != "" {
      ScanArgNoNul(s[1..], pending + 1, inQuotes);
      ScanArgNoNul(s[1..], 0, inQuotes);
      ScanArgNoNul(s[1..], 0, !inQuotes);
      if |s| > 1 { ScanArgNoNul(s[2..], 0, inQuotes); }
    }
  }

  lemma {:induction false} ScanArgsNoNul(s: string)
    requires NUL !in s
    ensures NulFree(ScanArgs(s))
    decreases |s|
  {
    if s != "" {
      if Blank(s[0]) {
        ScanArgsNoNul(s[1..]);
      } else {
        ScanArgNoNul(s, 0, false);
        ScanArgsNoNul(ScanArg(s, 0, false).1);
      }
    }
  }

  lemma ParsedNoNul(line: string)
    requires NUL !in line
    ensures NulFree(ParseCommandLine(line))
  {
    ScanProgramNoNul(line, false);
    ScanArgsNoNul(ScanProgram(line, false).1);
  }

  // ----- the round trip -----

  /** What the started program sees of the NUL-terminated line it is given. */
  function Received(program: string, args: seq<string>): seq<string> {
    ParseCommandLine(CString(BuildCommandLine(program, args) + [NUL]))
  }

  /**
   The started program receives exactly the program name and arguments that were quoted if and only
   if none of them contains NUL and the program name fits the rules for the first token.
   */
  lemma CommandLineRoundTrip(program: string, args: seq<string>)
    ensures Received(program, args) == [program] + args <==> NulFree([program] + args) && ProgramSurvives(program)
  {
    var line := BuildCommandLine(program, args);
    CStringNoNul(line + [NUL]);
    ParsedNoNul(CString(line + [NUL]));
    if NulFree([program] + args) {
      LineReceived(program, args);
      ProgramToken(program, Tail(args));
      ScanTail(args);
      assert ([program] + args)[0] == program;
    }
  }

  lemma LineReceived(program: string, args: seq<string>)
    requires NulFree([program] + args)
    ensures Received(program, args) == ParseCommandLine(Quote(program) + Tail(args))
    ensures Delimited(Tail(args))
  {
    assert program in [program] + args;
    assert forall a :: a in args ==> a in [program] + args;
    JoinIsTail(program, args);
    QuotedBodyNoNul(program, 0);
    TailNoNul(args);
    ScanTail(args);
    CStringNoNul(Quote(program) + Tail(args));
  }

  /** A program directory with a space and a trailing backslash comes back changed. */
  lemma TrailingBackslashExample()
    ensures Received("a b\\", []) != ["a b\\"]
  {
    CommandLineRoundTrip("a b\\", []);
    assert ' ' in "a b\\";
    assert ["a b\\"] + [] == ["a b\\"];
  }

  // ----- what is quoted -----

  lemma {:induction false} QuotedBodyIsLonger(arg: string, pending: nat)
    ensures |QuotedBody(arg, pending)| > |arg| + pending
  {
    if arg != "" {
      if arg[0] == '\\' { QuotedBodyIsLonger(arg[1..], pending + 1); } else { QuotedBodyIsLonger(arg[1..], 0); }
    }
  }

  /** An argument is left as it is exactly if it is not empty and contains neither white space nor a quote. */
  lemma QuotedExactlyWhen(arg: string)
    ensures Quote(arg) == arg <==> arg != "" && forall c :: c in arg ==> !IsWhitespace(c) && c != '"'
  {
    QuotedBodyIsLonger(arg, 0);
  }
}
