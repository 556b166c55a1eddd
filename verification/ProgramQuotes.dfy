/**
 When the arguments survive although the program name may not: a quote in the program name can
 leave the scan for the first token inside quotes, so that arguments are swallowed or taken apart.
 */
module ProgramQuotes {
  import opened Text
  import opened CommandLine

  // ----- which program names leave the arguments alone -----

  /** No blank comes behind an odd number of quotes. */
  predicate Unbroken(s: string, odd: bool) {
    s == "" || (!(odd && Blank(s[0])) && Unbroken(s[1..], if s[0] == '"' then !odd else odd))
  }

  predicate OddQuotes(s: string, odd: bool) {
    if s == "" then odd else OddQuotes(s[1..], if s[0] == '"' then !odd else odd)
  }

  lemma {:induction false} WithoutQuotesUnbroken(s: string)
    requires '"' !in s
    ensures Unbroken(s, false) && !OddQuotes(s, false)
  {
    if s != "" { WithoutQuotesUnbroken(s[1..]); }
  }

  lemma {:induction false} ProgramBackslashes(n: nat, s: string, inQuotes: bool)
    ensures ScanProgram(Backslashes(n) + s, inQuotes).1 == ScanProgram(s, inQuotes).1
  {
    if n == 0 {
      assert Backslashes(0) + s == s;
    } else {
      ProgramBackslashes(n - 1, s, inQuotes);
      assert (Backslashes(n) + s)[1..] == Backslashes(n - 1) + s;
    }
  }

  lemma ProgramChar(n: nat, c: char, s: string, tail: string, inQuotes: bool)
    ensures ScanProgram(Backslashes(n) + [c] + s + tail, inQuotes).1
         == if c == '"' then ScanProgram(s + tail, !inQuotes).1
            else if Blank(c) && !inQuotes then [c] + s + tail
            else ScanProgram(s + tail, inQuotes).1
  {
    Assoc(Backslashes(n) + [c], s, tail);
    Assoc(Backslashes(n), [c], s + tail);
    ProgramBackslashes(n, [c] + (s + tail), inQuotes);
    assert ([c] + (s + tail))[1..] == s + tail;
    Assoc([c], s, tail);
  }

  /** The scan for the program name gets through a quoted text exactly if that is unbroken. */
  lemma {:induction false} ProgramBody(s: string, pending: nat, tail: string, odd: bool)
    ensures var rest := ScanProgram(QuotedBody(s, pending) + tail, !odd).1;
            if Unbroken(s, odd) then rest == ScanProgram(tail, OddQuotes(s, odd)).1
            else exists v :: BlankSuffix(v, s) && rest == QuotedBody(v, 0) + tail
  {
    if s == "" {
      ProgramChar(2 * pending, '"', "", tail, !odd);
      assert Backslashes(2 * pending) + ['"'] + "" == Backslashes(2 * pending) + ['"'];
      assert "" + tail == tail;
    } else if s[0] == '\\' {
      ProgramBody(s[1..], pending + 1, tail, odd);
      SuffixOfRest(s);
    } else if s[0] == '"' {
      ProgramBody(s[1..], 0, tail, !odd);
      SuffixOfRest(s);
      ProgramChar(2 * pending + 1, '"', QuotedBody(s[1..], 0), tail, !odd);
    } else {
      ProgramBody(s[1..], 0, tail, odd);
      SuffixOfRest(s);
      ProgramChar(pending, s[0], QuotedBody(s[1..], 0), tail, !odd);
      if odd && Blank(s[0]) {
        assert Backslashes(0) + [s[0]] == [s[0]];
        assert s[0..] == s;
        assert BlankSuffix(s, s);
      }
    }
  }

  /** `v` is the rest of `s` from some blank on. */
  ghost predicate BlankSuffix(v: string, s: string) {
    v != "" && Blank(v[0]) && |v| <= |s| && s[|s| - |v|..] == v
  }

  lemma SuffixOfRest(s: string)
    requires s != ""
    ensures forall v :: BlankSuffix(v, s[1..]) ==> BlankSuffix(v, s)
  {
    forall v | BlankSuffix(v, s[1..]) ensures BlankSuffix(v, s) {
      assert s[1..][|s| - 1 - |v|..] == s[|s| - |v|..];
    }
  }

  // ----- counting -----

  function Blanks(s: string): nat {
    if s == "" then 0 else (if Blank(s[0]) then 1 else 0) + Blanks(s[1..])
  }

  function Solids(s: string): nat {
    if s == "" then 0 else (if Blank(s[0]) then 0 else 1) + Solids(s[1..])
  }

  function AllBlanks(args: seq<string>): nat {
    if args == [] then 0 else Blanks(args[0]) + AllBlanks(args[1..])
  }

  function AllSolids(args: seq<string>): nat {
    if args == [] then 0 else Solids(args[0]) + AllSolids(args[1..])
  }

  lemma {:induction false} CountAppend(a: string, b: string)
    ensures Blanks(a + b) == Blanks(a) + Blanks(b) && Solids(a + b) == Solids(a) + Solids(b)
  {
    if a == "" {
      assert a + b == b;
    } else {
      assert (a + b)[1..] == a[1..] + b;
      CountAppend(a[1..], b);
    }
  }

  lemma {:induction false} CountBackslashes(n: nat)
    ensures Blanks(Backslashes(n)) == 0 && Solids(Backslashes(n)) == n
  {
    if n > 0 { CountBackslashes(n - 1); }
  }

  /** A run of backslashes, one more character, and the rest of a token. */
  lemma CountRun(n: nat, c: char, tok: string)
    ensures Blanks(Backslashes(n) + [c] + tok) == (if Blank(c) then 1 else 0) + Blanks(tok)
    ensures Solids(Backslashes(n) + [c] + tok) == n + (if Blank(c) then 0 else 1) + Solids(tok)
    ensures Blanks(Backslashes(n) + tok) == Blanks(tok) && Solids(Backslashes(n) + tok) == n + Solids(tok)
  {
    CountBackslashes(n);
    CountAppend(Backslashes(n) + [c], tok);
    CountAppend(Backslashes(n), [c]);
    CountAppend(Backslashes(n), tok);
  }

  lemma {:induction false} PlainIsSolid(s: string)
    requires Plain(s)
    ensures Blanks(s) == 0
  {
    if s != "" { PlainIsSolid(s[1..]); }
  }

  lemma {:induction false} BlanksOfPart(args: seq<string>, k: nat, v: string)
    requires 0 < k <= |args| && BlankSuffix(v, args[k - 1])
    ensures Blanks(v) + AllBlanks(args[k..]) <= AllBlanks(args)
  {
    if k == 1 {
      var x := args[0];
      CountAppend(x[..|x| - |v|], v);
      assert x == x[..|x| - |v|] + v;
    } else {
      BlanksOfPart(args[1..], k - 1, v);
      assert args[1..][k - 1..] == args[k..];
    }
  }

  // ----- scanning with inside and outside exchanged -----

  /** What is left of the line when a token ends: nothing, or a quoted text from some blank on. */
  datatype Left = Nothing | Part(v: string, more: seq<string>)

  ghost predicate Proper(r: Left) { r.Part? ==> r.v != "" && Blank(r.v[0]) }

  function Line(r: Left): string {
    match r
    case Nothing => ""
    case Part(v, more) => QuotedBody(v, 0) + Tail(more)
  }

  function BlanksLeft(r: Left): nat { if r.Nothing? then 0 else Blanks(r.v) + AllBlanks(r.more) }

  function SolidsLeft(r: Left): nat { if r.Nothing? then 0 else Solids(r.v) + AllSolids(r.more) }

  function CountLeft(r: Left): nat { if r.Nothing? then 0 else |r.more| }

  /** Every separator becomes part of the token, everything solid stays, and no blank is added. */
  ghost predicate Exchanged(blanks: nat, solids: nat, count: nat, tok: string, r: Left) {
    && Proper(r) && Blanks(tok) + CountLeft(r) == count
    && Solids(tok) + SolidsLeft(r) >= solids && BlanksLeft(r) <= blanks
  }

  lemma {:induction false} BodyStart(x: string, pending: nat)
    ensures QuotedBody(x, pending) != "" && (x != "" ==> QuotedBody(x, pending)[0] != '"')
    ensures (x == "" || pending > 0 || !Blank(x[0])) ==> !Blank(QuotedBody(x, pending)[0])
  {
    if x != "" { BodyStart(x[1..], pending + 1); }
  }

  lemma ClosingOpens(n: nat, tail: string)
    ensures var (tok, rest) := ScanArg(tail, 0, true);
            ScanArg(Backslashes(2 * n) + ['"'] + tail, 0, false) == (Backslashes(n) + tok, rest)
  {
    Assoc(Backslashes(2 * n), ['"'], tail);
    ScanBackslashes(2 * n, ['"'] + tail, 0, false);
    assert (['"'] + tail)[1..] == tail;
  }

  lemma EscapedGoesOn(n: nat, body: string, tail: string)
    ensures var (tok, rest) := ScanArg(body + tail, 0, false);
            ScanArg(Backslashes(2 * n + 1) + ['"'] + body + tail, 0, false) == (Backslashes(n) + ['"'] + tok, rest)
  {
    Assoc(Backslashes(2 * n + 1) + ['"'], body, tail);
    Assoc(Backslashes(2 * n + 1), ['"'], body + tail);
    ScanEscapedQuote(body + tail, n, false);
  }

  lemma BlankStops(n: nat, c: char, body: string, tail: string)
    requires Blank(c)
    ensures ScanArg(Backslashes(n) + [c] + body + tail, 0, false) == (Backslashes(n), [c] + body + tail)
  {
    Assoc(Backslashes(n) + [c], body, tail);
    Assoc(Backslashes(n), [c], body + tail);
    ScanBackslashes(n, [c] + (body + tail), 0, false);
    Assoc([c], body, tail);
  }

  lemma OrdinaryGoesOn(n: nat, c: char, body: string, tail: string)
    requires c != '\\' && c != '"' && !Blank(c)
    ensures var (tok, rest) := ScanArg(body + tail, 0, false);
            ScanArg(Backslashes(n) + [c] + body + tail, 0, false) == (Backslashes(n) + [c] + tok, rest)
  {
    Assoc(Backslashes(n) + [c], body, tail);
    Assoc(Backslashes(n), [c], body + tail);
    ScanBackslashes(n, [c] + (body + tail), 0, false);
    ScanOrdinary(c, body + tail, n, false);
  }

  /** A longer token keeps the balance. */
  lemma ExchangedMore(n: nat, c: char, blanks: nat, solids: nat, count: nat, tok: string, r: Left)
    requires Exchanged(blanks, solids, count, tok, r)
    ensures Exchanged(blanks, n + solids, count, Backslashes(n) + tok, r)
    ensures Exchanged(blanks, n + solids + (if Blank(c) then 0 else 1), count + (if Blank(c) then 1 else 0),
                      Backslashes(n) + [c] + tok, r)
  {
    CountRun(n, c, tok);
  }

  /** Outside of quotes while the text is quoted. */
  lemma {:induction false} ScanContent(v: string, pending: nat, more: seq<string>) returns (tok: string, r: Left)
    ensures ScanArg(QuotedBody(v, pending) + Tail(more), 0, false) == (tok, Line(r))
    ensures Exchanged(Blanks(v) + AllBlanks(more), pending + Solids(v) + AllSolids(more), |more|, tok, r)
    ensures r.Part? ==> |r.more| < |more| || (|r.more| == |more| && |r.v| <= |v|)
    decreases |more|, 1, |v|
  {
    var tail := Tail(more);
    var inner;
    if v == "" {
      inner, r := ScanSeparators(more);
      ClosingOpens(pending, tail);
      ExchangedMore(pending, '"', AllBlanks(more), AllSolids(more), |more|, inner, r);
      tok := Backslashes(pending) + inner;
    } else if v[0] == '\\' {
      tok, r := ScanContent(v[1..], pending + 1, more);
    } else if Blank(v[0]) {
      tok, r := Backslashes(pending), Part(v, more);
      StopsAtBlank(v, pending, more);
    } else {
      inner, r := ScanContent(v[1..], 0, more);
      ExchangedMore(pending, v[0], Blanks(v[1..]) + AllBlanks(more), Solids(v[1..]) + AllSolids(more), |more|, inner, r);
      tok := Backslashes(pending) + [v[0]] + inner;
      if v[0] == '"' {
        EscapedGoesOn(pending, QuotedBody(v[1..], 0), tail);
      } else {
        OrdinaryGoesOn(pending, v[0], QuotedBody(v[1..], 0), tail);
      }
    }
  }

  lemma StopsAtBlank(v: string, pending: nat, more: seq<string>)
    requires v != "" && Blank(v[0])
    ensures ScanArg(QuotedBody(v, pending) + Tail(more), 0, false) == (Backslashes(pending), Line(Part(v, more)))
    ensures Exchanged(Blanks(v) + AllBlanks(more), pending + Solids(v) + AllSolids(more), |more|,
                      Backslashes(pending), Part(v, more))
  {
    BodyAtBlank(v, 0);
    BodyAtBlank(v, pending);
    assert Backslashes(0) + [v[0]] == [v[0]];
    BlankStops(pending, v[0], QuotedBody(v[1..], 0), Tail(more));
    CountBackslashes(pending);
  }

  lemma BodyAtBlank(v: string, pending: nat)
    requires v != "" && Blank(v[0])
    ensures QuotedBody(v, pending) == Backslashes(pending) + [v[0]] + QuotedBody(v[1..], 0)
  {}

  lemma {:induction false} ScanPlainInside(arg: string, pending: nat, tail: string)
    requires Plain(arg) && Delimited(tail)
    ensures var (tok, rest) := ScanArg(tail, 0, true);
            ScanArg(arg + tail, pending, true) == (Backslashes(pending) + arg + tok, rest)
  {
    var (tok, rest) := ScanArg(tail, 0, true);
    if arg == "" {
      assert arg + tail == tail;
      assert Backslashes(pending) + arg == Backslashes(pending);
      if tail != "" {
        assert tail == [' '] + tail[1..];
        ScanOrdinary(' ', tail[1..], pending, true);
        ScanOrdinary(' ', tail[1..], 0, true);
        var (more, _) := ScanArg(tail[1..], 0, true);
        assert Backslashes(0) + [' '] + more == [' '] + more;
        Assoc(Backslashes(pending), [' '], more);
      } else {
        assert Backslashes(pending) + "" == Backslashes(pending);
      }
    } else {
      assert arg == [arg[0]] + arg[1..];
      Assoc([arg[0]], arg[1..], tail);
      if arg[0] == '\\' {
        ScanPlainInside(arg[1..], pending + 1, tail);
        OneMoreBackslash(pending, arg[1..]);
        assert (arg + tail)[1..] == arg[1..] + tail;
      } else {
        ScanPlainInside(arg[1..], 0, tail);
        assert Backslashes(0) + arg[1..] == arg[1..];
        ScanOrdinary(arg[0], arg[1..] + tail, pending, true);
        Assoc(Backslashes(pending), [arg[0]], arg[1..]);
        Assoc(Backslashes(pending) + [arg[0]], arg[1..], tok);
      }
    }
  }

  lemma SeparatorGoesOn(quoted: string, tail: string)
    ensures var (tok, rest) := ScanArg(quoted + tail, 0, true);
            ScanArg(" " + quoted + tail, 0, true) == (Backslashes(0) + [' '] + tok, rest)
  {
    Assoc(" ", quoted, tail);
    ScanOrdinary(' ', quoted + tail, 0, true);
  }

  /** Inside quotes while the separators are meant to be outside. */
  lemma {:induction false} ScanSeparators(more: seq<string>) returns (tok: string, r: Left)
    ensures ScanArg(Tail(more), 0, true) == (tok, Line(r))
    ensures Exchanged(AllBlanks(more), AllSolids(more), |more|, tok, r)
    ensures r.Part? ==> |r.more| < |more|
    decreases |more|, 0, 0
  {
    if more == [] {
      tok, r := "", Nothing;
    } else {
      var inner;
      inner, r := ScanQuotedInside(more[0], more[1..]);
      SeparatorGoesOn(Quote(more[0]), Tail(more[1..]));
      ExchangedMore(0, ' ', AllBlanks(more), AllSolids(more), |more| - 1, inner, r);
      tok := Backslashes(0) + [' '] + inner;
    }
  }

  /** An empty argument behind open quotes: the doubled quote is literal. */
  lemma EmptyGoesOn(tail: string)
    ensures var (tok, rest) := ScanArg(tail, 0, true);
            ScanArg(Quote("") + tail, 0, true) == (Backslashes(0) + ['"'] + tok, rest)
  {
    assert (Quote("") + tail)[2..] == tail;
  }

  lemma PlainGoesOn(x: string, tail: string)
    requires Plain(x) && Delimited(tail)
    ensures var (tok, rest) := ScanArg(tail, 0, true);
            ScanArg(x + tail, 0, true) == (x + tok, rest)
  {
    ScanPlainInside(x, 0, tail);
    assert Backslashes(0) + x == x;
  }

  /** One argument behind its separator. */
  lemma {:induction false} ScanQuotedInside(x: string, more: seq<string>) returns (tok: string, r: Left)
    ensures ScanArg(Quote(x) + Tail(more), 0, true) == (tok, Line(r))
    ensures Exchanged(Blanks(x) + AllBlanks(more), Solids(x) + AllSolids(more), |more|, tok, r)
    ensures r.Part? ==> |r.more| <= |more|
    decreases |more|, 2, 0
  {
    PlainNeedsNoQuotes(x);
    if x != "" && NeedsQuotes(x) {
      tok, r := ScanContent(x, 0, more);
      OpensContent(QuotedBody(x, 0), Tail(more), x);
    } else {
      var inner;
      inner, r := ScanSeparators(more);
      if x == "" {
        EmptyGoesOn(Tail(more));
        ExchangedMore(0, '"', AllBlanks(more), AllSolids(more), |more|, inner, r);
        tok := Backslashes(0) + ['"'] + inner;
      } else {
        TailDelimited(more);
        PlainGoesOn(x, Tail(more));
        tok := x + inner;
        CountAppend(x, inner);
        PlainIsSolid(x);
      }
    }
  }

  lemma TailDelimited(more: seq<string>)
    ensures Delimited(Tail(more))
  {}

  /** Where quotes are open, the opening quote of a text closes them. */
  lemma OpensContent(body: string, tail: string, x: string)
    requires x != "" && body == QuotedBody(x, 0)
    ensures ScanArg(['"'] + body + tail, 0, true) == ScanArg(body + tail, 0, false)
  {
    BodyStart(x, 0);
    var line := ['"'] + body + tail;
    assert line[1..] == body + tail && line[1] == body[0];
    var (arg, rest) := ScanArg(body + tail, 0, false);
    assert Backslashes(0) + arg == arg;
  }

  /** The tokens of a line that is scanned the wrong way round. */
  lemma {:induction false} ExchangedTokens(v: string, more: seq<string>)
    requires v != "" && Blank(v[0])
    ensures var toks := ScanArgs(QuotedBody(v, 0) + Tail(more));
            && |toks| <= Blanks(v) + AllBlanks(more) && AllBlanks(toks) == |more|
            && AllSolids(toks) >= Solids(v) + AllSolids(more)
    decreases |more|, |v|
  {
    var w := v[1..];
    var line := QuotedBody(w, 0) + Tail(more);
    SkipBlank(v, more);
    if w != "" && Blank(w[0]) {
      ExchangedTokens(w, more);
    } else {
      BodyStart(w, 0);
      assert line[0] == QuotedBody(w, 0)[0];
      var tok, r := ScanContent(w, 0, more);
      if r.Part? { ExchangedTokens(r.v, r.more); }
      assert ([tok] + ScanArgs(Line(r)))[1..] == ScanArgs(Line(r));
    }
  }

  lemma SkipBlank(v: string, more: seq<string>)
    requires v != "" && Blank(v[0])
    ensures ScanArgs(QuotedBody(v, 0) + Tail(more)) == ScanArgs(QuotedBody(v[1..], 0) + Tail(more))
  {
    assert Backslashes(0) + [v[0]] == [v[0]];
    BlankIsSkipped(v[0], QuotedBody(v[1..], 0), Tail(more));
  }

  lemma BlankIsSkipped(c: char, body: string, tail: string)
    requires Blank(c)
    ensures ScanArgs([c] + body + tail) == ScanArgs(body + tail)
  {
    assert ([c] + body + tail)[1..] == body + tail;
  }

  // ----- the arguments are lost -----

  /** No list of arguments is what a line gives that opens quotes in front of it. */
  lemma {:induction false} NeverItself(args: seq<string>)
    ensures ScanArgs(['"'] + Tail(args)) != args
  {
    assert (['"'] + Tail(args))[1..] == Tail(args);
    assert QuotedBody("", 0) == ['"'] by { assert Backslashes(0) + ['"'] == ['"']; }
    var tok, r := ScanContent("", 0, args);
    assert ScanArgs(['"'] + Tail(args)) == [tok] + ScanArgs(Line(r));
    if args != [] && [tok] + ScanArgs(Line(r)) == args {
      FirstToken(args, tok, r);
      NeverItself(args[1..]);
    }
  }

  /** The first argument would have to begin with the separator in front of it. */
  lemma FirstToken(args: seq<string>, tok: string, r: Left)
    requires args != [] && args[0] == tok
    requires ScanArg(['"'] + Tail(args), 0, false) == (tok, Line(r))
    ensures ScanArgs(Line(r)) == ScanArgs(['"'] + Tail(args[1..]))
  {
    var x, tail := args[0], Tail(args[1..]);
    assert (['"'] + Tail(args))[1..] == Tail(args);
    Assoc(" ", Quote(x), tail);
    ScanOrdinary(' ', Quote(x) + tail, 0, true);
    assert x[0] == ' ';
    assert ' ' in x;
    OpensContent(QuotedBody(x, 0), tail, x);
    var body := QuotedBody(x[1..], 0);
    assert Backslashes(0) + [x[0]] == [x[0]];
    Assoc([' '], body, tail);
    assert ScanArg([' '] + (body + tail), 0, false) == ("", [' '] + (body + tail));
    assert x == " ";
    assert body == ['"'] by { assert Backslashes(0) + ['"'] == ['"']; }
    assert ([' '] + (body + tail))[1..] == body + tail;
  }

  lemma {:induction false} BlankBody(v: string, more: seq<string>)
    requires Solids(v) == 0
    ensures ScanArgs(QuotedBody(v, 0) + Tail(more)) == ScanArgs(['"'] + Tail(more))
  {
    if v == "" {
      assert Backslashes(0) + ['"'] == ['"'];
    } else {
      SkipBlank(v, more);
      BlankBody(v[1..], more);
    }
  }

  /** A program name that ends at a blank of its own leaves part of itself to the arguments. */
  lemma BrokenName(v: string, args: seq<string>)
    requires v != "" && Blank(v[0])
    ensures ScanArgs(QuotedBody(v, 0) + Tail(args)) != args
  {
    ExchangedTokens(v, args);
    if Solids(v) == 0 {
      BlankBody(v, args);
      NeverItself(args);
    }
  }

  /** Where a program name ends whose quotes are still open at its end. */
  lemma {:induction false} OpenName(args: seq<string>) returns (k: nat, v: string)
    ensures k <= |args| && (args != [] ==> k > 0)
    ensures var rest := ScanProgram(Tail(args), true).1;
            || (v == "" && rest == Tail(args[k..]))
            || (k > 0 && BlankSuffix(v, args[k - 1]) && rest == QuotedBody(v, 0) + Tail(args[k..]))
  {
    if args == [] {
      return 0, "";
    }
    var x, more := args[0], args[1..];
    ProgramSeparator(Quote(x), Tail(more));
    PlainNeedsNoQuotes(x);
    if x == "" || NeedsQuotes(x) {
      EmptyIsQuoted();
      ProgramOpening(QuotedBody(x, 0), Tail(more), true);
      ProgramBody(x, 0, Tail(more), true);
      if !Unbroken(x, true) {
        v :| BlankSuffix(v, x) && ScanProgram(QuotedBody(x, 0) + Tail(more), false).1 == QuotedBody(v, 0) + Tail(more);
        return 1, v;
      } else if !OddQuotes(x, true) {
        TailDelimited(more);
        return 1, "";
      }
    } else {
      ProgramInside(x, Tail(more));
    }
    k, v := OpenName(more);
    assert more[k..] == args[k + 1..];
    k := k + 1;
  }

  lemma ProgramSeparator(quoted: string, tail: string)
    ensures ScanProgram(" " + quoted + tail, true).1 == ScanProgram(quoted + tail, true).1
  {
    assert (" " + quoted + tail)[1..] == quoted + tail;
  }

  lemma ProgramOpening(body: string, tail: string, inQuotes: bool)
    ensures ScanProgram(['"'] + body + tail, inQuotes).1 == ScanProgram(body + tail, !inQuotes).1
  {
    assert (['"'] + body + tail)[1..] == body + tail;
  }

  lemma {:induction false} ProgramInside(x: string, tail: string)
    requires Plain(x)
    ensures ScanProgram(x + tail, true).1 == ScanProgram(tail, true).1
  {
    if x == "" {
      assert x + tail == tail;
    } else {
      assert (x + tail)[1..] == x[1..] + tail;
      ProgramInside(x[1..], tail);
    }
  }

  lemma SwallowedArgs(args: seq<string>)
    requires args != []
    ensures ScanArgs(ScanProgram(Tail(args), true).1) != args
  {
    var k, v := OpenName(args);
    if v == "" {
      ScanTail(args[k..]);
    } else {
      ExchangedTokens(v, args[k..]);
      BlanksOfPart(args, k, v);
    }
  }

  // ----- the exact condition -----

  /** Everything behind the program name. */
  lemma RestOfLine(program: string, tail: string)
    requires Delimited(tail)
    ensures var rest := ScanProgram(Quote(program) + tail, false).1;
            if Unbroken(program, false) then rest == (if OddQuotes(program, false) then ScanProgram(tail, true).1 else tail)
            else exists v :: BlankSuffix(v, program) && rest == QuotedBody(v, 0) + tail
  {
    PlainNeedsNoQuotes(program);
    if program == "" || NeedsQuotes(program) {
      EmptyIsQuoted();
      ProgramOpening(QuotedBody(program, 0), tail, false);
      ProgramBody(program, 0, tail, false);
    } else {
      ScanProgramPlain(program, tail);
      WithoutQuotesUnbroken(program);
    }
  }

  /**
   The arguments are received as they were given if and only if no blank comes behind an odd number
   of quotes in the program name and, where there are arguments, the number of quotes is even.
   */
  lemma ArgumentsSurviveExactly(program: string, args: seq<string>)
    requires NulFree([program] + args)
    ensures Received(program, args)[1..] == args <==>
              Unbroken(program, false) && (args == [] || !OddQuotes(program, false))
  {
    LineReceived(program, args);
    RestOfLine(program, Tail(args));
    var rest := ScanProgram(Quote(program) + Tail(args), false).1;
    assert Received(program, args)[1..] == ScanArgs(rest);
    if !Unbroken(program, false) {
      var v :| BlankSuffix(v, program) && rest == QuotedBody(v, 0) + Tail(args);
      BrokenName(v, args);
    } else if !OddQuotes(program, false) {
      ScanTail(args);
    } else if args != [] {
      SwallowedArgs(args);
    }
  }

  /** A program name without quotes always leaves the arguments alone. */
  lemma ArgumentsSurvive(program: string, args: seq<string>)
    requires '"' !in program && NulFree([program] + args)
    ensures Received(program, args)[1..] == args
  {
    WithoutQuotesUnbroken(program);
    ArgumentsSurviveExactly(program, args);
  }

  /** One quote in the program name swallows an argument. */
  lemma SwallowedExample()
    ensures Received("a\"b", ["c"]) == ["a\\b c"]
  {
    assert NulFree(["a\"b"] + ["c"]);
    LineReceived("a\"b", ["c"]);
    assert Quote("a\"b") == "\"a\\\"b\"" by { assert '"' in "a\"b"; BodyOfExample(); }
    assert Quote("c") == "c" by { PlainNeedsNoQuotes("c"); }
    assert Quote("a\"b") + Tail(["c"]) == "\"a\\\"b\" c";
    ScanOfExample();
  }

  lemma BodyOfExample()
    ensures QuotedBody("a\"b", 0) == "a\\\"b\""
  {
    assert "a\"b"[1..] == "\"b" && "\"b"[1..] == "b" && "b"[1..] == "";
    assert Backslashes(1) == "\\" && Backslashes(0) == "";
    assert QuotedBody("b", 0) == "b\"";
    assert QuotedBody("\"b", 0) == "\\\"b\"";
  }

  lemma NameChar(c: char, rest: string, inQuotes: bool)
    requires c != '"' && (inQuotes || !Blank(c))
    ensures var (name, left) := ScanProgram(rest, inQuotes);
            ScanProgram([c] + rest, inQuotes) == ([c] + name, left)
  {
    assert ([c] + rest)[1..] == rest;
  }

  lemma NameQuote(rest: string, inQuotes: bool)
    ensures ScanProgram("\"" + rest, inQuotes) == ScanProgram(rest, !inQuotes)
  {
    assert ("\"" + rest)[1..] == rest;
  }

  lemma ScanOfTail()
    ensures ScanProgram("\" c", false) == (" c", "")
  {
    NameChar('c', "", true);
    NameChar(' ', "c", true);
    NameQuote(" c", false);
    assert ['c'] + "" == "c" && [' '] + "c" == " c" && "\"" + " c" == "\" c";
  }

  lemma ScanOfMiddle()
    ensures ScanProgram("\\\"b\" c", true) == ("\\b c", "")
  {
    ScanOfTail();
    NameChar('b', "\" c", false);
    NameQuote("b\" c", true);
    NameChar('\\', "\"b\" c", true);
    assert ['b'] + "\" c" == "b\" c" && "\"" + "b\" c" == "\"b\" c" && ['\\'] + "\"b\" c" == "\\\"b\" c";
    assert ['b'] + " c" == "b c" && ['\\'] + "b c" == "\\b c";
  }

  lemma ScanOfExample()
    ensures ScanProgram("\"a\\\"b\" c", false) == ("a\\b c", "")
  {
    ScanOfMiddle();
    NameChar('a', "\\\"b\" c", true);
    NameQuote("a\\\"b\" c", false);
    assert ['a'] + "\\\"b\" c" == "a\\\"b\" c" && "\"" + "a\\\"b\" c" == "\"a\\\"b\" c";
    assert ['a'] + "\\b c" == "a\\b c";
  }
}
