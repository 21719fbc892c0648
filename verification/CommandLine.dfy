/** The command-line printer of `WorrywartCommand`, and the rules by which Microsoft's
    C runtime takes a command line apart again. */
module CommandLine {
  import opened Counting

  predicate IsBlank(c: char) {
    c == ' ' || c == '\t'
  }

  predicate NeedsQuote(arg: string) {
    arg == "" || ' ' in arg || '"' in arg || '\t' in arg
  }

  function Slashes(n: nat): (s: string)
    ensures |s| == n && forall i :: 0 <= i < n ==> s[i] == '\\'
  {
    seq(n, _ => '\\')
  }

  /** The length of the run of backslashes at the start of `s`. */
  function LeadingSlashes(s: string): (n: nat)
    ensures n <= |s| && s[..n] == Slashes(n)
    ensures n < |s| ==> s[n] != '\\'
  {
    if s == "" || s[0] != '\\' then 0 else
      var n := 1 + LeadingSlashes(s[1..]);
      assert s[..n] == [s[0]] + s[1..][..n - 1];
      n
  }

  // ------------------------------------------------------------------ printing

  /** A run of n backslashes and the character that ends it: before a quote mark the run
      doubles and gains one more, before anything else it is left alone. */
  function PrintedRun(n: nat, c: char): string {
    if c == '"' then Slashes(2 * n + 1) + "\"" else Slashes(n) + [c]
  }

  /** What goes between the quotes, stated run by run; a run at the very end doubles. */
  function Escaped(s: string): string
    decreases |s|
  {
    var n := LeadingSlashes(s);
    if n == |s| then Slashes(2 * n) else PrintedRun(n, s[n]) + Escaped(s[n + 1..])
  }

  function Quoted(arg: string): string {
    if NeedsQuote(arg) then "\"" + Escaped(arg) + "\"" else arg
  }

  function Tail(args: seq<string>): string {
    if args == [] then "" else " " + Quoted(args[0]) + Tail(args[1..])
  }

  function Line(program: string, args: seq<string>): string {
    Quoted(program) + Tail(args)
  }

  /** The same text computed one character at a time, with `run` backslashes still pending. */
  function EscapedFrom(run: nat, s: string): string
    decreases |s|
  {
    if s == "" then Slashes(2 * run)
    else if s[0] == '\\' then EscapedFrom(run + 1, s[1..])
    else PrintedRun(run, s[0]) + EscapedFrom(0, s[1..])
  }

  lemma {:induction false} EscapedFromRun(n: nat, run: nat, t: string)
    ensures EscapedFrom(run, Slashes(n) + t) == EscapedFrom(run + n, t)
  {
    if n == 0 {
      assert Slashes(0) + t == t;
    } else {
      assert (Slashes(n) + t)[1..] == Slashes(n - 1) + t;
      EscapedFromRun(n - 1, run + 1, t);
    }
  }

  lemma {:induction false} EscapedInOnePass(s: string)
    ensures EscapedFrom(0, s) == Escaped(s)
    decreases |s|
  {
    var n := LeadingSlashes(s);
    assert s == Slashes(n) + s[n..];
    EscapedFromRun(n, 0, s[n..]);
    if n < |s| {
      assert s[n..][1..] == s[n + 1..];
      EscapedInOnePass(s[n + 1..]);
    }
  }

  method PushSlashes(out: string, n: nat) returns (longer: string)
    ensures longer == out + Slashes(n)
  {
    longer := out;
    for i := 0 to n
      invariant longer == out + Slashes(i)
    {
      longer := longer + "\\";
      assert Slashes(i + 1) == Slashes(i) + "\\";
    }
  }

  /** The arms of the character match that settle a pending run. */
  method PushRun(out: string, run: nat, c: char) returns (longer: string)
    ensures longer == out + PrintedRun(run, c)
  {
    if c == '"' {
      longer := PushSlashes(out, 2 * run);
      longer := longer + "\\\"";
      assert Slashes(2 * run + 1) == Slashes(2 * run) + "\\";
    } else {
      longer := PushSlashes(out, run);
      longer := longer + [c];
    }
  }

  /** The loop of `quote_arg`: one pass with a counter of backslashes whose fate is not yet
      known; a run still pending at the end doubles because a quote mark follows. */
  method PushEscaped(start: string, arg: string) returns (out: string)
    ensures out == start + EscapedFrom(0, arg)
  {
    out := start;
    var backslashes := 0;
    assert arg[0..] == arg;
    for i := 0 to |arg|
      invariant out + EscapedFrom(backslashes, arg[i..]) == start + EscapedFrom(0, arg)
    {
      assert arg[i..][1..] == arg[i + 1..];
      if arg[i] == '\\' {
        backslashes := backslashes + 1;
      } else {
        out := PushRun(out, backslashes, arg[i]);
        backslashes := 0;
      }
    }
    out := PushSlashes(out, 2 * backslashes);
  }

  /** `quote_arg`, its out-buffer going in as `prefix` and coming back as `out`. */
  method QuoteArg(prefix: string, arg: string) returns (out: string)
    ensures out == prefix + Quoted(arg)
  {
    if !NeedsQuote(arg) {
      out := prefix + arg;
    } else {
      EscapedInOnePass(arg);
      var body := PushEscaped(prefix + "\"", arg);
      out := body + "\"";
      assert out == prefix + ("\"" + Escaped(arg) + "\"");
    }
  }

  lemma {:induction false} TailStep(args: seq<string>, i: nat)
    requires i < |args|
    ensures Tail(args[i..]) == " " + Quoted(args[i]) + Tail(args[i + 1..])
  {
    assert args[i..][1..] == args[i + 1..];
  }

  lemma {:induction false} Regroup(a: string, b: string, c: string, d: string)
    ensures a + (b + c + d) == a + b + c + d
  {}

  /** The loop of `build_command_line`. */
  method PushArgs(start: string, args: seq<string>) returns (line: string)
    ensures line == start + Tail(args)
  {
    line := start;
    assert args[0..] == args;
    for i := 0 to |args|
      invariant line + Tail(args[i..]) == start + Tail(args)
    {
      TailStep(args, i);
      Regroup(line, " ", Quoted(args[i]), Tail(args[i + 1..]));
      line := QuoteArg(line + " ", args[i]);
    }
  }

  /** `build_command_line`, NUL terminator included. */
  method BuildCommandLine(program: string, args: seq<string>) returns (line: string)
    ensures line == Line(program, args) + "\0"
  {
    var name := QuoteArg("", program);
    assert "" + Quoted(program) == Quoted(program);
    line := PushArgs(name, args);
    line := line + "\0";
  }

  /** Quoting never more than doubles an argument and adds the two quote marks. */
  lemma {:induction false} EscapedLength(s: string)
    ensures |s| <= |Escaped(s)| <= 2 * |s|
    decreases |s|
  {
    var n := LeadingSlashes(s);
    if n < |s| {
      EscapedLength(s[n + 1..]);
    }
  }

  lemma {:induction false} QuotedLength(arg: string)
    ensures |arg| <= |Quoted(arg)| <= 2 * |arg| + 2
  {
    EscapedLength(arg);
  }

  /** An argument is printed as it stands exactly if it has something in it and no space, tab or
      quote mark. */
  lemma {:induction false} VerbatimExactly(arg: string)
    ensures Quoted(arg) == arg <==>
      |arg| > 0 && forall i :: 0 <= i < |arg| ==> arg[i] != ' ' && arg[i] != '\t' && arg[i] != '"'
  {
    EscapedLength(arg);
    if NeedsQuote(arg) {
      assert |Quoted(arg)| > |arg|;
    }
  }

  /** One more argument goes to the end of the line, after one space. */
  lemma {:induction false} LineLayout(program: string, args: seq<string>, arg: string)
    ensures Line(program, []) == Quoted(program)
    ensures Line(program, args + [arg]) == Line(program, args) + " " + Quoted(arg)
  {
    TailLayout(args, arg);
    assert Quoted(program) + (Tail(args) + " " + Quoted(arg)) == Quoted(program) + Tail(args) + " " + Quoted(arg);
    assert Quoted(program) + "" == Quoted(program);
  }

  lemma {:induction false} TailLayout(args: seq<string>, arg: string)
    ensures Tail(args + [arg]) == Tail(args) + " " + Quoted(arg)
  {
    if args == [] {
      assert args + [arg] == [arg] && [arg][1..] == [];
      assert " " + Quoted(arg) + "" == "" + " " + Quoted(arg);
    } else {
      assert (args + [arg])[1..] == args[1..] + [arg];
      TailLayout(args[1..], arg);
      Regroup(" " + Quoted(args[0]), Tail(args[1..]), " ", Quoted(arg));
    }
  }

  // ------------------------------------------------------------------- parsing

  /** The three historical treatments of two quote marks in a row inside a quoted part:
      not special; a literal quote mark that keeps the part open (the C runtime since 2008);
      a literal quote mark that closes it (the older runtimes). */
  datatype QuoteRule = NoDoubling | DoubleStays | DoubleCloses

  /** Takes one argument after the program name, `run` backslashes of which are already read:
      2n backslashes before a quote mark are n backslashes and a toggle, 2n+1 are n
      backslashes and a literal quote mark, and backslashes anywhere else are themselves.
      Returns the argument and what follows it. */
  function ParseArg(s: string, run: nat, quoted: bool, rule: QuoteRule): (r: (string, string))
    ensures |r.1| <= |s|
    ensures s != "" && (quoted || !IsBlank(s[0])) ==> |r.1| < |s|
  {
    if s == "" then (Slashes(run), "")
    else if s[0] == '\\' then ParseArg(s[1..], run + 1, quoted, rule)
    else if s[0] == '"' then
      if run % 2 == 1 then
        Prepend(Slashes(run / 2) + "\"", ParseArg(s[1..], 0, quoted, rule))
      else if quoted && !rule.NoDoubling? && |s| > 1 && s[1] == '"' then
        Prepend(Slashes(run / 2) + "\"", ParseArg(s[2..], 0, rule.DoubleStays?, rule))
      else
        Prepend(Slashes(run / 2), ParseArg(s[1..], 0, !quoted, rule))
    else if !quoted && IsBlank(s[0]) then (Slashes(run), s)
    else Prepend(Slashes(run) + [s[0]], ParseArg(s[1..], 0, quoted, rule))
  }

  function Prepend(head: string, r: (string, string)): (string, string) {
    (head + r.0, r.1)
  }

  function ParseArgs(s: string, rule: QuoteRule): seq<string>
    decreases |s|
  {
    if s == "" then []
    else if IsBlank(s[0]) then ParseArgs(s[1..], rule)
    else
      var r := ParseArg(s, 0, false, rule);
      [r.0] + ParseArgs(r.1, rule)
  }

  /** The program name: backslashes are never escapes and quote marks only toggle. */
  function ParseProgram(s: string, quoted: bool): (r: (string, string)) {
    if s == "" then ("", "")
    else if s[0] == '"' then ParseProgram(s[1..], !quoted)
    else if !quoted && IsBlank(s[0]) then ("", s)
    else Prepend([s[0]], ParseProgram(s[1..], quoted))
  }

  /** A C string ends at its first NUL. */
  function UntilNul(s: string): (t: string)
    ensures '\0' !in t
  {
    if s == "" || s[0] == '\0' then "" else [s[0]] + UntilNul(s[1..])
  }

  function ParseCommandLine(buffer: string, rule: QuoteRule): seq<string> {
    var r := ParseProgram(UntilNul(buffer), false);
    [r.0] + ParseArgs(r.1, rule)
  }

  // ---------------------------------------------------------------- round trip

  predicate NulFree(s: string) {
    '\0' !in s
  }

  predicate AtBoundary(t: string) {
    t == "" || IsBlank(t[0])
  }

  predicate EndsInSlash(s: string) {
    s != "" && s[|s| - 1] == '\\'
  }

  /** What a program name must satisfy to survive the separate rule for argv[0]. */
  predicate ProgramSafe(program: string) {
    && '"' !in program
    && !((' ' in program || '\t' in program) && EndsInSlash(program))
  }

  lemma {:induction false} ParseSlashes(n: nat, t: string, run: nat, quoted: bool, rule: QuoteRule)
    ensures ParseArg(Slashes(n) + t, run, quoted, rule) == ParseArg(t, run + n, quoted, rule)
  {
    if n == 0 {
      assert Slashes(0) + t == t;
    } else {
      assert (Slashes(n) + t)[1..] == Slashes(n - 1) + t;
      ParseSlashes(n - 1, t, run + 1, quoted, rule);
    }
  }

  lemma {:induction false} ParseNothing(t: string, rule: QuoteRule)
    requires AtBoundary(t)
    ensures ParseArg(t, 0, false, rule) == ("", t)
  {}

  lemma {:induction false} ParseRunQuote(n: nat, more: string, rule: QuoteRule)
    ensures ParseArg(PrintedRun(n, '"') + more, 0, true, rule)
         == Prepend(Slashes(n) + "\"", ParseArg(more, 0, true, rule))
  {
    ParseSlashes(2 * n + 1, "\"" + more, 0, true, rule);
    assert Slashes(2 * n + 1) + ("\"" + more) == PrintedRun(n, '"') + more;
    assert ("\"" + more)[1..] == more;
  }

  lemma {:induction false} ParseRunPlain(n: nat, c: char, more: string, rule: QuoteRule)
    requires c != '\\' && c != '"'
    ensures ParseArg(PrintedRun(n, c) + more, 0, true, rule)
         == Prepend(Slashes(n) + [c], ParseArg(more, 0, true, rule))
  {
    ParseSlashes(n, [c] + more, 0, true, rule);
    assert Slashes(n) + ([c] + more) == PrintedRun(n, c) + more;
    assert ([c] + more)[1..] == more;
  }

  /** Reading back one printed run and the character that ends it, inside quotes. */
  lemma {:induction false} ParseRun(n: nat, c: char, more: string, arg: string, t: string, rule: QuoteRule)
    requires c != '\\' && ParseArg(more, 0, true, rule) == (arg, t)
    ensures ParseArg(PrintedRun(n, c) + more, 0, true, rule) == (Slashes(n) + [c] + arg, t)
  {
    if c == '"' {
      ParseRunQuote(n, more, rule);
    } else {
      ParseRunPlain(n, c, more, rule);
    }
  }

  lemma {:induction false} ParseClosing(n: nat, t: string, rule: QuoteRule)
    requires AtBoundary(t)
    ensures ParseArg(Slashes(2 * n) + ("\"" + t), 0, true, rule) == (Slashes(n), t)
  {
    ParseSlashes(2 * n, "\"" + t, 0, true, rule);
    assert ("\"" + t)[1..] == t;
    ParseNothing(t, rule);
    assert Slashes(n) + "" == Slashes(n);
  }

  lemma {:induction false} ParseEscaped(s: string, t: string, rule: QuoteRule)
    requires AtBoundary(t)
    ensures ParseArg(Escaped(s) + ("\"" + t), 0, true, rule) == (s, t)
    decreases |s|
  {
    var n := LeadingSlashes(s);
    if n == |s| {
      assert s == s[..n];
      ParseClosing(n, t, rule);
    } else {
      var inner, closing := s[n + 1..], "\"" + t;
      ParseEscaped(inner, t, rule);
      ParseRun(n, s[n], Escaped(inner) + closing, inner, t, rule);
      SplitAt(s, n);
      var head := PrintedRun(n, s[n]);
      assert head + Escaped(inner) + closing == head + (Escaped(inner) + closing);
    }
  }

  lemma {:induction false} ParsePlain(s: string, t: string, run: nat, rule: QuoteRule)
    requires AtBoundary(t)
    requires ' ' !in s && '\t' !in s && '"' !in s
    ensures ParseArg(s + t, run, false, rule) == (Slashes(run) + s, t)
  {
    if s == "" {
      assert s + t == t && Slashes(run) + s == Slashes(run);
    } else {
      assert (s + t)[1..] == s[1..] + t;
      if s[0] == '\\' {
        ParsePlain(s[1..], t, run + 1, rule);
        assert Slashes(run + 1) + s[1..] == Slashes(run) + s;
      } else {
        ParsePlain(s[1..], t, 0, rule);
        assert Slashes(run) + [s[0]] + (Slashes(0) + s[1..]) == Slashes(run) + s;
      }
    }
  }

  lemma {:induction false} ParseQuoted(arg: string, t: string, rule: QuoteRule)
    requires AtBoundary(t)
    ensures ParseArg(Quoted(arg) + t, 0, false, rule) == (arg, t)
  {
    if NeedsQuote(arg) {
      var inner := Escaped(arg) + ("\"" + t);
      assert Quoted(arg) + t == "\"" + inner;
      assert ("\"" + inner)[1..] == inner;
      ParseEscaped(arg, t, rule);
      assert Slashes(0) + arg == arg;
    } else {
      ParsePlain(arg, t, 0, rule);
      assert Slashes(0) + arg == arg;
    }
  }

  lemma {:induction false} ParseNext(arg: string, t: string, rule: QuoteRule)
    requires AtBoundary(t)
    ensures ParseArgs(" " + Quoted(arg) + t, rule) == [arg] + ParseArgs(t, rule)
  {
    var s := Quoted(arg) + t;
    assert " " + Quoted(arg) + t == " " + s && (" " + s)[1..] == s;
    assert s[0] == Quoted(arg)[0] && !IsBlank(s[0]);
    ParseQuoted(arg, t, rule);
  }

  lemma {:induction false} ParseTail(args: seq<string>, rule: QuoteRule)
    ensures ParseArgs(Tail(args), rule) == args
  {
    if args != [] {
      ParseTail(args[1..], rule);
      ParseNext(args[0], Tail(args[1..]), rule);
      assert args == [args[0]] + args[1..];
    }
  }

  /** A program name without quote marks comes back exactly as it stands between the quotes. */
  lemma {:induction false} ParseProgramVerbatim(s: string, quoted: bool, t: string)
    requires '"' !in s
    requires quoted || (' ' !in s && '\t' !in s)
    requires if quoted then t != "" && t[0] == '"' && AtBoundary(t[1..]) else AtBoundary(t)
    ensures ParseProgram(s + t, quoted) == (s, if quoted then t[1..] else t)
  {
    if s == "" {
      assert s + t == t;
      assert quoted ==> ParseProgram(t[1..], false) == ("", t[1..]);
    } else {
      assert (s + t)[1..] == s[1..] + t;
      ParseProgramVerbatim(s[1..], quoted, t);
      assert s == [s[0]] + s[1..];
    }
  }

  lemma {:induction false} EscapedFromAddsNoQuotes(run: nat, s: string)
    requires '"' !in s
    ensures '"' !in EscapedFrom(run, s)
    decreases |s|
  {
    if s != "" {
      assert s[0] != '"' && forall i :: 0 <= i < |s[1..]| ==> s[1..][i] == s[i + 1];
      EscapedFromAddsNoQuotes(if s[0] == '\\' then run + 1 else 0, s[1..]);
    }
  }

  lemma {:induction false} EscapedFromVerbatim(run: nat, s: string)
    requires '"' !in s && s != "" && !EndsInSlash(s)
    ensures EscapedFrom(run, s) == Slashes(run) + s
    decreases |s|
  {
    var c, inner := s[0], s[1..];
    assert s == [c] + inner;
    if c == '\\' {
      EscapedFromVerbatim(run + 1, inner);
      assert Slashes(run + 1) + inner == Slashes(run) + s;
    } else if inner != "" {
      EscapedFromVerbatim(0, inner);
      assert Slashes(0) + inner == inner;
      assert Slashes(run) + [c] + inner == Slashes(run) + s;
    } else {
      assert EscapedFrom(0, inner) == inner;
    }
  }

  lemma {:induction false} EscapedFromLength(run: nat, s: string)
    ensures |EscapedFrom(run, s)| >= run + |s|
    ensures EndsInSlash(s) || (s == "" && run > 0) ==> |EscapedFrom(run, s)| > run + |s|
    decreases |s|
  {
    if s != "" {
      EscapedFromLength(if s[0] == '\\' then run + 1 else 0, s[1..]);
    }
  }

  /** Without quote marks only a trailing run of backslashes is changed by escaping. */
  lemma {:induction false} EscapedWithoutQuotes(s: string)
    requires '"' !in s
    ensures '"' !in Escaped(s)
    ensures Escaped(s) == s <==> !EndsInSlash(s)
  {
    EscapedInOnePass(s);
    EscapedFromAddsNoQuotes(0, s);
    EscapedFromLength(0, s);
    if s != "" && !EndsInSlash(s) {
      EscapedFromVerbatim(0, s);
      assert Slashes(0) + s == s;
    }
  }

  lemma {:induction false} EscapedFromNul(run: nat, s: string)
    ensures NulFree(EscapedFrom(run, s)) <==> NulFree(s)
    decreases |s|
  {
    if s != "" {
      assert s == [s[0]] + s[1..];
      if s[0] == '\\' {
        EscapedFromNul(run + 1, s[1..]);
      } else {
        EscapedFromNul(0, s[1..]);
        var printed := PrintedRun(run, s[0]);
        assert printed[|printed| - 1] == s[0];
      }
    }
  }

  lemma {:induction false} QuotedNul(arg: string)
    ensures NulFree(Quoted(arg)) <==> NulFree(arg)
  {
    EscapedFromNul(0, arg);
    EscapedInOnePass(arg);
  }

  lemma {:induction false} TailNulFree(args: seq<string>)
    requires forall a :: a in args ==> NulFree(a)
    ensures NulFree(Tail(args))
  {
    if args != [] {
      QuotedNul(args[0]);
      TailNulFree(args[1..]);
    }
  }

  lemma {:induction false} UntilNulOf(s: string)
    requires NulFree(s)
    ensures UntilNul(s + "\0") == s
  {
    if s != "" {
      assert (s + "\0")[1..] == s[1..] + "\0";
      UntilNulOf(s[1..]);
    }
  }

  lemma {:induction false} ParsedProgramHasNoQuotes(s: string, quoted: bool)
    ensures '"' !in ParseProgram(s, quoted).0
    ensures NulFree(s) ==> NulFree(ParseProgram(s, quoted).0) && NulFree(ParseProgram(s, quoted).1)
  {
    if s != "" {
      assert s == [s[0]] + s[1..];
      ParsedProgramHasNoQuotes(s[1..], if s[0] == '"' then !quoted else quoted);
    }
  }

  lemma {:induction false} ParsedArgNulFree(s: string, run: nat, quoted: bool, rule: QuoteRule)
    requires NulFree(s)
    ensures NulFree(ParseArg(s, run, quoted, rule).0) && NulFree(ParseArg(s, run, quoted, rule).1)
  {
    if s != "" {
      ParsedArgNulFree(s[1..], if s[0] == '\\' then run + 1 else 0, quoted, rule);
      ParsedArgNulFree(s[1..], 0, !quoted, rule);
      if |s| > 1 {
        ParsedArgNulFree(s[2..], 0, rule.DoubleStays?, rule);
      }
    }
  }

  lemma {:induction false} ParsedArgsNulFree(s: string, rule: QuoteRule)
    requires NulFree(s)
    ensures forall a :: a in ParseArgs(s, rule) ==> NulFree(a)
    decreases |s|
  {
    if s != "" {
      if IsBlank(s[0]) {
        ParsedArgsNulFree(s[1..], rule);
      } else {
        ParsedArgNulFree(s, 0, false, rule);
        ParsedArgsNulFree(ParseArg(s, 0, false, rule).1, rule);
      }
    }
  }

  /** The printed program name, as the rule for argv[0] reads it. */
  lemma {:induction false} ParsePrintedProgram(program: string, t: string)
    requires '"' !in program && AtBoundary(t)
    ensures ParseProgram(Quoted(program) + t, false)
         == (if NeedsQuote(program) then Escaped(program) else program, t)
  {
    if NeedsQuote(program) {
      var inner := Escaped(program) + ("\"" + t);
      assert Quoted(program) + t == "\"" + inner && ("\"" + inner)[1..] == inner;
      EscapedWithoutQuotes(program);
      assert ("\"" + t)[1..] == t;
      ParseProgramVerbatim(Escaped(program), true, "\"" + t);
    } else {
      ParseProgramVerbatim(program, false, t);
    }
  }

  /** The line a child receives parses back to exactly the program and arguments it was built
      from, under every variant of the rules, if and only if nothing contains a NUL and the
      program name has no quote mark and no backslash just before a closing quote. */
  lemma {:induction false} RoundTrip(program: string, args: seq<string>, rule: QuoteRule)
    ensures ParseCommandLine(Line(program, args) + "\0", rule) == [program] + args
       <==> NulFree(program) && (forall a :: a in args ==> NulFree(a)) && ProgramSafe(program)
  {
    var buffer := Line(program, args) + "\0";
    var parsed := ParseCommandLine(buffer, rule);
    var r := ParseProgram(UntilNul(buffer), false);
    ParsedProgramHasNoQuotes(UntilNul(buffer), false);
    ParsedArgsNulFree(r.1, rule);
    if parsed == [program] + args {
      assert parsed[0] == program && parsed[1..] == args;
    }
    if NulFree(program) && (forall a :: a in args ==> NulFree(a)) && '"' !in program {
      QuotedNul(program);
      TailNulFree(args);
      UntilNulOf(Line(program, args));
      ParsePrintedProgram(program, Tail(args));
      ParseTail(args, rule);
      EscapedWithoutQuotes(program);
      assert parsed[0] == r.0 && parsed[1..] == args;
    }
  }

  /** Argument boundaries are never lost: two different commands never print the same line. */
  lemma {:induction false} PrintingIsInjective(p1: string, args1: seq<string>, p2: string, args2: seq<string>)
    requires ProgramSafe(p1) && NulFree(p1) && forall a :: a in args1 ==> NulFree(a)
    requires ProgramSafe(p2) && NulFree(p2) && forall a :: a in args2 ==> NulFree(a)
    requires Line(p1, args1) == Line(p2, args2)
    ensures p1 == p2 && args1 == args2
  {
    RoundTrip(p1, args1, NoDoubling);
    RoundTrip(p2, args2, NoDoubling);
    assert ([p1] + args1)[1..] == args1 && ([p2] + args2)[1..] == args2;
    assert ([p1] + args1)[0] == ([p2] + args2)[0];
  }
}
