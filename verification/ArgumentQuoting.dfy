/**
 The Windows command line: every argument is quoted, the quoted arguments are joined with spaces, and the
 child's runtime splits the line again by the rules Microsoft documents for CommandLineToArgvW and the C runtime.
 */
module ArgumentQuoting {

  const NUL: char := '\0'

  function Slashes(n: nat): (r: string)
    ensures |r| == n && forall i :: 0 <= i < n ==> r[i] == '\\'
  {
    seq(n, i => '\\')
  }

  // ---- Printing ----

  /** The body of a quoted argument and its closing quote, after `pending` backslashes not yet written. */
  function Escape(argument: string, pending: nat): string {
    if argument == [] then Slashes(pending * 2) + "\""
    else if argument[0] == '\\' then Escape(argument[1..], pending + 1)
    else if argument[0] == '"' then Slashes(pending * 2 + 1) + ("\"" + Escape(argument[1..], 0))
    else Slashes(pending) + ([argument[0]] + Escape(argument[1..], 0))
  }

  function Quote(argument: string): string {
    "\"" + Escape(argument, 0)
  }

  method QuoteArgument(argument: string) returns (result: string)
    ensures result == Quote(argument)
  {
    result := "\"";
    var backslashes: nat := 0;
    for i := 0 to |argument|
      invariant result + Escape(argument[i..], backslashes) == Quote(argument)
    {
      var character := argument[i];
      assert argument[i..][1..] == argument[i + 1..];
      if character == '\\' {
        backslashes := backslashes + 1;
      } else if character == '"' {
        result := result + Slashes(backslashes * 2 + 1);
        result := result + "\"";
        backslashes := 0;
      } else {
        result := result + Slashes(backslashes);
        result := result + [character];
        backslashes := 0;
      }
    }
    result := result + Slashes(backslashes * 2);
    result := result + "\"";
  }

  /** The conversion to UTF-16 reads a C string, so an argument ends at its first NUL. */
  function Wide(argument: string): string {
    if argument == [] || argument[0] == NUL then "" else [argument[0]] + Wide(argument[1..])
  }

  function JoinQuoted(args: seq<string>): string {
    if args == [] then ""
    else if |args| == 1 then Quote(Wide(args[0]))
    else JoinQuoted(args[..|args| - 1]) + (" " + Quote(Wide(args[|args| - 1])))
  }

  method CommandLine(args: seq<string>) returns (line: string)
    ensures line == JoinQuoted(args)
  {
    line := "";
    for i := 0 to |args|
      invariant line == JoinQuoted(args[..i])
      invariant line == "" <==> i == 0
    {
      assert args[..i + 1][..i] == args[..i];
      if line != "" {
        line := line + " ";
      }
      var quoted := QuoteArgument(Wide(args[i]));
      line := line + quoted;
    }
    assert args[..|args|] == args;
  }

  // ---- Parsing ----

  predicate IsBlank(c: char) { c == ' ' || c == '\t' }

  function SlashRun(s: string): (n: nat)
    ensures n <= |s| && s[..n] == Slashes(n)
    ensures n < |s| ==> s[n] != '\\'
  {
    if s == [] || s[0] != '\\' then 0
    else
      assert s == ['\\'] + s[1..];
      1 + SlashRun(s[1..])
  }

  /**
   One argument and the text after it.  Before a quote, 2n backslashes stand for n and the quote opens or closes
   a quoted part, and 2n+1 stand for n and a literal quote; elsewhere backslashes stand for themselves.  The C
   runtime also reads two quotes inside a quoted part as a literal quote, CommandLineToArgvW is not documented to:
   `pairs` selects which.
   */
  function ParseArgument(s: string, quoted: bool, pairs: bool): (r: (string, string))
    ensures |r.1| <= |s|
    decreases |s|
  {
    if s == [] then ("", "")
    else if s[0] == '\\' then
      var n := SlashRun(s);
      if n < |s| && s[n] == '"' then
        if n % 2 == 1 then
          var (argument, rest) := ParseArgument(s[n + 1..], quoted, pairs);
          (Slashes(n / 2) + ("\"" + argument), rest)
        else
          var (argument, rest) := ParseArgument(s[n..], quoted, pairs);
          (Slashes(n / 2) + argument, rest)
      else
        var (argument, rest) := ParseArgument(s[n..], quoted, pairs);
        (Slashes(n) + argument, rest)
    else if s[0] == '"' then
      if pairs && quoted && |s| > 1 && s[1] == '"' then
        var (argument, rest) := ParseArgument(s[2..], quoted, pairs);
        ("\"" + argument, rest)
      else
        ParseArgument(s[1..], !quoted, pairs)
    else if IsBlank(s[0]) && !quoted then ("", s)
    else
      var (argument, rest) := ParseArgument(s[1..], quoted, pairs);
      ([s[0]] + argument, rest)
  }

  function SkipBlanks(s: string): (r: string)
    ensures |r| <= |s|
    ensures r != "" ==> !IsBlank(r[0])
  {
    if s != [] && IsBlank(s[0]) then SkipBlanks(s[1..]) else s
  }

  lemma {:induction false} ParseArgumentConsumes(s: string, quoted: bool, pairs: bool)
    requires s != [] && (quoted || !IsBlank(s[0]))
    ensures |ParseArgument(s, quoted, pairs).1| < |s|
  {
  }

  function ParseArguments(s: string, pairs: bool): seq<string>
    decreases |s|
  {
    var t := SkipBlanks(s);
    if t == "" then []
    else
      var (argument, rest) := ParseArgument(t, false, pairs);
      ParseArgumentConsumes(t, false, pairs);
      [argument] + ParseArguments(rest, pairs)
  }

  /** The text before the first character satisfying `stop`, and the text from there on. */
  function Until(s: string, stop: char -> bool): (r: (string, string))
    ensures r.0 + r.1 == s
    ensures forall c :: c in r.0 ==> !stop(c)
    ensures r.1 != "" ==> stop(r.1[0])
  {
    if s == [] || stop(s[0]) then ("", s)
    else
      var (before, rest) := Until(s[1..], stop);
      ([s[0]] + before, rest)
  }

  /** The program name is read without escapes: up to the next quote if it starts with one, else up to a blank. */
  function ParseProgram(s: string): (string, string) {
    if s != [] && s[0] == '"' then
      var (name, rest) := Until(s[1..], c => c == '"');
      (name, if rest == "" then "" else rest[1..])
    else Until(s, c => IsBlank(c))
  }

  function CommandLineToArgv(line: string, pairs: bool): seq<string> {
    var (program, rest) := ParseProgram(line);
    [program] + ParseArguments(rest, pairs)
  }

  // ---- The parser undoes the printer ----

  lemma {:induction false} Regroup<T>(a: seq<T>, b: seq<T>, c: seq<T>, d: seq<T>)
    ensures (a + (b + c)) + d == a + (b + (c + d))
    ensures (a + b) + d == a + (b + d)
  {
  }

  lemma {:induction false} SlashRunOf(n: nat, rest: string)
    requires rest != "" ==> rest[0] != '\\'
    ensures SlashRun(Slashes(n) + rest) == n
    ensures (Slashes(n) + rest)[n..] == rest
  {
    var s := Slashes(n) + rest;
    assert s[n..] == rest;
    if n == 0 {
      assert s == rest;
    } else {
      SlashRunOf(n - 1, rest);
      assert s[1..] == Slashes(n - 1) + rest;
    }
  }

  /** What follows an argument on the command line: nothing, or the blank before the next one. */
  predicate EndsArgument(rest: string) {
    rest != "" ==> IsBlank(rest[0])
  }

  lemma {:induction false} ClosingQuoteParses(pending: nat, rest: string, pairs: bool)
    requires EndsArgument(rest)
    ensures ParseArgument(Slashes(pending * 2) + ("\"" + rest), true, pairs) == (Slashes(pending), rest)
  {
    var q := "\"" + rest;
    assert q[1..] == rest;
    assert ParseArgument(q, true, pairs) == ("", rest);
    SlashRunOf(pending * 2, q);
    assert Slashes(pending) + "" == Slashes(pending);
    if pending == 0 {
      assert Slashes(0) + q == q;
    }
  }

  lemma {:induction false} LiteralQuoteParses(pending: nat, tail: string, pairs: bool)
    ensures var (argument, rest) := ParseArgument(tail, true, pairs);
            ParseArgument(Slashes(pending * 2 + 1) + ("\"" + tail), true, pairs)
            == (Slashes(pending) + ("\"" + argument), rest)
  {
    var q, n := "\"" + tail, pending * 2 + 1;
    SlashRunOf(n, q);
    var s := Slashes(n) + q;
    assert q[1..] == tail;
    assert s[n + 1..] == s[n..][1..];
    assert s[0] == '\\' && s[n] == '"' && n % 2 == 1 && n / 2 == pending;
  }

  lemma {:induction false} PlainCharacterParses(pending: nat, c: char, tail: string, pairs: bool)
    requires c != '\\' && c != '"'
    ensures var (argument, rest) := ParseArgument(tail, true, pairs);
            ParseArgument(Slashes(pending) + ([c] + tail), true, pairs)
            == (Slashes(pending) + ([c] + argument), rest)
  {
    var q := [c] + tail;
    var (argument, rest) := ParseArgument(tail, true, pairs);
    assert q[1..] == tail;
    assert ParseArgument(q, true, pairs) == ([c] + argument, rest);
    SlashRunOf(pending, q);
    if pending == 0 {
      assert Slashes(0) + q == q;
      assert Slashes(0) + ([c] + argument) == [c] + argument;
    }
  }

  lemma {:induction false} EscapeParses(argument: string, pending: nat, rest: string, pairs: bool)
    requires EndsArgument(rest)
    ensures ParseArgument(Escape(argument, pending) + rest, true, pairs) == (Slashes(pending) + argument, rest)
  {
    if argument == [] {
      ClosingQuoteParses(pending, rest, pairs);
      Regroup(Slashes(pending * 2), "\"", [], rest);
      assert Slashes(pending) + [] == Slashes(pending);
    } else {
      var c, tail := argument[0], argument[1..];
      assert argument == [c] + tail;
      if c == '\\' {
        EscapeParses(tail, pending + 1, rest, pairs);
        assert Slashes(pending + 1) + tail == Slashes(pending) + argument;
      } else {
        EscapeParses(tail, 0, rest, pairs);
        assert Slashes(0) + tail == tail;
        if c == '"' {
          LiteralQuoteParses(pending, Escape(tail, 0) + rest, pairs);
          Regroup(Slashes(pending * 2 + 1), "\"", Escape(tail, 0), rest);
        } else {
          PlainCharacterParses(pending, c, Escape(tail, 0) + rest, pairs);
          Regroup(Slashes(pending), [c], Escape(tail, 0), rest);
        }
      }
    }
  }

  /** One quoted argument reads back as itself, whatever characters it holds. */
  lemma {:induction false} QuoteParses(argument: string, rest: string, pairs: bool)
    requires EndsArgument(rest)
    ensures ParseArgument(Quote(argument) + rest, false, pairs) == (argument, rest)
  {
    var s := Quote(argument) + rest;
    assert s[1..] == Escape(argument, 0) + rest;
    EscapeParses(argument, 0, rest, pairs);
    assert Slashes(0) + argument == argument;
  }

  function WideAll(args: seq<string>): seq<string> {
    seq(|args|, i requires 0 <= i < |args| => Wide(args[i]))
  }

  /** Each of the arguments, quoted and preceded by a space. */
  function SpacedQuotes(args: seq<string>): string {
    if args == [] then "" else " " + (Quote(Wide(args[0])) + SpacedQuotes(args[1..]))
  }

  lemma {:induction false} SpacedQuotesSnoc(args: seq<string>, last: string)
    ensures SpacedQuotes(args + [last]) == SpacedQuotes(args) + (" " + Quote(Wide(last)))
  {
    var quoted := " " + Quote(Wide(last));
    if args == [] {
      assert args + [last] == [last] && [last][1..] == [];
      assert Quote(Wide(last)) + "" == Quote(Wide(last));
      assert "" + quoted == quoted;
    } else {
      SpacedQuotesSnoc(args[1..], last);
      assert (args + [last])[1..] == args[1..] + [last];
      Regroup(" ", Quote(Wide(args[0])), SpacedQuotes(args[1..]), quoted);
    }
  }

  lemma {:induction false} JoinStartsWithProgram(args: seq<string>)
    requires args != []
    ensures JoinQuoted(args) == Quote(Wide(args[0])) + SpacedQuotes(args[1..])
    decreases |args|
  {
    if |args| == 1 {
      assert Quote(Wide(args[0])) + "" == Quote(Wide(args[0]));
    } else {
      var front, last := args[..|args| - 1], args[|args| - 1];
      JoinStartsWithProgram(front);
      SpacedQuotesSnoc(front[1..], last);
      assert front[1..] + [last] == args[1..];
      Regroup(Quote(Wide(args[0])), SpacedQuotes(front[1..]), [], " " + Quote(Wide(last)));
    }
  }

  lemma {:induction false} SpacedQuotesParse(args: seq<string>, pairs: bool)
    ensures ParseArguments(SpacedQuotes(args), pairs) == WideAll(args)
  {
    if args == [] {
    } else {
      var s, tail := SpacedQuotes(args), SpacedQuotes(args[1..]);
      var t := Quote(Wide(args[0])) + tail;
      assert s[1..] == t;
      assert SkipBlanks(t) == t;
      QuoteParses(Wide(args[0]), tail, pairs);
      SpacedQuotesParse(args[1..], pairs);
      assert WideAll(args) == [Wide(args[0])] + WideAll(args[1..]);
    }
  }

  // ---- The program name, which is read by simpler rules ----

  /** A program name those rules read back unchanged. */
  predicate PlainProgramName(name: string) {
    '"' !in name && (name != "" ==> name[|name| - 1] != '\\')
  }

  /** How many backslashes end the text made of `pending` backslashes and `s`. */
  function TrailingSlashes(s: string, pending: nat): nat {
    if s == [] then pending
    else if s[0] == '\\' then TrailingSlashes(s[1..], pending + 1)
    else TrailingSlashes(s[1..], 0)
  }

  lemma {:induction false} TrailingSlashesZero(s: string, pending: nat)
    ensures TrailingSlashes(s, pending) == 0 <==> if s == "" then pending == 0 else s[|s| - 1] != '\\'
  {
    if s == [] {
    } else {
      TrailingSlashesZero(s[1..], if s[0] == '\\' then pending + 1 else 0);
    }
  }

  lemma {:induction false} SlashesAdd(m: nat, n: nat)
    ensures Slashes(m) + Slashes(n) == Slashes(m + n)
  {
  }

  /** Without quotes inside, escaping only doubles the trailing backslashes. */
  lemma {:induction false} EscapeWithoutQuotes(s: string, pending: nat)
    requires '"' !in s
    ensures Escape(s, pending) == Slashes(pending) + (s + (Slashes(TrailingSlashes(s, pending)) + "\""))
  {
    if s == [] {
      SlashesAdd(pending, pending);
      Regroup(Slashes(pending), Slashes(pending), [], "\"");
      assert [] + (Slashes(pending) + "\"") == Slashes(pending) + "\"";
    } else {
      var c, tail := s[0], s[1..];
      assert s == [c] + tail;
      var end := Slashes(TrailingSlashes(s, pending)) + "\"";
      if c == '\\' {
        EscapeWithoutQuotes(tail, pending + 1);
        assert Slashes(pending + 1) == Slashes(pending) + [c];
        Regroup(Slashes(pending), [c], [], tail + end);
        Regroup([c], tail, [], end);
      } else {
        EscapeWithoutQuotes(tail, 0);
        assert Slashes(0) + (tail + end) == tail + end;
        Regroup([c], tail, [], end);
      }
    }
  }

  lemma {:induction false} UntilSplits(before: string, rest: string, stop: char -> bool)
    requires forall c :: c in before ==> !stop(c)
    requires rest != "" && stop(rest[0])
    ensures Until(before + rest, stop) == (before, rest)
  {
    if before == [] {
      assert before + rest == rest;
    } else {
      var s := before + rest;
      assert s[0] == before[0] && before[0] in before;
      assert s[1..] == before[1..] + rest;
      UntilSplits(before[1..], rest, stop);
      assert [before[0]] + before[1..] == before;
    }
  }

  /** A quoted name without quotes inside reads back with its trailing backslashes doubled. */
  lemma {:induction false} QuotedProgramParses(name: string, rest: string)
    requires '"' !in name
    ensures ParseProgram(Quote(name) + rest) == (name + Slashes(TrailingSlashes(name, 0)), rest)
  {
    var line := Quote(name) + rest;
    var trailing := Slashes(TrailingSlashes(name, 0));
    EscapeWithoutQuotes(name, 0);
    assert Slashes(0) + (name + (trailing + "\"")) == name + (trailing + "\"");
    Regroup(name, trailing, "\"", rest);
    Regroup(name, trailing, [], "\"" + rest);
    assert line[1..] == Escape(name, 0) + rest;
    UntilSplits(name + trailing, "\"" + rest, c => c == '"');
    assert ("\"" + rest)[1..] == rest;
  }

  lemma {:induction false} WideIsPrefix(s: string)
    ensures Wide(s) <= s && NUL !in Wide(s)
    ensures Wide(s) == s <==> NUL !in s
    ensures Wide(s) != s ==> s[|Wide(s)|] == NUL
  {
    if s == "" || s[0] == NUL {
    } else {
      WideIsPrefix(s[1..]);
      assert s == [s[0]] + s[1..];
    }
  }

  /** With a plain program name the child receives every argument, each cut at its first NUL. */
  lemma {:induction false} ArgumentsArrive(args: seq<string>, pairs: bool)
    requires args != [] && PlainProgramName(Wide(args[0]))
    ensures CommandLineToArgv(JoinQuoted(args), pairs) == WideAll(args)
  {
    var name, rest := Wide(args[0]), SpacedQuotes(args[1..]);
    JoinStartsWithProgram(args);
    QuotedProgramParses(name, rest);
    TrailingSlashesZero(name, 0);
    assert name + Slashes(0) == name;
    assert ParseProgram(JoinQuoted(args)) == (name, rest);
    SpacedQuotesParse(args[1..], pairs);
    assert WideAll(args) == [Wide(args[0])] + WideAll(args[1..]);
  }

  lemma {:induction false} OddProgramNameIsLost(args: seq<string>, pairs: bool)
    requires args != [] && !PlainProgramName(Wide(args[0]))
    ensures CommandLineToArgv(JoinQuoted(args), pairs)[0] != args[0]
  {
    var name := Wide(args[0]);
    JoinStartsWithProgram(args);
    WideIsPrefix(args[0]);
    var line := JoinQuoted(args);
    assert line[0] == '"';
    if '"' in name {
      assert '"' in args[0];
    } else {
      QuotedProgramParses(name, SpacedQuotes(args[1..]));
      TrailingSlashesZero(name, 0);
      var read := name + Slashes(TrailingSlashes(name, 0));
      assert |read| > |name| && read[|name|] == '\\';
    }
  }

  /** The exact round trip: the child gets the argument vector iff the name is plain and nothing holds a NUL. */
  lemma {:induction false} CommandLineRoundTrip(args: seq<string>, pairs: bool)
    requires args != []
    ensures CommandLineToArgv(JoinQuoted(args), pairs) == args
       <==> PlainProgramName(args[0]) && forall a :: a in args ==> NUL !in a
  {
    var argv := CommandLineToArgv(JoinQuoted(args), pairs);
    forall i | 0 <= i < |args| ensures Wide(args[i]) == args[i] <==> NUL !in args[i] {
      WideIsPrefix(args[i]);
    }
    if PlainProgramName(Wide(args[0])) {
      ArgumentsArrive(args, pairs);
      assert argv == args <==> forall i :: 0 <= i < |args| ==> WideAll(args)[i] == args[i];
    } else {
      OddProgramNameIsLost(args, pairs);
    }
  }

  /** The text itself, on arguments with a blank, a trailing backslash and a quote after a backslash. */
  lemma {:induction false} QuotedTexts()
    ensures Quote("a b") == "\"a b\"" && Quote("") == "\"\""
    ensures Quote("c\\") == "\"c\\\\\""
    ensures Quote("\\\"e") == "\"\\\\\\\"e\""
  {
    assert Escape("b", 0) == "b\"" && Escape(" b", 0) == " b\"";
    assert Escape("\\", 0) == "\\\\\"";
    assert Escape("e", 0) == "e\"" && Escape("\"e", 1) == "\\\\\\\"e\"";
  }

  /** One space between arguments, none around them. */
  lemma {:induction false} JoinedText(first: string, second: string)
    requires NUL !in first && NUL !in second
    ensures JoinQuoted([first]) == Quote(first)
    ensures JoinQuoted([first, second]) == Quote(first) + (" " + Quote(second))
  {
    WideIsPrefix(first);
    WideIsPrefix(second);
    assert [first, second][..1] == [first] && [first][..0] == [];
  }
}
