/**
 The launch protocol: the parent prints one argument vector for a component server process and the server
 parses it back.
 */
module LaunchProtocol {
  import opened Wrappers
  import opened ArgumentQuoting

  // ---- Numbers as text ----

  type Port = p: int | 0 <= p < 0x1_0000

  predicate IsDigit(c: char) { '0' <= c <= '9' }

  function DigitValue(c: char): (d: nat)
    requires IsDigit(c)
    ensures d < 10
  {
    c as int - '0' as int
  }

  function DigitChar(d: nat): (c: char)
    requires d < 10
    ensures IsDigit(c) && DigitValue(c) == d
  {
    ('0' as int + d) as char
  }

  /** std::to_string of an unsigned number. */
  function Decimal(n: nat): (s: string)
    ensures s != "" && forall c :: c in s ==> IsDigit(c)
  {
    if n < 10 then [DigitChar(n)] else Decimal(n / 10) + [DigitChar(n % 10)]
  }

  /** The number a text of digits denotes. */
  function Denotes(s: string): (n: int)
    requires forall c :: c in s ==> IsDigit(c)
    ensures n >= 0
  {
    if s == "" then 0 else Denotes(s[..|s| - 1]) * 10 + DigitValue(s[|s| - 1])
  }

  function DigitPrefix(s: string): (r: string)
    ensures forall c :: c in r ==> IsDigit(c)
  {
    if s == "" || !IsDigit(s[0]) then "" else [s[0]] + DigitPrefix(s[1..])
  }

  predicate IsSpace(c: char) {
    c == ' ' || c == '\t' || c == '\n' || c == '\r' || c as int == 0x0B || c as int == 0x0C
  }

  function SkipSpace(s: string): string {
    if s != "" && IsSpace(s[0]) then SkipSpace(s[1..]) else s
  }

  /** std::stoi: blanks, a sign, digits, then anything; None is either of the exceptions it throws. */
  function Stoi(s: string): Option<int> {
    var t := SkipSpace(s);
    var signed := t != "" && (t[0] == '-' || t[0] == '+');
    var digits := DigitPrefix(if signed then t[1..] else t);
    var value: int := if signed && t[0] == '-' then -Denotes(digits) else Denotes(digits);
    if digits == "" || !(-0x8000_0000 <= value < 0x8000_0000) then None else Some(value)
  }

  lemma {:induction false} DecimalDenotes(n: nat)
    ensures Denotes(Decimal(n)) == n
  {
    if n < 10 {
    } else {
      DecimalDenotes(n / 10);
      assert Decimal(n)[..|Decimal(n)| - 1] == Decimal(n / 10);
    }
  }

  lemma {:induction false} AllDigitsPrefix(s: string)
    requires forall c :: c in s ==> IsDigit(c)
    ensures DigitPrefix(s) == s
  {
    if s == "" {
    } else {
      AllDigitsPrefix(s[1..]);
      assert s == [s[0]] + s[1..];
    }
  }

  /** A port printed in decimal reads back as itself. */
  lemma {:induction false} PortRoundTrip(port: Port)
    ensures Stoi(Decimal(port)) == Some(port)
  {
    var s := Decimal(port);
    assert s[0] in s;
    AllDigitsPrefix(s);
    DecimalDenotes(port);
  }

  // ---- The parent's side ----

  datatype Component = Component(path: string, plugin: string, connection: string)

  function ComponentArguments(components: seq<Component>): seq<string> {
    if components == [] then []
    else
      ["--path", components[0].path, "--plugin", components[0].plugin, "--conn", components[0].connection]
      + ComponentArguments(components[1..])
  }

  function LaunchArguments(server: string, host: string, port: Port, home: string, components: seq<Component>)
    : seq<string>
  {
    [server, "--host", host, "--port", Decimal(port), "--home", home] + ComponentArguments(components)
  }

  lemma {:induction false} ComponentArgumentsSnoc(components: seq<Component>, c: Component)
    ensures ComponentArguments(components + [c])
         == ComponentArguments(components) + ["--path", c.path, "--plugin", c.plugin, "--conn", c.connection]
  {
    if components == [] {
      assert components + [c] == [c] && [c][1..] == [];
    } else {
      ComponentArgumentsSnoc(components[1..], c);
      assert (components + [c])[1..] == components[1..] + [c];
    }
  }

  /** The command is built by appending six arguments for each component. */
  method BuildCommand(server: string, host: string, port: Port, home: string, components: seq<Component>)
    returns (command: seq<string>)
    ensures command == LaunchArguments(server, host, port, home, components)
  {
    var head := [server, "--host", host, "--port", Decimal(port), "--home", home];
    var added: seq<string> := [];
    for i := 0 to |components|
      invariant added == ComponentArguments(components[..i])
    {
      var c := components[i];
      ComponentArgumentsSnoc(components[..i], c);
      assert components[..i + 1] == components[..i] + [c];
      added := added + ["--path", c.path, "--plugin", c.plugin, "--conn", c.connection];
    }
    assert components[..|components|] == components;
    command := head + added;
  }

  /** Six arguments for each component, in order, behind the seven of the header. */
  lemma {:induction false} CommandLayout(
      server: string, host: string, port: Port, home: string, components: seq<Component>, i: nat)
    ensures var command := LaunchArguments(server, host, port, home, components);
            && |command| == 7 + 6 * |components|
            && command[..7] == [server, "--host", host, "--port", Decimal(port), "--home", home]
            && (i < |components| ==>
                  var c := components[i];
                  command[7 + 6 * i..13 + 6 * i] ==
                  ["--path", c.path, "--plugin", c.plugin, "--conn", c.connection])
  {
    var arguments := ComponentArguments(components);
    ComponentLayout(components, i);
    if i < |components| {
      var command := LaunchArguments(server, host, port, home, components);
      assert command[7 + 6 * i..13 + 6 * i] == arguments[6 * i..6 + 6 * i];
    }
  }

  lemma {:induction false} ComponentLayout(components: seq<Component>, i: nat)
    ensures |ComponentArguments(components)| == 6 * |components|
    ensures i < |components| ==>
              var c := components[i];
              ComponentArguments(components)[6 * i..6 + 6 * i] ==
              ["--path", c.path, "--plugin", c.plugin, "--conn", c.connection]
    decreases |components|
  {
    if components == [] {
    } else if i == 0 {
      ComponentLayout(components[1..], 0);
    } else {
      ComponentLayout(components[1..], i - 1);
      if i < |components| {
        var rest := ComponentArguments(components[1..]);
        assert ComponentArguments(components)[6 * i..6 + 6 * i] == rest[6 * (i - 1)..6 + 6 * (i - 1)];
      }
    }
  }

  /** Ports are written in ordinary decimal digits. */
  lemma {:induction false} PortsAreDecimal()
    ensures Decimal(8080) == "8080" && Decimal(65535) == "65535" && Decimal(0) == "0"
  {
    assert Decimal(80) == "80" && Decimal(808) == "808";
    assert Decimal(65) == "65" && Decimal(655) == "655" && Decimal(6553) == "6553";
  }

  // ---- The server's side ----

  datatype Settings = Settings(
    host: string, port: Port, home: string, paths: seq<string>, plugins: seq<string>, connections: seq<string>)

  datatype Startup = Help | BadPort | MissingArguments | CountMismatch | Serve(settings: Settings)

  function Initial(home: string): Settings {
    Settings("localhost", 8080, home, [], [], [])
  }

  predicate TakesValue(arg: string) {
    arg == "--home" || arg == "--host" || arg == "--port" || arg == "--path" || arg == "--plugin" || arg == "--conn"
  }

  /** The settings after one flag with its value; None when the port does not parse. */
  function Apply(s: Settings, flag: string, value: string): Option<Settings>
    requires TakesValue(flag)
  {
    if flag == "--home" then Some(s.(home := value))
    else if flag == "--host" then Some(s.(host := value))
    else if flag == "--path" then Some(s.(paths := s.paths + [value]))
    else if flag == "--plugin" then Some(s.(plugins := s.plugins + [value]))
    else if flag == "--conn" then Some(s.(connections := s.connections + [value]))
    else
      match Stoi(value)
      case None => None
      case Some(n) => Some(s.(port := n % 0x1_0000))
  }

  function Check(s: Settings): Startup {
    if s.paths == [] || s.connections == [] || s.plugins == [] then MissingArguments
    else if |s.paths| != |s.connections| || |s.paths| != |s.plugins| then CountMismatch
    else Serve(s)
  }

  /** What the rest of the arguments makes of the settings so far; unknown arguments are skipped. */
  function Parse(args: seq<string>, s: Settings): Startup
    decreases |args|
  {
    if args == [] then Check(s)
    else if args[0] == "--help" || args[0] == "-h" then Help
    else if TakesValue(args[0]) && |args| > 1 then
      match Apply(s, args[0], args[1])
      case None => BadPort
      case Some(s') => Parse(args[2..], s')
    else Parse(args[1..], s)
  }

  /** The argument loop, with its index moved forward inside the body whenever a flag takes a value. */
  method ParseCommandLine(argv: seq<string>, defaultHome: string) returns (startup: Startup)
    requires argv != []
    ensures startup == Parse(argv[1..], Initial(defaultHome))
  {
    var s := Initial(defaultHome);
    var i := 1;
    while i < |argv|
      invariant 1 <= i <= |argv|
      invariant Parse(argv[i..], s) == Parse(argv[1..], Initial(defaultHome))
    {
      var arg := argv[i];
      assert argv[i..][1..] == argv[i + 1..];
      assert i + 1 < |argv| ==> argv[i..][2..] == argv[i + 2..];
      if arg == "--help" || arg == "-h" {
        return Help;
      }
      if arg == "--home" && i + 1 < |argv| {
        i := i + 1;
        s := s.(home := argv[i]);
      }
      if arg == "--host" && i + 1 < |argv| {
        i := i + 1;
        s := s.(host := argv[i]);
      }
      if arg == "--port" && i + 1 < |argv| {
        i := i + 1;
        var number := Stoi(argv[i]);
        if number.None? {
          return BadPort;
        }
        s := s.(port := number.value % 0x1_0000);
      }
      if arg == "--path" && i + 1 < |argv| {
        i := i + 1;
        s := s.(paths := s.paths + [argv[i]]);
      }
      if arg == "--plugin" && i + 1 < |argv| {
        i := i + 1;
        s := s.(plugins := s.plugins + [argv[i]]);
      }
      if arg == "--conn" && i + 1 < |argv| {
        i := i + 1;
        s := s.(connections := s.connections + [argv[i]]);
      }
      i := i + 1;
    }
    if s.paths == [] || s.connections == [] || s.plugins == [] {
      return MissingArguments;
    }
    if |s.paths| != |s.connections| || |s.paths| != |s.plugins| {
      return CountMismatch;
    }
    return Serve(s);
  }

  // ---- The parser undoes the printer ----

  function Paths(components: seq<Component>): seq<string> {
    seq(|components|, i requires 0 <= i < |components| => components[i].path)
  }

  function Plugins(components: seq<Component>): seq<string> {
    seq(|components|, i requires 0 <= i < |components| => components[i].plugin)
  }

  function Connections(components: seq<Component>): seq<string> {
    seq(|components|, i requires 0 <= i < |components| => components[i].connection)
  }

  lemma {:induction false} FlagParses(flag: string, value: string, rest: seq<string>, s: Settings)
    requires TakesValue(flag) && Apply(s, flag, value).Some?
    ensures Parse([flag, value] + rest, s) == Parse(rest, Apply(s, flag, value).value)
  {
    var args := [flag, value] + rest;
    assert args[2..] == rest;
  }

  lemma {:induction false} OneComponentParses(c: Component, rest: seq<string>, s: Settings)
    ensures Parse(["--path", c.path, "--plugin", c.plugin, "--conn", c.connection] + rest, s)
         == Parse(rest, s.(paths := s.paths + [c.path], plugins := s.plugins + [c.plugin],
                           connections := s.connections + [c.connection]))
  {
    var s1 := s.(paths := s.paths + [c.path]);
    var s2 := s1.(plugins := s.plugins + [c.plugin]);
    var rest1 := ["--plugin", c.plugin] + (["--conn", c.connection] + rest);
    FlagParses("--path", c.path, rest1, s);
    FlagParses("--plugin", c.plugin, ["--conn", c.connection] + rest, s1);
    FlagParses("--conn", c.connection, rest, s2);
    assert ["--path", c.path, "--plugin", c.plugin, "--conn", c.connection] + rest == ["--path", c.path] + rest1;
  }

  lemma {:induction false} ComponentsParse(components: seq<Component>, s: Settings)
    ensures Parse(ComponentArguments(components), s)
         == Check(s.(paths := s.paths + Paths(components), plugins := s.plugins + Plugins(components),
                     connections := s.connections + Connections(components)))
    decreases |components|
  {
    if components == [] {
      assert s.paths + [] == s.paths && s.plugins + [] == s.plugins && s.connections + [] == s.connections;
    } else {
      var c, rest := components[0], components[1..];
      OneComponentParses(c, ComponentArguments(rest), s);
      var s' := s.(paths := s.paths + [c.path], plugins := s.plugins + [c.plugin],
                   connections := s.connections + [c.connection]);
      ComponentsParse(rest, s');
      assert s'.paths + Paths(rest) == s.paths + Paths(components);
      assert s'.plugins + Plugins(rest) == s.plugins + Plugins(components);
      assert s'.connections + Connections(rest) == s.connections + Connections(components);
    }
  }

  lemma {:induction false} PortFlagParses(port: Port, rest: seq<string>, s: Settings)
    ensures Parse(["--port", Decimal(port)] + rest, s) == Parse(rest, s.(port := port))
  {
    PortRoundTrip(port);
    assert Apply(s, "--port", Decimal(port)) == Some(s.(port := port));
    FlagParses("--port", Decimal(port), rest, s);
  }

  lemma {:induction false} HeaderParses(host: string, port: Port, home: string, rest: seq<string>, s: Settings)
    ensures Parse(["--host", host, "--port", Decimal(port), "--home", home] + rest, s)
         == Parse(rest, s.(host := host, port := port, home := home))
  {
    var rest2 := ["--home", home] + rest;
    var rest1 := ["--port", Decimal(port)] + rest2;
    assert ["--host", host, "--port", Decimal(port), "--home", home] + rest == ["--host", host] + rest1;
    FlagParses("--host", host, rest1, s);
    PortFlagParses(port, rest2, s.(host := host));
    FlagParses("--home", home, rest, s.(host := host, port := port));
  }

  /** The server recovers exactly what the parent printed, whatever strings the values are, flags included. */
  lemma {:induction false} LaunchRoundTrip(
      server: string, host: string, port: Port, home: string, components: seq<Component>, defaultHome: string)
    requires components != []
    ensures Parse(LaunchArguments(server, host, port, home, components)[1..], Initial(defaultHome))
         == Serve(Settings(host, port, home, Paths(components), Plugins(components), Connections(components)))
  {
    var rest := ComponentArguments(components);
    var s := Initial(defaultHome).(host := host, port := port, home := home);
    HeaderParses(host, port, home, rest, Initial(defaultHome));
    ComponentsParse(components, s);
    assert LaunchArguments(server, host, port, home, components)[1..]
        == ["--host", host, "--port", Decimal(port), "--home", home] + rest;
    assert [] + Paths(components) == Paths(components);
    assert [] + Plugins(components) == Plugins(components);
    assert [] + Connections(components) == Connections(components);
  }

  // ---- Other command lines ----

  /** Without host and port the server listens on localhost:8080. */
  lemma {:induction false} OmittedHostAndPort(components: seq<Component>, home: string)
    requires components != []
    ensures Parse(ComponentArguments(components), Initial(home)) ==
            Serve(Settings("localhost", 8080, home, Paths(components), Plugins(components), Connections(components)))
  {
    ComponentsParse(components, Initial(home));
    assert [] + Paths(components) == Paths(components);
    assert [] + Plugins(components) == Plugins(components);
    assert [] + Connections(components) == Connections(components);
  }

  /** A request for help where a flag is expected ends the parsing, whatever follows. */
  lemma {:induction false} HelpEndsParsing(rest: seq<string>, s: Settings)
    ensures Parse(["--help"] + rest, s) == Help && Parse(["-h"] + rest, s) == Help
  {
  }

  /** An argument that is no known flag is skipped, and so is a flag with nothing after it. */
  lemma {:induction false} OtherArgumentsAreSkipped(arg: string, rest: seq<string>, s: Settings)
    requires arg !in {"--help", "-h"}
    requires arg in {"--home", "--host", "--port", "--path", "--plugin", "--conn"} ==> rest == []
    ensures Parse([arg] + rest, s) == Parse(rest, s)
  {
    assert ([arg] + rest)[1..] == rest;
  }

  /** A port argument is cut to 16 bits; one that is no number stops the server. */
  lemma {:induction false} PortIsCutTo16Bits(text: string, rest: seq<string>, s: Settings)
    ensures Parse(["--port", text] + rest, s) ==
            if Stoi(text).None? then BadPort else Parse(rest, s.(port := Stoi(text).value % 65536))
  {
    assert (["--port", text] + rest)[2..] == rest;
  }

  /** At the end all three lists must be there, and of the same length. */
  lemma {:induction false} ListsMustMatch(s: Settings)
    ensures var startup := Parse([], s);
            && (startup.MissingArguments? <==> s.paths == [] || s.plugins == [] || s.connections == [])
            && (startup.Serve? <==> 0 < |s.paths| == |s.plugins| == |s.connections|)
            && (startup.Serve? ==> startup.settings == s)
            && (startup.MissingArguments? || startup.Serve? || startup.CountMismatch?)
  {
  }

  lemma {:induction false} SkipSpaceSkips(blanks: string, rest: string)
    requires forall c :: c in blanks ==> IsSpace(c)
    requires rest == "" || !IsSpace(rest[0])
    ensures SkipSpace(blanks + rest) == rest
  {
    if blanks == "" {
      assert blanks + rest == rest;
    } else {
      assert (blanks + rest)[1..] == blanks[1..] + rest;
      SkipSpaceSkips(blanks[1..], rest);
    }
  }

  lemma {:induction false} DigitPrefixStops(digits: string, rest: string)
    requires forall c :: c in digits ==> IsDigit(c)
    requires rest == "" || !IsDigit(rest[0])
    ensures DigitPrefix(digits + rest) == digits
  {
    if digits == "" {
      assert digits + rest == rest;
    } else {
      assert (digits + rest)[1..] == digits[1..] + rest;
      DigitPrefixStops(digits[1..], rest);
    }
  }

  predicate IsSign(sign: string) {
    sign == "" || sign == "+" || sign == "-"
  }

  /** The text of a signed number, seen from its first character. */
  lemma {:induction false} SignThenDigits(sign: string, digits: string, rest: string)
    requires IsSign(sign) && digits != "" && IsDigit(digits[0])
    ensures var text := sign + (digits + rest);
            && text != "" && !IsSpace(text[0])
            && (text[0] == '-' <==> sign == "-") && (text[0] == '+' <==> sign == "+")
            && (if sign == "" then text else text[1..]) == digits + rest
  {
    var text := sign + (digits + rest);
    if sign == "" {
      assert text == digits + rest && text[0] == digits[0];
    } else {
      assert text[0] == sign[0] && text[1..] == digits + rest;
    }
  }

  /** stoi after the blanks. */
  lemma {:induction false} StoiOfSigned(s: string, text: string, digits: string)
    requires SkipSpace(s) == text && text != "" && digits != ""
    requires forall c :: c in digits ==> IsDigit(c)
    requires DigitPrefix(if text[0] == '-' || text[0] == '+' then text[1..] else text) == digits
    ensures var value := if text[0] == '-' then -Denotes(digits) else Denotes(digits);
            Stoi(s) == if -0x8000_0000 <= value < 0x8000_0000 then Some(value) else None
  {
  }

  /** stoi skips blanks, reads a sign and digits, and ignores the rest; it throws outside 32 bits. */
  lemma {:induction false} StoiReads(blanks: string, sign: string, n: nat, rest: string)
    requires forall c :: c in blanks ==> IsSpace(c)
    requires IsSign(sign) && (rest == "" || !IsDigit(rest[0]))
    ensures var value: int := if sign == "-" then 0 - n else n;
            Stoi(blanks + (sign + (Decimal(n) + rest))) ==
            if -0x8000_0000 <= value < 0x8000_0000 then Some(value) else None
  {
    var digits, text := Decimal(n), sign + (Decimal(n) + rest);
    assert digits[0] in digits;
    SignThenDigits(sign, digits, rest);
    SkipSpaceSkips(blanks, text);
    DigitPrefixStops(digits, rest);
    StoiOfSigned(blanks + text, text, digits);
    DecimalDenotes(n);
  }

  lemma {:induction false} ComponentArgumentsNulFree(components: seq<Component>)
    requires forall c :: c in components ==> NUL !in c.path && NUL !in c.plugin && NUL !in c.connection
    ensures forall a :: a in ComponentArguments(components) ==> NUL !in a
    decreases |components|
  {
    if components == [] {
    } else {
      ComponentArgumentsNulFree(components[1..]);
    }
  }

  /** On Windows the vector travels through one quoted command line and still reads back exactly. */
  lemma {:induction false} WindowsLaunchRoundTrip(
      server: string, host: string, port: Port, home: string, components: seq<Component>, defaultHome: string,
      pairs: bool)
    requires components != [] && PlainProgramName(server)
    requires NUL !in server && NUL !in host && NUL !in home
    requires forall c :: c in components ==> NUL !in c.path && NUL !in c.plugin && NUL !in c.connection
    ensures Parse(CommandLineToArgv(JoinQuoted(LaunchArguments(server, host, port, home, components)), pairs)[1..],
                  Initial(defaultHome))
         == Serve(Settings(host, port, home, Paths(components), Plugins(components), Connections(components)))
  {
    var args := LaunchArguments(server, host, port, home, components);
    ComponentArgumentsNulFree(components);
    assert NUL !in Decimal(port);
    CommandLineRoundTrip(args, pairs);
    LaunchRoundTrip(server, host, port, home, components, defaultHome);
  }
}
