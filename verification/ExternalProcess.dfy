/** Component server processes: which command serves a language, and what preparing one process yields. */
module ExternalProcesses {
  import opened Wrappers
  import opened Names
  import opened LaunchProtocol

  datatype PluginInfo = PluginInfo(name: string, language: string)

  datatype Spec = Spec(folder: string, plugin: PluginInfo, connection: string)

  /** The client-side instance for one component of a process. */
  datatype Client = Client(language: string, index: nat, spec: Spec)

  datatype LaunchError = NoComponents | NoServer | AdapterNotLoaded | NotReachable

  const BUILT_IN_COMMANDS :=
    map["python" := "rpp_component_server_python", "cpp" := "rpp_component_server_cpp"]

  class ExternalComponentProcessRegistry {
    var commands: map<string, string>

    constructor ()
      ensures commands == BUILT_IN_COMMANDS
      ensures commands.Keys == {"python", "cpp"}
      ensures commands["python"] == "rpp_component_server_python" && commands["cpp"] == "rpp_component_server_cpp"
    {
      commands := map["python" := "rpp_component_server_python", "cpp" := "rpp_component_server_cpp"];
    }

    /** Empty texts are refused; otherwise the command replaces any other spelling of the language. */
    method RegisterServer(language: string, command: string) returns (ok: bool)
      modifies this
      ensures ok <==> language != "" && command != ""
      ensures commands == if ok then old(commands)[Lower(language) := command] else old(commands)
      ensures ok ==> forall other ::
                CommandOf(commands, other) ==
                if Lower(other) == Lower(language) then Some(command) else CommandOf(old(commands), other)
    {
      if language == "" || command == "" {
        return false;
      }
      var key := ToLowerCopy(language);
      commands := commands[key := command];
      return true;
    }

    /** The lookup ignores case; None is the exception for an unregistered language. */
    method CommandFor(language: string) returns (command: Option<string>)
      ensures command == CommandOf(commands, language) == CommandOf(commands, Lower(language))
    {
      GroupKeyFindsTheCommand(commands, language);
      var key := ToLowerCopy(language);
      if key !in commands {
        return None;
      }
      return Some(commands[key]);
    }
  }

  /** The lower-cased language under which components are grouped finds the command of their own spelling. */
  lemma {:induction false} GroupKeyFindsTheCommand(commands: map<string, string>, language: string)
    ensures CommandOf(commands, Lower(language)) == CommandOf(commands, language)
  {
    LowerIsIdempotent(language);
  }

  function CommandOf(commands: map<string, string>, language: string): Option<string> {
    if Lower(language) in commands then Some(commands[Lower(language)]) else None
  }

  /** What the system decides: the port, which adapter libraries load, which started commands can be reached. */
  datatype Launcher = Launcher(port: Port, loads: PluginInfo -> bool, reachable: seq<string> -> bool)

  function ToComponents(specs: seq<Spec>): seq<Component> {
    seq(|specs|, i requires 0 <= i < |specs| =>
      Component(specs[i].folder, specs[i].plugin.name, specs[i].connection))
  }

  function Clients(language: string, specs: seq<Spec>): seq<Client> {
    seq(|specs|, i requires 0 <= i < |specs| => Client(language, i, specs[i]))
  }

  const HOST := "127.0.0.1"

  /** What ExternalComponentProcess::create yields: one client per component, in order, or the first failure. */
  function Launch(
      language: string, home: string, specs: seq<Spec>, commands: map<string, string>, launcher: Launcher)
    : Result<seq<Client>, LaunchError>
  {
    if specs == [] then Err(NoComponents)
    else
      match CommandOf(commands, language)
      case None => Err(NoServer)
      case Some(server) =>
        if exists i :: 0 <= i < |specs| && !launcher.loads(specs[i].plugin) then Err(AdapterNotLoaded)
        else if !launcher.reachable(LaunchArguments(server, HOST, launcher.port, home, ToComponents(specs)))
        then Err(NotReachable)
        else Ok(Clients(language, specs))
  }

  /**
   The command starts the server and makes it serve: its own parser reads the local host, the port, the home
   directory and, for each component in order, the folder, the plugin's name and the connection name.
   */
  predicate Starts(
      command: seq<string>, server: string, port: Port, home: string, specs: seq<Spec>, defaultHome: string)
  {
    && command != [] && command[0] == server
    && var startup := Parse(command[1..], Initial(defaultHome));
    && startup.Serve?
    && var s := startup.settings;
    && s.host == "127.0.0.1" && s.port == port && s.home == home
    && |s.paths| == |s.plugins| == |s.connections| == |specs|
    && forall i :: 0 <= i < |specs| ==>
         && s.paths[i] == specs[i].folder && s.plugins[i] == specs[i].plugin.name
         && s.connections[i] == specs[i].connection
  }

  /** Launching succeeds if and only if all adapters load and the command that starts the server is reachable. */
  lemma {:induction false} LaunchSucceedsExactly(
      language: string, home: string, specs: seq<Spec>, commands: map<string, string>, launcher: Launcher,
      defaultHome: string)
    requires specs != [] && Lower(language) in commands
    ensures exists command ::
              && Starts(command, commands[Lower(language)], launcher.port, home, specs, defaultHome)
              && (Launch(language, home, specs, commands, launcher).Ok? <==>
                    && (forall i :: 0 <= i < |specs| ==> launcher.loads(specs[i].plugin))
                    && launcher.reachable(command))
  {
    var server, components := commands[Lower(language)], ToComponents(specs);
    var command := LaunchArguments(server, HOST, launcher.port, home, components);
    LaunchRoundTrip(server, HOST, launcher.port, home, components, defaultHome);
    assert command[0] == server;
    assert Starts(command, server, launcher.port, home, specs, defaultHome);
  }

  /** Each failure has its own cause, and success gives component i client i of the process. */
  lemma {:induction false} LaunchFailsExactly(
      language: string, home: string, specs: seq<Spec>, commands: map<string, string>, launcher: Launcher)
    ensures var result := Launch(language, home, specs, commands, launcher);
            && (result == Err(NoComponents) <==> specs == [])
            && (result == Err(NoServer) <==> specs != [] && Lower(language) !in commands)
            && (result == Err(AdapterNotLoaded) <==>
                  && specs != [] && Lower(language) in commands
                  && exists i :: 0 <= i < |specs| && !launcher.loads(specs[i].plugin))
            && (result.Ok? ==>
                  && |result.value| == |specs|
                  && forall i :: 0 <= i < |specs| ==> result.value[i] == Client(language, i, specs[i]))
  {
  }

  /** A launcher that reaches no command starting this server for these components makes the launch fail. */
  lemma {:induction false} RefusedCommandFails(
      language: string, home: string, specs: seq<Spec>, commands: map<string, string>, launcher: Launcher,
      defaultHome: string)
    requires specs != [] && Lower(language) in commands
    requires forall command ::
               Starts(command, commands[Lower(language)], launcher.port, home, specs, defaultHome) ==>
               !launcher.reachable(command)
    ensures Launch(language, home, specs, commands, launcher).Err?
  {
    LaunchSucceedsExactly(language, home, specs, commands, launcher, defaultHome);
  }

  method Create(
      language: string, home: string, specs: seq<Spec>, registry: ExternalComponentProcessRegistry,
      launcher: Launcher)
    returns (result: Result<seq<Client>, LaunchError>)
    ensures result == Launch(language, home, specs, registry.commands, launcher)
  {
    if specs == [] {
      return Err(NoComponents);
    }
    var server := registry.CommandFor(language);
    if server.None? {
      return Err(NoServer);
    }
    var instances: seq<Client> := [];
    var components: seq<Component> := [];
    for i := 0 to |specs|
      invariant |instances| == |components| == i
      invariant forall j :: 0 <= j < i ==> launcher.loads(specs[j].plugin)
      invariant instances == Clients(language, specs)[..i]
      invariant components == ToComponents(specs)[..i]
    {
      if !launcher.loads(specs[i].plugin) {
        return Err(AdapterNotLoaded);
      }
      instances := instances + [Client(language, i, specs[i])];
      components := components + [Component(specs[i].folder, specs[i].plugin.name, specs[i].connection)];
    }
    assert components == ToComponents(specs) && instances == Clients(language, specs);
    var command := BuildCommand(server.value, HOST, launcher.port, home, components);
    if !launcher.reachable(command) {
      return Err(NotReachable);
    }
    return Ok(instances);
  }
}
