/**
 The main program of the component server after its arguments are parsed: it builds the contexts of the roots,
 initializes each, and registers an adapter over it under the connection name given for that root.
 */
module ComponentServers {
  import opened Wrappers
  import opened Sequences
  import opened LaunchProtocol
  import opened ExternalProcesses
  import opened ContextBuilder
  import opened ContextPreparation
  import opened ContextBuilding
  import opened ComponentContextBuilders
  import opened Initialization
  import opened ServerHosts

  /** What an instance's initialize() throws, and which plugins' server adapters load, is decided outside. */
  datatype Loader = Loader(accepts: Visit -> bool, adapterLoads: string -> bool)

  datatype Failure =
    | UnknownRoot(plugin: string)
    | NotNativeRoot(plugin: string)
    | NotBuilt(error: Error)
    | NotInitialized(root: nat)
    | NoServerAdapter(root: nat)

  predicate SameCounts(s: Settings) {
    |s.paths| == |s.plugins| == |s.connections|
  }

  function RootsOf(s: Settings): seq<ComponentRoot>
    requires SameCounts(s)
  {
    seq(|s.paths|, i requires 0 <= i < |s.paths| => ComponentRoot(s.paths[i], s.plugins[i]))
  }

  predicate IsNativePlugin(disk: Disk, plugin: string) {
    disk.plugins(plugin).Some? && IsNative(disk.plugins(plugin).value)
  }

  predicate NativeRoots(disk: Disk, plugins: seq<string>) {
    forall plugin :: plugin in plugins ==> IsNativePlugin(disk, plugin)
  }

  /** A root that is no C++ component, or not registered at all, ends the program before anything is built. */
  method CheckRoots(disk: Disk, s: Settings) returns (roots: Result<seq<ComponentRoot>, Failure>)
    requires SameCounts(s)
    ensures roots.Ok? <==> NativeRoots(disk, s.plugins)
    ensures roots.Ok? <==>
              forall i :: 0 <= i < |s.plugins| ==>
                disk.plugins(s.plugins[i]).Some? && IsNative(disk.plugins(s.plugins[i]).value)
    ensures roots.Ok? ==> roots.value == RootsOf(s)
    ensures roots.Err? ==>
              || (roots.error.UnknownRoot? && disk.plugins(roots.error.plugin).None?)
              || (roots.error.NotNativeRoot? && disk.plugins(roots.error.plugin).Some?)
  {
    var found: seq<ComponentRoot> := [];
    for i := 0 to |s.paths|
      invariant found == RootsOf(s)[..i] && NativeRoots(disk, s.plugins[..i])
    {
      var info := disk.plugins(s.plugins[i]);
      assert s.plugins[i] in s.plugins;
      if info.None? {
        return Err(UnknownRoot(s.plugins[i]));
      }
      if !IsNative(info.value) {
        return Err(NotNativeRoot(s.plugins[i]));
      }
      assert s.plugins[..i + 1] == s.plugins[..i] + [s.plugins[i]];
      found := found + [ComponentRoot(s.paths[i], s.plugins[i])];
    }
    assert s.plugins[..|s.paths|] == s.plugins;
    forall i | 0 <= i < |s.plugins| ensures IsNativePlugin(disk, s.plugins[i]) {
      assert s.plugins[i] in s.plugins;
    }
    return Ok(found);
  }

  /** Context i initializes without an exception, and the server adapter of its plugin loads. */
  predicate Servable(contexts: seq<Context>, plugins: seq<string>, loader: Loader, i: nat)
    requires i < |contexts| == |plugins|
  {
    Accepted(Order(contexts[i], [i]), loader.accepts) && loader.adapterLoads(plugins[i])
  }

  predicate AllServable(contexts: seq<Context>, plugins: seq<string>, loader: Loader)
    requires |contexts| == |plugins|
  {
    forall i: nat :: i < |contexts| ==> Servable(contexts, plugins, loader, i)
  }

  /** The loop over the contexts: on a failure the adapters of the earlier ones stay registered. */
  method RegisterAdapters(contexts: seq<Context>, s: Settings, loader: Loader, host: RppServerHost)
    returns (failure: Option<Failure>)
    requires |contexts| == |s.plugins| == |s.connections| && host.adapters == map[]
    modifies host
    ensures failure.None? <==> AllServable(contexts, s.plugins, loader)
    ensures failure.None? ==> host.adapters == Registered(AdaptersOf(s.connections, contexts))
    ensures failure.Some? ==>
              && (failure.value.NotInitialized? || failure.value.NoServerAdapter?)
              && var i := failure.value.root;
              && i < |contexts| && !Servable(contexts, s.plugins, loader, i)
              && (failure.value.NotInitialized? <==> !Accepted(Order(contexts[i], [i]), loader.accepts))
              && (forall j: nat :: j < i ==> Servable(contexts, s.plugins, loader, j))
              && host.adapters == Registered(AdaptersOf(s.connections, contexts)[..i])
  {
    var adapters := AdaptersOf(s.connections, contexts);
    for i := 0 to |contexts|
      invariant host.adapters == Registered(adapters[..i])
      invariant forall j: nat :: j < i ==> Servable(contexts, s.plugins, loader, j)
    {
      var ok, called := Initialize(contexts[i], [i], loader.accepts);
      assert Servable(contexts, s.plugins, loader, i) <==> ok && loader.adapterLoads(s.plugins[i]);
      if !ok {
        return Some(NotInitialized(i));
      }
      if !loader.adapterLoads(s.plugins[i]) {
        return Some(NoServerAdapter(i));
      }
      assert adapters[..i + 1] == adapters[..i] + [adapters[i]];
      host.AddServer(Adapter(s.connections[i], contexts[i]));
    }
    assert adapters[..|contexts|] == adapters;
    return None;
  }

  /** What building the roots needs: they resolve, names differ, all processes start, and all components load. */
  ghost predicate Buildable(
      disk: Disk, env: Environment, home: string, commands: map<string, string>, launchers: Launchers,
      prepared: map<string, Client>, roots: seq<ComponentRoot>, depth: nat)
  {
    && RootNodes(disk, roots).Ok?
    && var nodes := RootNodes(disk, roots).value;
    && PlanAll(disk, nodes, depth).Ok?
    && var collected := PreorderAll(PlanAll(disk, nodes, depth).value);
    && Distinct(ConnectionNames(AdaptedNodes(collected)))
    && AllLaunch(collected, home, commands, launchers)
    && BuildRoots(disk, env, prepared, nodes, depth).Ok?
  }

  /** The contexts of buildable roots. */
  function Contexts(
      disk: Disk, env: Environment, prepared: map<string, Client>, roots: seq<ComponentRoot>, depth: nat)
    : Result<seq<Context>, Error>
  {
    match RootNodes(disk, roots)
    case Err(error) => Err(error)
    case Ok(nodes) => BuildRoots(disk, env, prepared, nodes, depth)
  }

  lemma {:induction false} ContextsOfRoots(
      disk: Disk, env: Environment, prepared: map<string, Client>, roots: seq<ComponentRoot>, depth: nat, i: nat)
    requires Contexts(disk, env, prepared, roots, depth).Ok?
    ensures var contexts := Contexts(disk, env, prepared, roots, depth).value;
            && |contexts| == |roots|
            && (i < |roots| ==>
                  Build(disk, env, prepared, roots[i].path, roots[i].path, roots[i].plugin, depth) == Ok(contexts[i]))
  {
    var nodes := RootNodes(disk, roots).value;
    RootNodesAreMade(disk, roots);
    AsManyContextsAsRoots(disk, env, prepared, nodes, depth);
    if i < |roots| {
      EachContextIsItsRoots(disk, env, prepared, nodes, depth, i);
    }
  }

  /** The first pass collected the components below the roots and prepared exactly the adapted ones. */
  ghost predicate PreparedForRoots(disk: Disk, prepared: map<string, Client>, roots: seq<ComponentRoot>, depth: nat) {
    && RootNodes(disk, roots).Ok?
    && var plans := PlanAll(disk, RootNodes(disk, roots).value, depth);
    && plans.Ok? && FullyPrepared(disk, prepared, PreorderAll(plans.value))
  }

  /** The registry holds one adapter per connection, over the contexts built from the roots. */
  ghost predicate Serving(
      adapters: map<string, Adapter>, s: Settings, disk: Disk, env: Environment, prepared: map<string, Client>,
      loader: Loader, depth: nat)
  {
    && SameCounts(s) && PreparedForRoots(disk, prepared, RootsOf(s), depth)
    && var built := Contexts(disk, env, prepared, RootsOf(s), depth);
    && built.Ok? && |built.value| == |s.plugins|
    && AllServable(built.value, s.plugins, loader)
    && adapters == Registered(AdaptersOf(s.connections, built.value))
  }

  /** Every root is native and built, every context initializes, and every server adapter loads. */
  ghost predicate EverythingSucceeds(
      s: Settings, disk: Disk, env: Environment, home: string, commands: map<string, string>, launchers: Launchers,
      prepared: map<string, Client>, loader: Loader, depth: nat)
    requires SameCounts(s)
  {
    && NativeRoots(disk, s.plugins)
    && Buildable(disk, env, home, commands, launchers, prepared, RootsOf(s), depth)
    && var contexts := Contexts(disk, env, prepared, RootsOf(s), depth).value;
    && |contexts| == |s.plugins| && AllServable(contexts, s.plugins, loader)
  }

  /** The planned trees of the roots, as far as they can be planned, have no divergent links. */
  ghost predicate NoDivergentRoots(disk: Disk, roots: seq<ComponentRoot>, depth: nat) {
    RootNodes(disk, roots).Ok? ==>
      var plans := PlanAll(disk, RootNodes(disk, roots).value, depth);
      plans.Ok? ==> NoDivergentRoot(plans.value)
  }

  /** What a caller can check beforehand: the roots can be planned, names differ, processes start, components load. */
  ghost predicate Plannable(
      disk: Disk, env: Environment, home: string, commands: map<string, string>, launchers: Launchers,
      roots: seq<ComponentRoot>, depth: nat)
  {
    && RootNodes(disk, roots).Ok?
    && var plans := PlanAll(disk, RootNodes(disk, roots).value, depth);
    && plans.Ok?
    && var collected := PreorderAll(plans.value);
    && Distinct(ConnectionNames(AdaptedNodes(collected)))
    && AllLaunch(collected, home, commands, launchers)
    && LoadsAll(env, collected)
  }

  /** Without divergent links that decides the building; what remains is initializing and loading the adapters. */
  ghost predicate PlannedSuccess(
      s: Settings, disk: Disk, env: Environment, home: string, commands: map<string, string>, launchers: Launchers,
      prepared: map<string, Client>, loader: Loader, depth: nat)
    requires SameCounts(s)
  {
    && NativeRoots(disk, s.plugins)
    && Plannable(disk, env, home, commands, launchers, RootsOf(s), depth)
    && var built := Contexts(disk, env, prepared, RootsOf(s), depth);
    built.Ok? && |built.value| == |s.plugins| ==> AllServable(built.value, s.plugins, loader)
  }

  lemma {:induction false} BuildOutcomeDecides(
      builder: ComponentContextBuilder, built: Result<seq<Context>, Error>, roots: seq<ComponentRoot>, depth: nat)
    requires RootNodes(builder.disk, roots).Ok?
    requires builder.BuiltOutcome(built, RootNodes(builder.disk, roots).value, depth)
    ensures built.Ok? <==>
            Buildable(builder.disk, builder.env, builder.home, builder.registry.commands, builder.launchers,
                      builder.adaptedComponents, roots, depth)
    ensures built.Ok? ==>
              && PreparedForRoots(builder.disk, builder.adaptedComponents, roots, depth)
              && built == Contexts(builder.disk, builder.env, builder.adaptedComponents, roots, depth)
    ensures NoDivergentRoots(builder.disk, roots, depth) ==>
              (built.Ok? <==>
                Plannable(builder.disk, builder.env, builder.home, builder.registry.commands, builder.launchers,
                          roots, depth))
  {
  }

  /** main() after the size checks: the server serves exactly when every step for every root succeeds. */
  method ServeComponents(
      s: Settings, builder: ComponentContextBuilder, host: RppServerHost, loader: Loader, depth: nat)
    returns (failure: Option<Failure>)
    requires SameCounts(s) && host.adapters == map[]
    modifies host, builder`adaptedComponents
    ensures failure.None? <==>
              EverythingSucceeds(s, builder.disk, builder.env, builder.home, builder.registry.commands,
                                 builder.launchers, builder.adaptedComponents, loader, depth)
    ensures NoDivergentRoots(builder.disk, RootsOf(s), depth) ==>
              (failure.None? <==>
                PlannedSuccess(s, builder.disk, builder.env, builder.home, builder.registry.commands,
                               builder.launchers, builder.adaptedComponents, loader, depth))
    ensures failure.None? ==>
              Serving(host.adapters, s, builder.disk, builder.env, builder.adaptedComponents, loader, depth)
    ensures failure.Some? && !failure.value.NotInitialized? && !failure.value.NoServerAdapter? ==>
              host.adapters == map[]
  {
    var roots := CheckRoots(builder.disk, s);
    if roots.Err? {
      return Some(roots.error);
    }
    var built := builder.BuildFromComponentRoots(roots.value, depth);
    if RootNodes(builder.disk, roots.value).Ok? {
      BuildOutcomeDecides(builder, built, roots.value, depth);
    }
    if built.Err? {
      return Some(NotBuilt(built.error));
    }
    ContextsOfRoots(builder.disk, builder.env, builder.adaptedComponents, roots.value, depth, 0);
    failure := RegisterAdapters(built.value, s, loader, host);
  }

  // ---- The whole program ----

  datatype Exit = Stopped(startup: Startup) | Failed(failure: Failure) | Served(adapters: map<string, Adapter>)

  lemma {:induction false} ParsedCountsAgree(args: seq<string>, s: Settings)
    requires Parse(args, s).Serve?
    ensures SameCounts(Parse(args, s).settings)
    decreases |args|
  {
    if args == [] {
    } else if TakesValue(args[0]) && |args| > 1 {
      ParsedCountsAgree(args[2..], Apply(s, args[0], args[1]).value);
    } else {
      ParsedCountsAgree(args[1..], s);
    }
  }

  /** main(): the builder, its process registry and the host are its own; the home directory decides the disk. */
  method RunServer(
      argv: seq<string>, defaultHome: string, disks: string -> Disk, env: Environment, launchers: Launchers,
      loader: Loader, depth: nat)
    returns (exit: Exit, ghost prepared: map<string, Client>)
    requires argv != []
    ensures var startup := Parse(argv[1..], Initial(defaultHome));
            if !startup.Serve? then exit == Stopped(startup)
            else
              var s := startup.settings;
              && SameCounts(s)
              && !exit.Stopped?
              && (exit.Served? <==>
                    EverythingSucceeds(s, disks(s.home), env, s.home, BUILT_IN_COMMANDS, launchers, prepared, loader,
                                       depth))
              && (NoDivergentRoots(disks(s.home), RootsOf(s), depth) ==>
                    (exit.Served? <==>
                      PlannedSuccess(s, disks(s.home), env, s.home, BUILT_IN_COMMANDS, launchers, prepared, loader,
                                     depth)))
              && (exit.Served? ==> Serving(exit.adapters, s, disks(s.home), env, prepared, loader, depth))
  {
    var startup := ParseCommandLine(argv, defaultHome);
    if !startup.Serve? {
      return Stopped(startup), map[];
    }
    var s := startup.settings;
    ParsedCountsAgree(argv[1..], Initial(defaultHome));
    var registry := new ExternalComponentProcessRegistry();
    var builder := new ComponentContextBuilder(disks(s.home), env, launchers, s.home, registry);
    var host := new RppServerHost();
    var failure := ServeComponents(s, builder, host, loader, depth);
    prepared := builder.adaptedComponents;
    exit := if failure.Some? then Failed(failure.value) else Served(host.adapters);
  }

  /** With distinct names, looking up connection i yields the adapter over the context built from root i. */
  lemma {:induction false} EachConnectionServesItsRoot(
      adapters: map<string, Adapter>, s: Settings, disk: Disk, env: Environment, prepared: map<string, Client>,
      loader: Loader, depth: nat, i: nat)
    requires Serving(adapters, s, disk, env, prepared, loader, depth) && Distinct(s.connections) && i < |s.connections|
    ensures |adapters| == |s.connections| && s.connections[i] in adapters
    ensures var adapter := adapters[s.connections[i]];
            && adapter.connection == s.connections[i]
            && Build(disk, env, prepared, s.paths[i], s.paths[i], s.plugins[i], depth) == Ok(adapter.context)
            && Accepted(Order(adapter.context, [i]), loader.accepts) && loader.adapterLoads(s.plugins[i])
    ensures var made := MakeNode(disk, s.paths[i], s.paths[i], s.plugins[i]);
            made.Ok? && HasInstance(adapters[s.connections[i]].context, made.value, prepared)
  {
    var contexts := Contexts(disk, env, prepared, RootsOf(s), depth).value;
    ContextsOfRoots(disk, env, prepared, RootsOf(s), depth, i);
    EachConnectionFindsItsContext(s.connections, contexts, i);
    assert Servable(contexts, s.plugins, loader, i);
    InstanceOfBuiltRoot(disk, env, prepared, s.paths[i], s.plugins[i], depth, contexts[i]);
  }

  /**
   From the parent's command to the server's registry: when the launched server serves, each connection name its
   clients ask for yields the adapter over the context built from the path and plugin the parent meant.
   */
  lemma {:induction false} LaunchedServerServesEachComponent(
      server: string, host: string, port: Port, home: string, components: seq<Component>, defaultHome: string,
      adapters: map<string, Adapter>, disk: Disk, env: Environment, prepared: map<string, Client>,
      loader: Loader, depth: nat, i: nat)
    requires components != [] && Distinct(Connections(components)) && i < |components|
    requires var startup := Parse(LaunchArguments(server, host, port, home, components)[1..], Initial(defaultHome));
             startup.Serve? ==> Serving(adapters, startup.settings, disk, env, prepared, loader, depth)
    ensures Parse(LaunchArguments(server, host, port, home, components)[1..], Initial(defaultHome)).Serve?
    ensures |adapters| == |components| && components[i].connection in adapters
    ensures var adapter := adapters[components[i].connection];
            && adapter.connection == components[i].connection
            && Build(disk, env, prepared, components[i].path, components[i].path, components[i].plugin, depth)
               == Ok(adapter.context)
            && Accepted(Order(adapter.context, [i]), loader.accepts)
    ensures var made := MakeNode(disk, components[i].path, components[i].path, components[i].plugin);
            made.Ok? && HasInstance(adapters[components[i].connection].context, made.value, prepared)
  {
    LaunchRoundTrip(server, host, port, home, components, defaultHome);
    var s := Settings(host, port, home, Paths(components), Plugins(components), Connections(components));
    EachConnectionServesItsRoot(adapters, s, disk, env, prepared, loader, depth, i);
  }
}
