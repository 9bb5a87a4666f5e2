/** The second pass: building contexts from the prepared instances, and why it never misses one. */
module ContextBuilding {
  import opened Wrappers
  import opened Sequences
  import opened Names
  import opened ExternalProcesses
  import opened ContextBuilder
  import opened ContextPreparation

  /** The plugin of a native component loaded from its folder, or the client of an adapted one. */
  datatype Instance = Loaded(folder: string) | Remote(client: Client)

  /** Children come slot by slot in key order, each slot in list order. */
  datatype Context = Context(instance: Instance, children: seq<Context>)

  /** Which components load their plugin and parameters is decided outside. */
  datatype Environment = Environment(loads: ComponentRecord -> bool)

  /** build_for_component: the component is resolved, then built as what it is. */
  function Build(
      disk: Disk, env: Environment, prepared: map<string, Client>,
      path: string, parent: string, plugin: string, depth: nat): Result<Context, Error>
    decreases depth, 1
  {
    match MakeNode(disk, path, EffectiveParent(path, parent), plugin)
    case Err(error) => Err(error)
    case Ok(node) => BuildNode(disk, env, prepared, node, depth)
  }

  function BuildNode(
      disk: Disk, env: Environment, prepared: map<string, Client>, node: Node, depth: nat): Result<Context, Error>
    decreases depth, 0
  {
    var record := node.record;
    if !IsNative(node.info) then
      if record.folder !in prepared then Err(NotPrepared(record.folder))
      else if !env.loads(record) then Err(NotLoaded(record.folder))
      else Ok(Context(Remote(prepared[record.folder]), []))
    else if !env.loads(record) then Err(NotLoaded(record.folder))
    else if depth == 0 then Err(TooDeep)
    else
      match BuildChildren(disk, env, prepared, record, Subcomponents(record.slots), depth - 1)
      case Err(error) => Err(error)
      case Ok(children) => Ok(Context(Loaded(record.folder), children))
  }

  function BuildChildren(
      disk: Disk, env: Environment, prepared: map<string, Client>,
      record: ComponentRecord, subs: seq<Subcomponent>, depth: nat): Result<seq<Context>, Error>
    decreases depth, 2, |subs|
  {
    if subs == [] then Ok([])
    else
      match BuildChildren(disk, env, prepared, record, subs[..|subs| - 1], depth)
      case Err(error) => Err(error)
      case Ok(before) =>
        var s := subs[|subs| - 1];
        match Build(disk, env, prepared, SubcomponentPath(record.folder, s.id), record.folder, s.plugin, depth)
        case Err(error) => Err(error)
        case Ok(context) => Ok(before + [context])
  }

  // ---- Building follows the walk ----

  /** Everything the walk visits loads, and every adapted component it looks up is prepared. */
  predicate Ready(walk: Walk, env: Environment, prepared: map<string, Client>) {
    && env.loads(walk.record)
    && (!IsNative(walk.info) ==> walk.record.folder in prepared)
    && ReadyAll(walk.children, env, prepared)
  }

  predicate ReadyAll(walks: seq<Walk>, env: Environment, prepared: map<string, Client>) {
    forall i :: 0 <= i < |walks| ==> Ready(walks[i], env, prepared)
  }

  /** The context has the walk's shape, with each component's own instance. */
  predicate Matches(context: Context, walk: Walk, prepared: map<string, Client>) {
    && (if IsNative(walk.info) then context.instance == Loaded(walk.record.folder)
        else walk.record.folder in prepared && context.instance == Remote(prepared[walk.record.folder]))
    && MatchesAll(context.children, walk.children, prepared)
  }

  predicate MatchesAll(contexts: seq<Context>, walks: seq<Walk>, prepared: map<string, Client>) {
    && |contexts| == |walks|
    && forall i :: 0 <= i < |walks| ==> Matches(contexts[i], walks[i], prepared)
  }

  /** An error along the walk: a component that does not load, or one looked up that is not prepared. */
  predicate ExpectedError(error: Error, lookedUp: seq<string>, prepared: map<string, Client>) {
    error.NotLoaded? || (error.NotPrepared? && error.folder in lookedUp && error.folder !in prepared)
  }

  lemma {:induction false} BuildFollowsWalk(
      disk: Disk, env: Environment, prepared: map<string, Client>,
      path: string, parent: string, plugin: string, depth: nat)
    requires WalkFrom(disk, path, parent, plugin, depth).Ok?
    ensures var walk := WalkFrom(disk, path, parent, plugin, depth).value;
            var built := Build(disk, env, prepared, path, parent, plugin, depth);
            && (built.Ok? <==> Ready(walk, env, prepared))
            && (built.Ok? ==> Matches(built.value, walk, prepared))
            && (built.Err? ==> ExpectedError(built.error, LookedUp(walk), prepared))
    decreases depth, 0
  {
    var node := MakeNode(disk, path, EffectiveParent(path, parent), plugin).value;
    if IsNative(node.info) {
      ChildrenFollowWalk(disk, env, prepared, node.record, Subcomponents(node.record.slots), depth - 1);
    }
  }

  /** What building a list of walks yields: success exactly when all are ready, the shape, or an expected error. */
  predicate FollowsAll(
      built: Result<seq<Context>, Error>, walks: seq<Walk>, env: Environment, prepared: map<string, Client>)
  {
    && (built.Ok? <==> ReadyAll(walks, env, prepared))
    && (built.Ok? ==> MatchesAll(built.value, walks, prepared))
    && (built.Err? ==> ExpectedError(built.error, LookedUpAll(walks), prepared))
  }

  lemma {:induction false} ChildrenFollowWalk(
      disk: Disk, env: Environment, prepared: map<string, Client>,
      record: ComponentRecord, subs: seq<Subcomponent>, depth: nat)
    requires WalkChildren(disk, record, subs, depth).Ok?
    ensures FollowsAll(BuildChildren(disk, env, prepared, record, subs, depth),
                       WalkChildren(disk, record, subs, depth).value, env, prepared)
    decreases depth, 1, |subs|
  {
    if subs == [] {
    } else {
      var front, s := subs[..|subs| - 1], subs[|subs| - 1];
      var path := SubcomponentPath(record.folder, s.id);
      ChildrenFollowWalk(disk, env, prepared, record, front, depth);
      BuildFollowsWalk(disk, env, prepared, path, record.folder, s.plugin, depth);
      FollowsSnoc(BuildChildren(disk, env, prepared, record, front, depth),
                  Build(disk, env, prepared, path, record.folder, s.plugin, depth),
                  WalkChildren(disk, record, front, depth).value,
                  WalkFrom(disk, path, record.folder, s.plugin, depth).value, env, prepared);
    }
  }

  lemma {:induction false} FollowsSnoc(
      front: Result<seq<Context>, Error>, back: Result<Context, Error>, walks: seq<Walk>, last: Walk,
      env: Environment, prepared: map<string, Client>)
    requires FollowsAll(front, walks, env, prepared)
    requires back.Ok? <==> Ready(last, env, prepared)
    requires back.Ok? ==> Matches(back.value, last, prepared)
    requires back.Err? ==> ExpectedError(back.error, LookedUp(last), prepared)
    ensures var built := if front.Err? then front else if back.Err? then Err(back.error)
                         else Ok(front.value + [back.value]);
            FollowsAll(built, walks + [last], env, prepared)
  {
    ReadySnoc(walks, last, env, prepared);
    assert (walks + [last])[..|walks|] == walks;
  }

  lemma {:induction false} ReadySnoc(walks: seq<Walk>, last: Walk, env: Environment, prepared: map<string, Client>)
    ensures ReadyAll(walks + [last], env, prepared) <==> ReadyAll(walks, env, prepared) && Ready(last, env, prepared)
  {
    var all := walks + [last];
    assert all[|walks|] == last;
    assert forall i :: 0 <= i < |walks| ==> all[i] == walks[i];
  }

  // ---- The remote instances of built contexts ----

  function Remotes(context: Context): seq<Client>
    decreases context, 1
  {
    if context.instance.Remote? then [context.instance.client] else RemotesAll(context.children)
  }

  function RemotesAll(contexts: seq<Context>): seq<Client>
    decreases contexts, 0
  {
    if contexts == [] then [] else RemotesAll(contexts[..|contexts| - 1]) + Remotes(contexts[|contexts| - 1])
  }

  /** The prepared clients of the folders looked up. */
  function ClientsAt(prepared: map<string, Client>, folders: seq<string>): seq<Client>
    requires forall f :: f in folders ==> f in prepared
  {
    seq(|folders|, i requires 0 <= i < |folders| => prepared[folders[i]])
  }

  predicate AllIn(folders: seq<string>, prepared: map<string, Client>) {
    forall f :: f in folders ==> f in prepared
  }

  lemma {:induction false} ClientsAtConcat(prepared: map<string, Client>, a: seq<string>, b: seq<string>)
    requires AllIn(a, prepared) && AllIn(b, prepared)
    ensures AllIn(a + b, prepared) && ClientsAt(prepared, a + b) == ClientsAt(prepared, a) + ClientsAt(prepared, b)
  {
  }

  lemma {:induction false} RemotesAreThoseLookedUp(context: Context, walk: Walk, prepared: map<string, Client>)
    requires Matches(context, walk, prepared)
    ensures AllIn(LookedUp(walk), prepared) && Remotes(context) == ClientsAt(prepared, LookedUp(walk))
    decreases walk, 1
  {
    if IsNative(walk.info) {
      AllRemotesAreThoseLookedUp(context.children, walk.children, prepared);
    }
  }

  lemma {:induction false} AllRemotesAreThoseLookedUp(
      contexts: seq<Context>, walks: seq<Walk>, prepared: map<string, Client>)
    requires MatchesAll(contexts, walks, prepared)
    ensures AllIn(LookedUpAll(walks), prepared) && RemotesAll(contexts) == ClientsAt(prepared, LookedUpAll(walks))
    decreases walks, 0
  {
    if walks == [] {
    } else {
      var n := |walks| - 1;
      AllRemotesAreThoseLookedUp(contexts[..n], walks[..n], prepared);
      RemotesAreThoseLookedUp(contexts[n], walks[n], prepared);
      ClientsAtConcat(prepared, LookedUpAll(walks[..n]), LookedUp(walks[n]));
    }
  }

  // ---- Coverage: what was prepared is what is looked up ----

  predicate LoadsAll(env: Environment, nodes: seq<Node>) {
    forall n :: n in nodes ==> env.loads(n.record)
  }

  lemma {:induction false} ReadyExactlyWhenAllLoad(plan: Plan, env: Environment, prepared: map<string, Client>)
    requires AllIn(Folders(AdaptedNodes(Preorder(plan))), prepared)
    ensures Ready(Strip(plan), env, prepared) <==> LoadsAll(env, Preorder(plan))
    decreases plan, 1
  {
    var below := PreorderAll(plan.children);
    AdaptedNodesConcat([plan.node], below);
    FirstAdapted(plan.node, below);
    AllReadyExactlyWhenAllLoad(plan.children, env, prepared);
    assert LoadsAll(env, Preorder(plan)) <==> env.loads(plan.node.record) && LoadsAll(env, below);
    assert Strip(plan).children == StripAll(plan.children);
  }

  lemma {:induction false} FirstAdapted(node: Node, below: seq<Node>)
    ensures var folders := Folders(AdaptedNodes([node] + below));
            && (forall f :: f in Folders(AdaptedNodes(below)) ==> f in folders)
            && (!IsNative(node.info) ==> node.record.folder in folders)
  {
    AdaptedNodesConcat([node], below);
    var first, rest := AdaptedNodes([node]), AdaptedNodes(below);
    assert first == AdaptedNodes([]) + (if IsNative(node.info) then [] else [node]);
    assert Folders(first + rest) == Folders(first) + Folders(rest);
    assert !IsNative(node.info) ==> Folders(first)[0] == node.record.folder;
  }

  lemma {:induction false} AllReadyExactlyWhenAllLoad(plans: seq<Plan>, env: Environment, prepared: map<string, Client>)
    requires AllIn(Folders(AdaptedNodes(PreorderAll(plans))), prepared)
    ensures ReadyAll(StripAll(plans), env, prepared) <==> LoadsAll(env, PreorderAll(plans))
    decreases plans, 0
  {
    if plans == [] {
    } else {
      var before, last := plans[..|plans| - 1], plans[|plans| - 1];
      assert plans == before + [last];
      PreparedSnoc(before, last, prepared);
      AllReadyExactlyWhenAllLoad(before, env, prepared);
      ReadyExactlyWhenAllLoad(last, env, prepared);
      LoadsSnoc(env, before, last);
      StripSnoc(before, last);
      ReadySnoc(StripAll(before), Strip(last), env, prepared);
    }
  }

  lemma {:induction false} LoadsSnoc(env: Environment, before: seq<Plan>, last: Plan)
    ensures LoadsAll(env, PreorderAll(before + [last])) <==>
            LoadsAll(env, PreorderAll(before)) && LoadsAll(env, Preorder(last))
  {
    var a, b := PreorderAll(before), Preorder(last);
    assert (before + [last])[..|before|] == before;
    assert LoadsAll(env, a + b) <==> LoadsAll(env, a) && LoadsAll(env, b);
  }

  lemma {:induction false} PreparedSnoc(before: seq<Plan>, last: Plan, prepared: map<string, Client>)
    ensures AllIn(Folders(AdaptedNodes(PreorderAll(before + [last]))), prepared) <==>
            && AllIn(Folders(AdaptedNodes(PreorderAll(before))), prepared)
            && AllIn(Folders(AdaptedNodes(Preorder(last))), prepared)
  {
    CollectedFoldersSnoc(before, last);
  }

  /** One root: with its adapted folders prepared, building can only fail because something does not load. */
  lemma {:induction false} PreparedRootBuilds(
      disk: Disk, env: Environment, prepared: map<string, Client>, root: Node, plan: Plan, depth: nat)
    requires MakeNode(disk, root.path, root.path, root.plugin) == Ok(root)
    requires PlanNode(disk, root, depth) == Ok(plan) && NoDivergentLink(plan)
    requires AllIn(Folders(AdaptedNodes(Preorder(plan))), prepared)
    ensures var built := Build(disk, env, prepared, root.path, root.path, root.plugin, depth);
            && (built.Ok? <==> LoadsAll(env, Preorder(plan)))
            && (built.Ok? ==> Matches(built.value, Strip(plan), prepared))
            && (built.Err? ==> built.error.NotLoaded?)
  {
    RootIsBuiltAlike(disk, root.path, root.plugin);
    SameWalkExactlyWithoutDivergentLinks(disk, plan, root.path, depth);
    PlannedAdaptedAreLeaves(disk, root, depth);
    LookedUpAreCollected(plan);
    BuildFollowsWalk(disk, env, prepared, root.path, root.path, root.plugin, depth);
    ReadyExactlyWhenAllLoad(plan, env, prepared);
  }

  // ---- All roots ----

  /** Building stops at the first root that fails. */
  function BuildRoots(
      disk: Disk, env: Environment, prepared: map<string, Client>, nodes: seq<Node>, depth: nat)
    : Result<seq<Context>, Error>
  {
    if nodes == [] then Ok([])
    else
      match BuildRoots(disk, env, prepared, nodes[..|nodes| - 1], depth)
      case Err(error) => Err(error)
      case Ok(before) =>
        var root := nodes[|nodes| - 1];
        match Build(disk, env, prepared, root.path, root.parent, root.plugin, depth)
        case Err(error) => Err(error)
        case Ok(context) => Ok(before + [context])
  }

  predicate NoDivergentRoot(plans: seq<Plan>) {
    forall i :: 0 <= i < |plans| ==> NoDivergentLink(plans[i])
  }

  /** The nodes are roots, each its own parent. */
  predicate AreRoots(disk: Disk, nodes: seq<Node>) {
    forall n :: n in nodes ==> MakeNode(disk, n.path, n.path, n.plugin) == Ok(n)
  }

  /** What building yields from the plans: it ends for want of loading only, and mirrors the plans when it does not. */
  predicate BuiltFromPlans(
      built: Result<seq<Context>, Error>, plans: seq<Plan>, env: Environment, prepared: map<string, Client>)
  {
    && (built.Ok? <==> LoadsAll(env, PreorderAll(plans)))
    && (built.Ok? ==> MatchesAll(built.value, StripAll(plans), prepared))
    && (built.Err? ==> built.error.NotLoaded?)
  }

  lemma {:induction false} PreparedRootsBuild(
      disk: Disk, env: Environment, prepared: map<string, Client>, nodes: seq<Node>, depth: nat)
    requires AreRoots(disk, nodes)
    requires PlanAll(disk, nodes, depth).Ok? && NoDivergentRoot(PlanAll(disk, nodes, depth).value)
    requires AllIn(Folders(AdaptedNodes(PreorderAll(PlanAll(disk, nodes, depth).value))), prepared)
    ensures BuiltFromPlans(
              BuildRoots(disk, env, prepared, nodes, depth), PlanAll(disk, nodes, depth).value, env, prepared)
    decreases |nodes|
  {
    var plans := PlanAll(disk, nodes, depth).value;
    if nodes == [] {
    } else {
      var root, before, last := nodes[|nodes| - 1], plans[..|plans| - 1], plans[|plans| - 1];
      assert plans == before + [last];
      PlannedNode(disk, root, depth);
      PreparedSnoc(before, last, prepared);
      PreparedRootsBuild(disk, env, prepared, nodes[..|nodes| - 1], depth);
      PreparedRootBuilds(disk, env, prepared, root, last, depth);
      LoadsSnoc(env, before, last);
      var contexts := BuildRoots(disk, env, prepared, nodes[..|nodes| - 1], depth);
      var context := Build(disk, env, prepared, root.path, root.parent, root.plugin, depth);
      if contexts.Ok? && context.Ok? {
        MatchesSnoc(contexts.value, context.value, before, last, prepared);
      }
    }
  }

  lemma {:induction false} PlannedNode(disk: Disk, node: Node, depth: nat)
    requires PlanNode(disk, node, depth).Ok?
    ensures PlanNode(disk, node, depth).value.node == node
  {
  }

  lemma {:induction false} MatchesSnoc(
      contexts: seq<Context>, context: Context, before: seq<Plan>, last: Plan, prepared: map<string, Client>)
    requires MatchesAll(contexts, StripAll(before), prepared) && Matches(context, Strip(last), prepared)
    ensures MatchesAll(contexts + [context], StripAll(before + [last]), prepared)
  {
    StripSnoc(before, last);
  }

  lemma {:induction false} AllRemotesAreThoseCollected(
      contexts: seq<Context>, plans: seq<Plan>, prepared: map<string, Client>)
    requires MatchesAll(contexts, StripAll(plans), prepared)
    requires forall i :: 0 <= i < |plans| ==> AdaptedAreLeaves(plans[i])
    ensures var folders := Folders(AdaptedNodes(PreorderAll(plans)));
            AllIn(folders, prepared) && RemotesAll(contexts) == ClientsAt(prepared, folders)
  {
    AllRemotesAreThoseLookedUp(contexts, StripAll(plans), prepared);
    AllLookedUpAreCollected(plans);
  }

  /** Everything the preparation must have achieved for the collected nodes. */
  ghost predicate FullyPrepared(disk: Disk, prepared: map<string, Client>, nodes: seq<Node>) {
    && AllResolved(disk, nodes)
    && Prepared(prepared, nodes)
    && Distinct(ConnectionNames(AdaptedNodes(nodes)))
  }

  lemma {:induction false} PreparedClientsHaveTheirOwnFolders(
      disk: Disk, prepared: map<string, Client>, nodes: seq<Node>)
    requires FullyPrepared(disk, prepared, nodes)
    ensures OwnFolders(prepared) && AllIn(Folders(AdaptedNodes(nodes)), prepared)
  {
    OneEntryPerAdaptedNode(disk, prepared, nodes);
    forall f | f in prepared ensures prepared[f].spec.folder == f {
      FolderIn(AdaptedNodes(nodes), f);
    }
  }

  function SpecsOfClients(clients: seq<Client>): seq<Spec> {
    seq(|clients|, i requires 0 <= i < |clients| => clients[i].spec)
  }

  lemma {:induction false} ClientsHaveTheirOwnSpecs(disk: Disk, prepared: map<string, Client>, nodes: seq<Node>)
    requires FullyPrepared(disk, prepared, nodes)
    ensures AllIn(Folders(AdaptedNodes(nodes)), prepared)
    ensures SpecsOfClients(ClientsAt(prepared, Folders(AdaptedNodes(nodes)))) == SpecsOf(AdaptedNodes(nodes))
  {
    OneEntryPerAdaptedNode(disk, prepared, nodes);
    var adapted := AdaptedNodes(nodes);
    forall i | 0 <= i < |adapted|
      ensures Folders(adapted)[i] in prepared && prepared[Folders(adapted)[i]].spec == SpecOf(adapted[i])
    {
      assert adapted[i] in adapted;
    }
  }

  /**
   After a full preparation the built contexts mirror the plans, and their remote instances are, one for one and
   in order, the clients of the collected adapted nodes.
   */
  lemma {:induction false} BuiltContextsUseEachPreparedInstanceOnce(
      disk: Disk, env: Environment, prepared: map<string, Client>, nodes: seq<Node>, depth: nat)
    requires AreRoots(disk, nodes)
    requires PlanAll(disk, nodes, depth).Ok? && NoDivergentRoot(PlanAll(disk, nodes, depth).value)
    requires FullyPrepared(disk, prepared, PreorderAll(PlanAll(disk, nodes, depth).value))
    ensures var plans := PlanAll(disk, nodes, depth).value;
            var built := BuildRoots(disk, env, prepared, nodes, depth);
            && BuiltFromPlans(built, plans, env, prepared)
            && (built.Ok? ==>
                  SpecsOfClients(RemotesAll(built.value)) == SpecsOf(AdaptedNodes(PreorderAll(plans))))
  {
    var plans := PlanAll(disk, nodes, depth).value;
    var built := BuildRoots(disk, env, prepared, nodes, depth);
    ClientsHaveTheirOwnSpecs(disk, prepared, PreorderAll(plans));
    PreparedRootsBuild(disk, env, prepared, nodes, depth);
    PlansOfNodes(disk, nodes, depth);
    forall i | 0 <= i < |plans| ensures AdaptedAreLeaves(plans[i]) {
      PlannedAdaptedAreLeaves(disk, nodes[i], depth);
    }
    if built.Ok? {
      AllRemotesAreThoseCollected(built.value, plans, prepared);
    }
  }

  /** Clients of differently named components differ. */
  lemma {:induction false} DistinctNamesMeanDistinctClients(clients: seq<Client>, nodes: seq<Node>)
    requires SpecsOfClients(clients) == SpecsOf(nodes) && Distinct(ConnectionNames(nodes))
    ensures Distinct(clients)
  {
    assert |SpecsOfClients(clients)| == |SpecsOf(nodes)|;
    forall i, j | 0 <= i < j < |clients| ensures clients[i] != clients[j] {
      assert SpecsOfClients(clients)[i] == SpecsOf(nodes)[i] && SpecsOfClients(clients)[j] == SpecsOf(nodes)[j];
      assert ConnectionNames(nodes)[i] != ConnectionNames(nodes)[j];
    }
  }

  // ---- Which error ----

  /**
   An adapted component is first looked up, then loaded; a native one is loaded before its children are built, and
   its first failing child decides.
   */
  lemma {:induction false} ComponentFailsExactly(
      disk: Disk, env: Environment, prepared: map<string, Client>, node: Node, depth: nat)
    ensures var built, folder := BuildNode(disk, env, prepared, node, depth), node.record.folder;
            if IsNative(node.info) then
              && (!env.loads(node.record) ==> built == Err(NotLoaded(folder)))
              && (env.loads(node.record) && depth > 0 ==>
                    var subs := Subcomponents(node.record.slots);
                    var children := BuildChildren(disk, env, prepared, node.record, subs, depth - 1);
                    built == if children.Ok? then Ok(Context(Loaded(folder), children.value)) else Err(children.error))
            else
              && (built == Err(NotPrepared(folder)) <==> folder !in prepared)
              && (built == Err(NotLoaded(folder)) <==> folder in prepared && !env.loads(node.record))
              && (folder in prepared && env.loads(node.record) ==>
                    built == Ok(Context(Remote(prepared[folder]), [])))
  {
  }

  /** When the first k subcomponents can be built and the next one cannot, its error is the result. */
  lemma {:induction false} FirstFailingChildDecides(
      disk: Disk, env: Environment, prepared: map<string, Client>,
      record: ComponentRecord, subs: seq<Subcomponent>, depth: nat, k: nat)
    requires k < |subs| && BuildChildren(disk, env, prepared, record, subs[..k], depth).Ok?
    requires Build(disk, env, prepared, SubcomponentPath(record.folder, subs[k].id), record.folder, subs[k].plugin,
                   depth).Err?
    ensures BuildChildren(disk, env, prepared, record, subs, depth) ==
            Err(Build(disk, env, prepared, SubcomponentPath(record.folder, subs[k].id), record.folder, subs[k].plugin,
                      depth).error)
    decreases |subs|
  {
    var front := subs[..|subs| - 1];
    if k == |front| {
    } else {
      assert front[..k] == subs[..k];
      FirstFailingChildDecides(disk, env, prepared, record, front, depth, k);
    }
  }

  // ---- When a component "was not prepared" ----

  /** Everything the walk visits loads. */
  predicate WalkLoads(walk: Walk, env: Environment) {
    env.loads(walk.record) && WalksLoad(walk.children, env)
  }

  predicate WalksLoad(walks: seq<Walk>, env: Environment) {
    forall i :: 0 <= i < |walks| ==> WalkLoads(walks[i], env)
  }

  /** Somewhere in the walk a component with that folder does not load. */
  predicate Unloadable(walk: Walk, env: Environment, folder: string) {
    (walk.record.folder == folder && !env.loads(walk.record)) || AnyUnloadable(walk.children, env, folder)
  }

  predicate AnyUnloadable(walks: seq<Walk>, env: Environment, folder: string) {
    exists i :: 0 <= i < |walks| && Unloadable(walks[i], env, folder)
  }

  /** The error for a component that does not load names one that the walk visits and that does not load. */
  lemma {:induction false} NotLoadedNamesAComponent(
      disk: Disk, env: Environment, prepared: map<string, Client>,
      path: string, parent: string, plugin: string, depth: nat)
    requires WalkFrom(disk, path, parent, plugin, depth).Ok?
    requires var built := Build(disk, env, prepared, path, parent, plugin, depth);
             built.Err? && built.error.NotLoaded?
    ensures Unloadable(WalkFrom(disk, path, parent, plugin, depth).value, env,
                       Build(disk, env, prepared, path, parent, plugin, depth).error.folder)
    decreases depth, 0
  {
    var node := MakeNode(disk, path, EffectiveParent(path, parent), plugin).value;
    assert Build(disk, env, prepared, path, parent, plugin, depth) == BuildNode(disk, env, prepared, node, depth);
    if IsNative(node.info) && env.loads(node.record) {
      NotLoadedAmongChildren(disk, env, prepared, node.record, Subcomponents(node.record.slots), depth - 1);
    }
  }

  lemma {:induction false} NotLoadedAmongChildren(
      disk: Disk, env: Environment, prepared: map<string, Client>,
      record: ComponentRecord, subs: seq<Subcomponent>, depth: nat)
    requires WalkChildren(disk, record, subs, depth).Ok?
    requires var built := BuildChildren(disk, env, prepared, record, subs, depth);
             built.Err? && built.error.NotLoaded?
    ensures AnyUnloadable(WalkChildren(disk, record, subs, depth).value, env,
                          BuildChildren(disk, env, prepared, record, subs, depth).error.folder)
    decreases depth, 1, |subs|
  {
    var front, s := subs[..|subs| - 1], subs[|subs| - 1];
    var walks, before := WalkChildren(disk, record, subs, depth).value, WalkChildren(disk, record, front, depth).value;
    var folder := BuildChildren(disk, env, prepared, record, subs, depth).error.folder;
    if BuildChildren(disk, env, prepared, record, front, depth).Err? {
      NotLoadedAmongChildren(disk, env, prepared, record, front, depth);
      var i :| 0 <= i < |before| && Unloadable(before[i], env, folder);
      assert walks[i] == before[i];
    } else {
      NotLoadedNamesAComponent(
        disk, env, prepared, SubcomponentPath(record.folder, s.id), record.folder, s.plugin, depth);
      assert Unloadable(walks[|walks| - 1], env, folder);
    }
  }

  /** Without a parent path a component is its own parent; with one, links are followed from that. */
  lemma {:induction false} MissingParentIsThePath(
      disk: Disk, env: Environment, prepared: map<string, Client>,
      path: string, parent: string, plugin: string, depth: nat)
    ensures Build(disk, env, prepared, path, "", plugin, depth) ==
            Build(disk, env, prepared, path, path, plugin, depth)
    ensures parent != "" && Build(disk, env, prepared, path, parent, plugin, depth).Ok? ==>
              Resolve(disk, path, parent, plugin).Ok?
  {
  }

  /** When everything visited loads, building can only end for want of a prepared instance. */
  lemma {:induction false} LoadingWalkLacksOnlyPreparation(
      disk: Disk, env: Environment, prepared: map<string, Client>,
      path: string, parent: string, plugin: string, depth: nat)
    requires WalkFrom(disk, path, parent, plugin, depth).Ok?
    requires WalkLoads(WalkFrom(disk, path, parent, plugin, depth).value, env)
    ensures var built := Build(disk, env, prepared, path, parent, plugin, depth);
            built.Ok? || built.error.NotPrepared?
    decreases depth, 0
  {
    var node := MakeNode(disk, path, EffectiveParent(path, parent), plugin).value;
    if IsNative(node.info) {
      LoadingWalksLackOnlyPreparation(disk, env, prepared, node.record, Subcomponents(node.record.slots), depth - 1);
    }
  }

  lemma {:induction false} LoadingWalksLackOnlyPreparation(
      disk: Disk, env: Environment, prepared: map<string, Client>,
      record: ComponentRecord, subs: seq<Subcomponent>, depth: nat)
    requires WalkChildren(disk, record, subs, depth).Ok?
    requires WalksLoad(WalkChildren(disk, record, subs, depth).value, env)
    ensures var built := BuildChildren(disk, env, prepared, record, subs, depth);
            built.Ok? || built.error.NotPrepared?
    decreases depth, 1, |subs|
  {
    if subs == [] {
    } else {
      var s := subs[|subs| - 1];
      LastWalkLoads(disk, env, record, subs, depth);
      LoadingWalksLackOnlyPreparation(disk, env, prepared, record, subs[..|subs| - 1], depth);
      LoadingWalkLacksOnlyPreparation(
        disk, env, prepared, SubcomponentPath(record.folder, s.id), record.folder, s.plugin, depth);
    }
  }

  lemma {:induction false} LastWalkLoads(
      disk: Disk, env: Environment, record: ComponentRecord, subs: seq<Subcomponent>, depth: nat)
    requires subs != [] && WalkChildren(disk, record, subs, depth).Ok?
    requires WalksLoad(WalkChildren(disk, record, subs, depth).value, env)
    ensures WalkChildren(disk, record, subs[..|subs| - 1], depth).Ok?
    ensures WalksLoad(WalkChildren(disk, record, subs[..|subs| - 1], depth).value, env)
    ensures var s := subs[|subs| - 1];
            var walk := WalkFrom(disk, SubcomponentPath(record.folder, s.id), record.folder, s.plugin, depth);
            walk.Ok? && WalkLoads(walk.value, env)
  {
    var front := WalkChildren(disk, record, subs[..|subs| - 1], depth).value;
    var all := WalkChildren(disk, record, subs, depth).value;
    assert all[|all| - 1] == all[|front|];
    assert forall i :: 0 <= i < |front| ==> front[i] == all[i];
  }

  lemma {:induction false} ReadyWalkIsPrepared(walk: Walk, env: Environment, prepared: map<string, Client>)
    requires Ready(walk, env, prepared)
    ensures AllIn(LookedUp(walk), prepared)
    decreases walk, 1
  {
    if IsNative(walk.info) {
      ReadyWalksArePrepared(walk.children, env, prepared);
    }
  }

  lemma {:induction false} ReadyWalksArePrepared(walks: seq<Walk>, env: Environment, prepared: map<string, Client>)
    requires ReadyAll(walks, env, prepared)
    ensures AllIn(LookedUpAll(walks), prepared)
    decreases walks, 0
  {
    if walks == [] {
    } else {
      ReadyWalksArePrepared(walks[..|walks| - 1], env, prepared);
      ReadyWalkIsPrepared(walks[|walks| - 1], env, prepared);
    }
  }

  /**
   The error itself: when the walk succeeds and everything it visits loads, building a root ends in "was not
   prepared" if and only if a folder looked up is not among those collected and prepared.
   */
  lemma {:induction false} NotPreparedExactlyWhenSomethingIsMissing(
      disk: Disk, env: Environment, prepared: map<string, Client>, collected: seq<Node>,
      path: string, parent: string, plugin: string, depth: nat)
    requires Prepared(prepared, collected) && WalkFrom(disk, path, parent, plugin, depth).Ok?
    requires WalkLoads(WalkFrom(disk, path, parent, plugin, depth).value, env)
    ensures var built := Build(disk, env, prepared, path, parent, plugin, depth);
            var lookedUp := LookedUp(WalkFrom(disk, path, parent, plugin, depth).value);
            (built.Err? && built.error.NotPrepared?) <==>
            exists f :: f in lookedUp && f !in Folders(AdaptedNodes(collected))
  {
    var walk := WalkFrom(disk, path, parent, plugin, depth).value;
    BuildFollowsWalk(disk, env, prepared, path, parent, plugin, depth);
    LoadingWalkLacksOnlyPreparation(disk, env, prepared, path, parent, plugin, depth);
    assert forall f :: f in prepared <==> f in Folders(AdaptedNodes(collected));
    if Ready(walk, env, prepared) {
      ReadyWalkIsPrepared(walk, env, prepared);
    }
  }

  // ---- The depth bound leaves nothing out of the second pass either ----

  lemma {:induction false} DeeperNodesAreEqual(
      disk: Disk, env: Environment, prepared: map<string, Client>, node: Node, depth: nat, deeper: nat)
    requires depth <= deeper && BuildNode(disk, env, prepared, node, depth) != Err(TooDeep)
    ensures BuildNode(disk, env, prepared, node, deeper) == BuildNode(disk, env, prepared, node, depth)
    decreases depth, 0
  {
    var record := node.record;
    if IsNative(node.info) && env.loads(record) {
      DeeperBuiltChildrenAreEqual(disk, env, prepared, record, Subcomponents(record.slots), depth - 1, deeper - 1);
    }
  }

  /** Whenever building ends within a depth, a greater depth gives the same result. */
  lemma {:induction false} DeeperBuildsAreEqual(
      disk: Disk, env: Environment, prepared: map<string, Client>,
      path: string, parent: string, plugin: string, depth: nat, deeper: nat)
    requires depth <= deeper && Build(disk, env, prepared, path, parent, plugin, depth) != Err(TooDeep)
    ensures Build(disk, env, prepared, path, parent, plugin, deeper) ==
            Build(disk, env, prepared, path, parent, plugin, depth)
    decreases depth, 1
  {
    var made := MakeNode(disk, path, EffectiveParent(path, parent), plugin);
    if made.Ok? {
      DeeperNodesAreEqual(disk, env, prepared, made.value, depth, deeper);
    }
  }

  lemma {:induction false} DeeperBuiltChildrenAreEqual(
      disk: Disk, env: Environment, prepared: map<string, Client>,
      record: ComponentRecord, subs: seq<Subcomponent>, depth: nat, deeper: nat)
    requires depth <= deeper && BuildChildren(disk, env, prepared, record, subs, depth) != Err(TooDeep)
    ensures BuildChildren(disk, env, prepared, record, subs, deeper) ==
            BuildChildren(disk, env, prepared, record, subs, depth)
    decreases depth, 2, |subs|
  {
    if subs == [] {
    } else {
      var front, s := subs[..|subs| - 1], subs[|subs| - 1];
      DeeperBuiltChildrenAreEqual(disk, env, prepared, record, front, depth, deeper);
      if BuildChildren(disk, env, prepared, record, front, depth).Ok? {
        DeeperBuildsAreEqual(
          disk, env, prepared, SubcomponentPath(record.folder, s.id), record.folder, s.plugin, depth, deeper);
      }
    }
  }

  // ---- Without that condition the contexts differ from the plan ----

  /** Every record of the walk is the one stored in its folder, and nothing is below an adapted component. */
  predicate ResolvedWalk(disk: Disk, walk: Walk) {
    && disk.stored(walk.record.folder) ==
       Some(StoredComponent(walk.record.id, walk.record.plugin, walk.record.slots))
    && disk.plugins(walk.record.plugin) == Some(walk.info)
    && (!IsNative(walk.info) ==> walk.children == [])
    && ResolvedWalks(disk, walk.children)
  }

  predicate ResolvedWalks(disk: Disk, walks: seq<Walk>) {
    forall i :: 0 <= i < |walks| ==> ResolvedWalk(disk, walks[i])
  }

  lemma {:induction false} ResolvedSnoc(disk: Disk, walks: seq<Walk>, last: Walk)
    requires ResolvedWalks(disk, walks) && ResolvedWalk(disk, last)
    ensures ResolvedWalks(disk, walks + [last])
  {
  }

  lemma {:induction false} WalksAreResolved(disk: Disk, path: string, parent: string, plugin: string, depth: nat)
    requires WalkFrom(disk, path, parent, plugin, depth).Ok?
    ensures ResolvedWalk(disk, WalkFrom(disk, path, parent, plugin, depth).value)
    decreases depth, 0
  {
    MadeNodesAreResolved(disk, path, EffectiveParent(path, parent), plugin);
    var node := MakeNode(disk, path, EffectiveParent(path, parent), plugin).value;
    if IsNative(node.info) {
      ChildWalksAreResolved(disk, node.record, Subcomponents(node.record.slots), depth - 1);
    }
  }

  lemma {:induction false} ChildWalksAreResolved(
      disk: Disk, record: ComponentRecord, subs: seq<Subcomponent>, depth: nat)
    requires WalkChildren(disk, record, subs, depth).Ok?
    ensures ResolvedWalks(disk, WalkChildren(disk, record, subs, depth).value)
    decreases depth, 1, |subs|
  {
    if subs == [] {
    } else {
      var s := subs[|subs| - 1];
      ChildWalksAreResolved(disk, record, subs[..|subs| - 1], depth);
      WalksAreResolved(disk, SubcomponentPath(record.folder, s.id), record.folder, s.plugin, depth);
    }
  }

  lemma {:induction false} PlansAreResolved(disk: Disk, node: Node, depth: nat)
    requires PlanNode(disk, node, depth).Ok? && Resolved(disk, node)
    ensures ResolvedWalk(disk, Strip(PlanNode(disk, node, depth).value))
    decreases depth, 0
  {
    if IsNative(node.info) {
      ChildPlansAreResolved(disk, node, Subcomponents(node.record.slots), depth - 1);
      var plan := PlanNode(disk, node, depth).value;
      assert Strip(plan).children == StripAll(plan.children);
    }
  }

  lemma {:induction false} ChildPlansAreResolved(disk: Disk, node: Node, subs: seq<Subcomponent>, depth: nat)
    requires PlanChildren(disk, node, subs, depth).Ok?
    ensures ResolvedWalks(disk, StripAll(PlanChildren(disk, node, subs, depth).value))
    decreases depth, 1, |subs|
  {
    if subs == [] {
    } else {
      var s := subs[|subs| - 1];
      ChildPlansAreResolved(disk, node, subs[..|subs| - 1], depth);
      MadeNodesAreResolved(disk, SubcomponentPath(node.record.folder, s.id), node.path, s.plugin);
      PlansAreResolved(disk, PlanChild(disk, node, s).value, depth);
      var plans := PlanChildren(disk, node, subs, depth).value;
      var before, last := plans[..|plans| - 1], plans[|plans| - 1];
      assert plans == before + [last];
      StripSnoc(before, last);
      ResolvedSnoc(disk, StripAll(before), Strip(last));
    }
  }

  lemma {:induction false} BuiltMeansWalked(
      disk: Disk, env: Environment, prepared: map<string, Client>,
      path: string, parent: string, plugin: string, depth: nat)
    requires Build(disk, env, prepared, path, parent, plugin, depth).Ok?
    ensures WalkFrom(disk, path, parent, plugin, depth).Ok?
    decreases depth, 0
  {
    var node := MakeNode(disk, path, EffectiveParent(path, parent), plugin).value;
    if IsNative(node.info) {
      BuiltChildrenMeanWalked(disk, env, prepared, node.record, Subcomponents(node.record.slots), depth - 1);
    }
  }

  lemma {:induction false} BuiltChildrenMeanWalked(
      disk: Disk, env: Environment, prepared: map<string, Client>,
      record: ComponentRecord, subs: seq<Subcomponent>, depth: nat)
    requires BuildChildren(disk, env, prepared, record, subs, depth).Ok?
    ensures WalkChildren(disk, record, subs, depth).Ok?
    decreases depth, 1, |subs|
  {
    if subs == [] {
    } else {
      var s := subs[|subs| - 1];
      BuiltChildrenMeanWalked(disk, env, prepared, record, subs[..|subs| - 1], depth);
      BuiltMeansWalked(disk, env, prepared, SubcomponentPath(record.folder, s.id), record.folder, s.plugin, depth);
    }
  }

  /** Each prepared client is that of the folder it is stored under. */
  predicate OwnFolders(prepared: map<string, Client>) {
    forall f :: f in prepared ==> prepared[f].spec.folder == f
  }

  /** A context shows which components it was built from: it matches only one walk. */
  lemma {:induction false} MatchingWalksAreEqual(
      disk: Disk, context: Context, a: Walk, b: Walk, prepared: map<string, Client>)
    requires ResolvedWalk(disk, a) && ResolvedWalk(disk, b) && OwnFolders(prepared)
    requires Matches(context, a, prepared) && Matches(context, b, prepared)
    ensures a == b
  {
    assert a.record.folder == b.record.folder;
    forall i | 0 <= i < |a.children| ensures a.children[i] == b.children[i] {
      MatchingWalksAreEqual(disk, context.children[i], a.children[i], b.children[i], prepared);
    }
    assert a.children == b.children;
  }

  /** With everything prepared and loading, a root is built as planned if and only if it has no divergent link. */
  lemma {:induction false} BuiltAsPlannedExactlyWithoutDivergentLinks(
      disk: Disk, env: Environment, prepared: map<string, Client>, root: Node, plan: Plan, depth: nat)
    requires MakeNode(disk, root.path, root.path, root.plugin) == Ok(root) && PlanNode(disk, root, depth) == Ok(plan)
    requires AllIn(Folders(AdaptedNodes(Preorder(plan))), prepared) && OwnFolders(prepared)
    requires LoadsAll(env, Preorder(plan))
    ensures var built := Build(disk, env, prepared, root.path, root.path, root.plugin, depth);
            built.Ok? && Matches(built.value, Strip(plan), prepared) <==> NoDivergentLink(plan)
  {
    var built := Build(disk, env, prepared, root.path, root.path, root.plugin, depth);
    RootIsBuiltAlike(disk, root.path, root.plugin);
    SameWalkExactlyWithoutDivergentLinks(disk, plan, root.path, depth);
    if NoDivergentLink(plan) {
      PreparedRootBuilds(disk, env, prepared, root, plan, depth);
    } else if built.Ok? && Matches(built.value, Strip(plan), prepared) {
      BuiltMeansWalked(disk, env, prepared, root.path, root.path, root.plugin, depth);
      BuildFollowsWalk(disk, env, prepared, root.path, root.path, root.plugin, depth);
      WalksAreResolved(disk, root.path, root.path, root.plugin, depth);
      PlansAreResolved(disk, root, depth);
      var walk := WalkFrom(disk, root.path, root.path, root.plugin, depth).value;
      MatchingWalksAreEqual(disk, built.value, walk, Strip(plan), prepared);
    }
  }

  predicate BuiltFrom(
      disk: Disk, env: Environment, prepared: map<string, Client>, node: Node, depth: nat, context: Context)
  {
    Build(disk, env, prepared, node.path, node.parent, node.plugin, depth) == Ok(context)
  }

  lemma {:induction false} LastRootIsBuilt(
      disk: Disk, env: Environment, prepared: map<string, Client>, nodes: seq<Node>, depth: nat)
    requires nodes != [] && BuildRoots(disk, env, prepared, nodes, depth).Ok?
    ensures BuildRoots(disk, env, prepared, nodes[..|nodes| - 1], depth).Ok?
    ensures var contexts := BuildRoots(disk, env, prepared, nodes, depth).value;
            && contexts != []
            && contexts[..|contexts| - 1] == BuildRoots(disk, env, prepared, nodes[..|nodes| - 1], depth).value
            && BuiltFrom(disk, env, prepared, nodes[|nodes| - 1], depth, contexts[|contexts| - 1])
  {
  }

  lemma {:induction false} AsManyContextsAsRoots(
      disk: Disk, env: Environment, prepared: map<string, Client>, nodes: seq<Node>, depth: nat)
    requires BuildRoots(disk, env, prepared, nodes, depth).Ok?
    ensures |BuildRoots(disk, env, prepared, nodes, depth).value| == |nodes|
  {
    if nodes == [] {
    } else {
      LastRootIsBuilt(disk, env, prepared, nodes, depth);
      AsManyContextsAsRoots(disk, env, prepared, nodes[..|nodes| - 1], depth);
    }
  }

  /** Context i is the one built from root i. */
  lemma {:induction false} EachContextIsItsRoots(
      disk: Disk, env: Environment, prepared: map<string, Client>, nodes: seq<Node>, depth: nat, i: nat)
    requires BuildRoots(disk, env, prepared, nodes, depth).Ok? && i < |nodes|
    ensures var contexts := BuildRoots(disk, env, prepared, nodes, depth).value;
            |contexts| == |nodes| && BuiltFrom(disk, env, prepared, nodes[i], depth, contexts[i])
    decreases |nodes|
  {
    AsManyContextsAsRoots(disk, env, prepared, nodes, depth);
    LastRootIsBuilt(disk, env, prepared, nodes, depth);
    if i == |nodes| - 1 {
    } else {
      EachContextIsItsRoots(disk, env, prepared, nodes[..|nodes| - 1], depth, i);
    }
  }

  /** All roots succeed and give what was planned. */
  predicate BuiltAsPlanned(built: Result<seq<Context>, Error>, plans: seq<Plan>, prepared: map<string, Client>) {
    built.Ok? && MatchesAll(built.value, StripAll(plans), prepared)
  }

  /** The same for all roots together. */
  lemma {:induction false} RootsBuiltAsPlannedExactlyWithoutDivergentLinks(
      disk: Disk, env: Environment, prepared: map<string, Client>, nodes: seq<Node>, depth: nat)
    requires AreRoots(disk, nodes) && PlanAll(disk, nodes, depth).Ok? && OwnFolders(prepared)
    requires AllIn(Folders(AdaptedNodes(PreorderAll(PlanAll(disk, nodes, depth).value))), prepared)
    requires LoadsAll(env, PreorderAll(PlanAll(disk, nodes, depth).value))
    ensures var plans := PlanAll(disk, nodes, depth).value;
            BuiltAsPlanned(BuildRoots(disk, env, prepared, nodes, depth), plans, prepared) <==> NoDivergentRoot(plans)
  {
    var plans := PlanAll(disk, nodes, depth).value;
    var built := BuildRoots(disk, env, prepared, nodes, depth);
    if NoDivergentRoot(plans) {
      PreparedRootsBuild(disk, env, prepared, nodes, depth);
    } else if BuiltAsPlanned(built, plans, prepared) {
      PlansOfNodes(disk, nodes, depth);
      forall i | 0 <= i < |plans| ensures NoDivergentLink(plans[i]) {
        EachContextIsItsRoots(disk, env, prepared, nodes, depth, i);
        OneOfThePlans(plans, i, env, prepared);
        assert StripAll(plans)[i] == Strip(plans[i]);
        BuiltAsPlannedExactlyWithoutDivergentLinks(disk, env, prepared, nodes[i], plans[i], depth);
      }
    }
  }

  lemma {:induction false} OneOfThePlans(plans: seq<Plan>, i: nat, env: Environment, prepared: map<string, Client>)
    requires i < |plans| && LoadsAll(env, PreorderAll(plans))
    requires AllIn(Folders(AdaptedNodes(PreorderAll(plans))), prepared)
    ensures LoadsAll(env, Preorder(plans[i])) && AllIn(Folders(AdaptedNodes(Preorder(plans[i]))), prepared)
    decreases |plans|
  {
    var before, last := plans[..|plans| - 1], plans[|plans| - 1];
    assert plans == before + [last];
    LoadsSnoc(env, before, last);
    PreparedSnoc(before, last, prepared);
    if i == |before| {
    } else {
      OneOfThePlans(before, i, env, prepared);
    }
  }

  /** The context's own instance is the one for the component at the node. */
  predicate HasInstance(context: Context, node: Node, prepared: map<string, Client>) {
    if IsNative(node.info) then context.instance == Loaded(node.record.folder)
    else node.record.folder in prepared && context.instance == Remote(prepared[node.record.folder])
  }

  /** A built root is the loaded plugin of its own folder, or the client prepared for it. */
  lemma {:induction false} InstanceOfBuiltRoot(
      disk: Disk, env: Environment, prepared: map<string, Client>,
      path: string, plugin: string, depth: nat, context: Context)
    requires Build(disk, env, prepared, path, path, plugin, depth) == Ok(context)
    ensures MakeNode(disk, path, path, plugin).Ok?
    ensures HasInstance(context, MakeNode(disk, path, path, plugin).value, prepared)
  {
    var made := MakeNode(disk, path, EffectiveParent(path, path), plugin);
    assert BuildNode(disk, env, prepared, made.value, depth) == Ok(context);
  }

  // ---- A linked child below a linked component ----

  /**
   A workspace as it lies on disk: the root is a link to cell x, whose only subcomponent is a link to arm y.  The
   folder of arm y can be reached by two texts.
   */
  function LinkedDisk(): Disk {
    Disk(
      (path: string) =>
        if path == "r" then Some(StoredLink("x"))
        else if path == "r/../../cell/x" then
          Some(StoredComponent("p", "Cell", [Slot("s", [Subcomponent("b", "Arm")])]))
        else if path == "r/../../cell/x/subcomponents/b" then Some(StoredLink("y"))
        else if path == "r/../../arm/y" || path == "r/../../cell/x/../../arm/y" then
          Some(StoredComponent("c", "Arm", []))
        else None,
      (path: string) =>
        path in {"r", "r/../../cell/x", "r/../../cell/x/subcomponents/b", "r/../../arm/y",
                 "r/../../cell/x/../../arm/y"},
      (plugin: string) =>
        if plugin == "Cell" then Some(PluginInfo("Cell", "cpp"))
        else if plugin == "Arm" then Some(PluginInfo("Arm", "python"))
        else None)
  }

  function LinkedRoot(): Node {
    Node("r", "r", "Cell", ComponentRecord("p", "Cell", "r/../../cell/x", [Slot("s", [Subcomponent("b", "Arm")])]),
         PluginInfo("Cell", "cpp"))
  }

  function LinkedChild(): Node {
    Node("r/../../cell/x/subcomponents/b", "r", "Arm", ComponentRecord("c", "Arm", "r/../../arm/y", []),
         PluginInfo("Arm", "python"))
  }

  lemma {:induction false} PluginFolders()
    ensures SnakeCase("Cell") == "cell" && SnakeCase("Arm") == "arm"
  {
    assert SnakePrefix("Cell", 1) == "c" && SnakePrefix("Cell", 2) == "ce" && SnakePrefix("Cell", 3) == "cel";
    assert SnakePrefix("Arm", 1) == "a" && SnakePrefix("Arm", 2) == "ar";
  }

  lemma {:induction false} CellOnDisk()
    ensures LinkedPath("r", "Cell", "x") == "r/../../cell/x"
  {
    PluginFolders();
  }

  lemma {:induction false} ArmOnDisk()
    ensures LinkedPath("r", "Arm", "y") == "r/../../arm/y"
  {
    PluginFolders();
  }

  lemma {:induction false} SoughtArmOnDisk()
    ensures LinkedPath("r/../../cell/x", "Arm", "y") == "r/../../cell/x/../../arm/y"
  {
    PluginFolders();
  }

  /** The paths the two passes go through. */
  lemma {:induction false} LinkedPathsOnDisk()
    ensures LinkedPath("r", "Cell", "x") == "r/../../cell/x"
    ensures SubcomponentPath("r/../../cell/x", "b") == "r/../../cell/x/subcomponents/b"
    ensures LinkedPath("r", "Arm", "y") == "r/../../arm/y"
    ensures LinkedPath("r/../../cell/x", "Arm", "y") == "r/../../cell/x/../../arm/y"
  {
    CellOnDisk();
    ArmOnDisk();
    SoughtArmOnDisk();
  }

  lemma {:induction false} LinkedRootIsMade()
    ensures MakeNode(LinkedDisk(), "r", "r", "Cell") == Ok(LinkedRoot())
  {
    LinkedPathsOnDisk();
  }

  lemma {:induction false} LinkedChildIsMade()
    ensures PlanChild(LinkedDisk(), LinkedRoot(), Subcomponent("b", "Arm")) == Ok(LinkedChild())
  {
    LinkedPathsOnDisk();
  }

  /** Collecting takes the linked child from the root's path. */
  lemma {:induction false} LinkedRootIsPlanned(depth: nat)
    requires depth > 0
    ensures PlanNode(LinkedDisk(), LinkedRoot(), depth) == Ok(Plan(LinkedRoot(), [Plan(LinkedChild(), [])]))
  {
    var sub, disk, root := Subcomponent("b", "Arm"), LinkedDisk(), LinkedRoot();
    LanguagesOfLinkedDisk();
    OneSubcomponent(sub);
    LinkedChildIsMade();
    assert PlanNode(disk, LinkedChild(), depth - 1) == Ok(Plan(LinkedChild(), []));
    assert PlanChildren(disk, root, [sub][..0], depth - 1) == Ok([]);
    assert PlanChildren(disk, root, [sub], depth - 1) == Ok([] + [Plan(LinkedChild(), [])]);
    assert Subcomponents(root.record.slots) == [sub];
    assert [] + [Plan(LinkedChild(), [])] == [Plan(LinkedChild(), [])];
  }

  lemma {:induction false} LanguagesOfLinkedDisk()
    ensures IsNative(PluginInfo("Cell", "cpp")) && !IsNative(PluginInfo("Arm", "python"))
  {
    NativeSpellings(PluginInfo("Cell", "cpp"));
    NativeSpellings(PluginInfo("Arm", "python"));
  }

  lemma {:induction false} OneSubcomponent(sub: Subcomponent)
    ensures Subcomponents([Slot("s", [sub])]) == [sub]
  {
    assert Subcomponents([Slot("s", [sub])][..0]) == [];
  }

  lemma {:induction false} SoughtChildIsMade()
    ensures var made := MakeNode(LinkedDisk(), "r/../../cell/x/subcomponents/b", "r/../../cell/x", "Arm");
            && made.Ok? && made.value.info == PluginInfo("Arm", "python")
            && made.value.record.folder == "r/../../cell/x/../../arm/y"
  {
    LinkedPathsOnDisk();
  }

  /** Building takes it from the root's folder, so it seeks a folder that was not prepared. */
  lemma {:induction false} LinkedChildOfLinkedRootIsMissed(env: Environment, prepared: map<string, Client>, depth: nat)
    requires depth > 0 && env.loads(LinkedRoot().record)
    requires Prepared(prepared, Preorder(Plan(LinkedRoot(), [Plan(LinkedChild(), [])])))
    ensures Build(LinkedDisk(), env, prepared, "r", "r", "Cell", depth) ==
            Err(NotPrepared("r/../../cell/x/../../arm/y"))
  {
    LinkedRootIsMade();
    LinkedNodeIsMissed(env, prepared, depth);
  }

  lemma {:induction false} LinkedNodeIsMissed(env: Environment, prepared: map<string, Client>, depth: nat)
    requires depth > 0 && env.loads(LinkedRoot().record)
    requires Prepared(prepared, Preorder(Plan(LinkedRoot(), [Plan(LinkedChild(), [])])))
    ensures BuildNode(LinkedDisk(), env, prepared, LinkedRoot(), depth) ==
            Err(NotPrepared("r/../../cell/x/../../arm/y"))
  {
    LanguagesOfLinkedDisk();
    LinkedRootHasOneSubcomponent();
    LinkedChildrenAreMissed(env, prepared, depth - 1);
  }

  lemma {:induction false} LinkedRootHasOneSubcomponent()
    ensures Subcomponents(LinkedRoot().record.slots) == [Subcomponent("b", "Arm")]
  {
    OneSubcomponent(Subcomponent("b", "Arm"));
  }

  lemma {:induction false} LinkedChildrenAreMissed(env: Environment, prepared: map<string, Client>, depth: nat)
    requires Prepared(prepared, Preorder(Plan(LinkedRoot(), [Plan(LinkedChild(), [])])))
    ensures BuildChildren(LinkedDisk(), env, prepared, LinkedRoot().record, [Subcomponent("b", "Arm")], depth) ==
            Err(NotPrepared("r/../../cell/x/../../arm/y"))
  {
    SoughtChildIsMissed(env, prepared, depth);
    LinkedPathsOnDisk();
    FirstErrorEnds(LinkedDisk(), env, prepared, LinkedRoot().record, Subcomponent("b", "Arm"), depth);
  }

  /** A single subcomponent that cannot be built decides. */
  lemma {:induction false} FirstErrorEnds(
      disk: Disk, env: Environment, prepared: map<string, Client>, record: ComponentRecord, s: Subcomponent, depth: nat)
    requires Build(disk, env, prepared, SubcomponentPath(record.folder, s.id), record.folder, s.plugin, depth).Err?
    ensures BuildChildren(disk, env, prepared, record, [s], depth) ==
            Err(Build(disk, env, prepared, SubcomponentPath(record.folder, s.id), record.folder, s.plugin, depth).error)
  {
    assert BuildChildren(disk, env, prepared, record, [s][..0], depth) == Ok([]);
  }

  lemma {:induction false} SoughtChildIsMissed(env: Environment, prepared: map<string, Client>, depth: nat)
    requires Prepared(prepared, Preorder(Plan(LinkedRoot(), [Plan(LinkedChild(), [])])))
    ensures Build(LinkedDisk(), env, prepared, "r/../../cell/x/subcomponents/b", "r/../../cell/x", "Arm", depth) ==
            Err(NotPrepared("r/../../cell/x/../../arm/y"))
  {
    SoughtChildIsMade();
    LanguagesOfLinkedDisk();
    LinkedChildIsTheOnlyOnePrepared(prepared);
  }

  lemma {:induction false} LinkedChildIsTheOnlyOnePrepared(prepared: map<string, Client>)
    requires Prepared(prepared, Preorder(Plan(LinkedRoot(), [Plan(LinkedChild(), [])])))
    ensures "r/../../cell/x/../../arm/y" !in prepared
  {
    LanguagesOfLinkedDisk();
    var leaf := Plan(LinkedChild(), []);
    assert [leaf][..0] == [] && PreorderAll([leaf]) == [LinkedChild()];
    var nodes := Preorder(Plan(LinkedRoot(), [leaf]));
    assert nodes == [LinkedRoot()] + [LinkedChild()];
    AdaptedNodesConcat([LinkedRoot()], [LinkedChild()]);
    assert AdaptedNodes([LinkedRoot()]) == [] && AdaptedNodes([LinkedChild()]) == [LinkedChild()];
    assert Folders(AdaptedNodes(nodes)) == ["r/../../arm/y"];
    assert |"r/../../cell/x/../../arm/y"| > |"r/../../arm/y"|;
  }
}
