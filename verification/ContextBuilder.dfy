/**
 Planning and building a component tree.  The first pass collects the components below some roots, the second
 walks the tree again on its own and looks adapted components up by folder.  Both resolve links, but they hand
 a component's children different parent paths.
 */
module ContextBuilder {
  import opened Wrappers
  import opened Names
  import opened ExternalProcesses

  // ---- The disk ----

  datatype Subcomponent = Subcomponent(id: string, plugin: string)

  datatype Slot = Slot(name: string, subcomponents: seq<Subcomponent>)

  /** A description file; the slots of a component come in key order. */
  datatype Stored =
    | StoredComponent(id: string, plugin: string, slots: seq<Slot>)
    | StoredLink(target: string)

  /** The description at each path, which folders exist, and the plugin registry. */
  datatype Disk = Disk(
    stored: string -> Option<Stored>,
    present: string -> bool,
    plugins: string -> Option<PluginInfo>
  )

  datatype ComponentRecord = ComponentRecord(id: string, plugin: string, folder: string, slots: seq<Slot>)

  /** `TooDeep` stands for a recursion that has not ended within the given depth. */
  datatype Error =
    | Unreadable(path: string)
    | NoPluginName
    | LinkMissing(path: string)
    | DoublyLinked
    | UnknownPlugin(plugin: string)
    | TooDeep
    | DuplicateConnection
    | NotLaunched(error: LaunchError)
    | NotPrepared(folder: string)
    | NotLoaded(folder: string)

  function SubcomponentPath(folder: string, id: string): string {
    folder + ("/subcomponents/" + id)
  }

  function LinkedPath(parent: string, plugin: string, id: string): string {
    parent + ("/../../" + (SnakeCase(plugin) + ("/" + id)))
  }

  /** Two texts that end in a slash and a part without slashes agree only if both pieces do. */
  lemma {:induction false} LastPartDetermines(a: string, x: string, b: string, y: string)
    requires '/' !in x && '/' !in y && a + ("/" + x) == b + ("/" + y)
    ensures a == b && x == y
  {
    var s, t := a + ("/" + x), b + ("/" + y);
    assert s[|a|] == '/' && t[|b|] == '/';
    forall k | |a| < k < |s| ensures s[k] != '/' {
      assert s[k] == x[k - |a| - 1];
    }
    forall k | |b| < k < |t| ensures t[k] != '/' {
      assert t[k] == y[k - |b| - 1];
    }
    assert |a| == |b|;
    assert s[..|a|] == a && t[..|b|] == b;
    assert s[|a| + 1..] == x && t[|b| + 1..] == y;
  }

  /** A child's path extends its parent's folder; different parents or ids give different paths. */
  lemma {:induction false} ChildPathsDiffer(folder: string, id: string, other: string, otherId: string)
    ensures folder <= SubcomponentPath(folder, id)
    ensures '/' !in id && '/' !in otherId && SubcomponentPath(folder, id) == SubcomponentPath(other, otherId) ==>
              folder == other && id == otherId
  {
    var path := SubcomponentPath(folder, id);
    assert path == (folder + "/subcomponents") + ("/" + id);
    if '/' !in id && '/' !in otherId && path == SubcomponentPath(other, otherId) {
      assert SubcomponentPath(other, otherId) == (other + "/subcomponents") + ("/" + otherId);
      LastPartDetermines(folder + "/subcomponents", id, other + "/subcomponents", otherId);
      AppendIsInjective(folder, other, "/subcomponents");
    }
  }

  /** Links from different parents, of different plugins or to different components lead to different paths. */
  lemma {:induction false} LinkPathsDiffer(
      parent: string, plugin: string, id: string, other: string, otherPlugin: string, otherId: string)
    requires '/' !in id && '/' !in otherId && '/' !in SnakeCase(plugin) && '/' !in SnakeCase(otherPlugin)
    requires LinkedPath(parent, plugin, id) == LinkedPath(other, otherPlugin, otherId)
    ensures parent == other && SnakeCase(plugin) == SnakeCase(otherPlugin) && id == otherId
  {
    var name, otherName := SnakeCase(plugin), SnakeCase(otherPlugin);
    var up, otherUp := parent + "/../..", other + "/../..";
    assert LinkedPath(parent, plugin, id) == (up + ("/" + name)) + ("/" + id);
    assert LinkedPath(other, otherPlugin, otherId) == (otherUp + ("/" + otherName)) + ("/" + otherId);
    LastPartDetermines(up + ("/" + name), id, otherUp + ("/" + otherName), otherId);
    LastPartDetermines(up, name, otherUp, otherName);
    AppendIsInjective(parent, other, "/../..");
  }

  /** A loaded record's folder is the path it was loaded from. */
  function RecordAt(path: string, s: Stored): ComponentRecord
    requires s.StoredComponent?
  {
    ComponentRecord(s.id, s.plugin, path, s.slots)
  }

  function Load(disk: Disk, path: string): Result<ComponentRecord, Error> {
    match disk.stored(path)
    case None => Err(Unreadable(path))
    case Some(s) => if s.StoredLink? then Err(DoublyLinked) else Ok(RecordAt(path, s))
  }

  /** resolve_component: a link is followed once, from the parent path it is given. */
  function Resolve(disk: Disk, path: string, parent: string, plugin: string): Result<ComponentRecord, Error> {
    match disk.stored(path)
    case None => Err(Unreadable(path))
    case Some(StoredLink(target)) =>
      if plugin == "" then Err(NoPluginName)
      else if !disk.present(LinkedPath(parent, plugin, target)) then
        Err(LinkMissing(LinkedPath(parent, plugin, target)))
      else Load(disk, LinkedPath(parent, plugin, target))
    case Some(s) => Ok(RecordAt(path, s))
  }

  datatype Node = Node(path: string, parent: string, plugin: string, record: ComponentRecord, info: PluginInfo)

  function MakeNode(disk: Disk, path: string, parent: string, plugin: string): Result<Node, Error> {
    match Resolve(disk, path, parent, plugin)
    case Err(error) => Err(error)
    case Ok(record) =>
      match disk.plugins(record.plugin)
      case None => Err(UnknownPlugin(record.plugin))
      case Some(info) => Ok(Node(path, parent, plugin, record, info))
  }

  /** A node is made when its component resolves and the plugin its record names is registered. */
  lemma {:induction false} NodeIsMadeExactly(disk: Disk, path: string, parent: string, plugin: string)
    ensures var resolved, made := Resolve(disk, path, parent, plugin), MakeNode(disk, path, parent, plugin);
            && (made.Ok? <==> resolved.Ok? && disk.plugins(resolved.value.plugin).Some?)
            && (made.Ok? ==>
                  && made.value.record == resolved.value && made.value.path == path
                  && made.value.parent == parent && made.value.plugin == plugin)
            && (resolved.Err? ==> made == Err(resolved.error))
            && (resolved.Ok? && made.Err? ==> made == Err(UnknownPlugin(resolved.value.plugin)))
  {
  }

  predicate IsNative(info: PluginInfo) { Lower(info.language) == "cpp" }

  /** Native means C++, in any spelling, and nothing else. */
  lemma {:induction false} NativeSpellings(info: PluginInfo)
    ensures IsNative(info) <==>
              && |info.language| == 3
              && (info.language[0] == 'c' || info.language[0] == 'C')
              && (info.language[1] == 'p' || info.language[1] == 'P')
              && (info.language[2] == 'p' || info.language[2] == 'P')
  {
    var lower := Lower(info.language);
    if |info.language| == 3 {
      LowerAt(info.language, 0);
      LowerAt(info.language, 1);
      LowerAt(info.language, 2);
      assert lower == [lower[0], lower[1], lower[2]];
    }
  }

  /** When a component does not resolve: each error has its own cause. */
  lemma {:induction false} ResolveFailsExactly(disk: Disk, path: string, parent: string, plugin: string)
    ensures var resolved := Resolve(disk, path, parent, plugin);
            var linked := disk.stored(path).Some? && disk.stored(path).value.StoredLink?;
            var folder := if linked then parent + "/../../" + SnakeCase(plugin) + "/" + disk.stored(path).value.target
                          else path;
            && (resolved == Err(NoPluginName) <==> linked && plugin == "")
            && (resolved == Err(LinkMissing(folder)) <==> linked && plugin != "" && !disk.present(folder))
            && (resolved == Err(Unreadable(folder)) <==>
                  disk.stored(folder).None? && (linked ==> plugin != "" && disk.present(folder)))
            && (resolved == Err(DoublyLinked) <==>
                  && linked && plugin != "" && disk.present(folder)
                  && disk.stored(folder).Some? && disk.stored(folder).value.StoredLink?)
            && (resolved.Ok? ==> resolved.value.folder == folder)
            && (resolved.Err? ==>
                  resolved.error in {NoPluginName, LinkMissing(folder), Unreadable(folder), DoublyLinked})
  {
    if disk.stored(path).Some? && disk.stored(path).value.StoredLink? {
      var target := disk.stored(path).value.target;
      assert LinkedPath(parent, plugin, target) == parent + "/../../" + SnakeCase(plugin) + "/" + target;
    }
  }

  /** How many subcomponents the first slots have. */
  function Before(slots: seq<Slot>, i: nat): nat
    requires i <= |slots|
  {
    if i == 0 then 0 else Before(slots, i - 1) + |slots[i - 1].subcomponents|
  }

  /** Subcomponent j of slot i comes after all of the earlier slots and the first j of its own. */
  lemma {:induction false} SubcomponentsInSlotOrder(slots: seq<Slot>, i: nat, j: nat)
    requires i < |slots| && j < |slots[i].subcomponents|
    ensures Before(slots, i) + j < |Subcomponents(slots)| == Before(slots, |slots|)
    ensures Subcomponents(slots)[Before(slots, i) + j] == slots[i].subcomponents[j]
    decreases |slots|
  {
    var n := |slots| - 1;
    var front := slots[..n];
    CountSubcomponents(front);
    BeforeOfPrefix(slots, n, n);
    BeforeOfPrefix(slots, n, i);
    if i == n {
    } else {
      SubcomponentsInSlotOrder(front, i, j);
    }
  }

  lemma {:induction false} CountSubcomponents(slots: seq<Slot>)
    ensures |Subcomponents(slots)| == Before(slots, |slots|)
  {
    if slots == [] {
    } else {
      var n := |slots| - 1;
      CountSubcomponents(slots[..n]);
      BeforeOfPrefix(slots, n, n);
    }
  }

  lemma {:induction false} BeforeOfPrefix(slots: seq<Slot>, n: nat, i: nat)
    requires i <= n <= |slots|
    ensures Before(slots[..n], i) == Before(slots, i)
  {
    if i == 0 {
    } else {
      BeforeOfPrefix(slots, n, i - 1);
    }
  }

  /** The subcomponents of a component: slot by slot in key order, each slot in list order. */
  function Subcomponents(slots: seq<Slot>): seq<Subcomponent> {
    if slots == [] then [] else Subcomponents(slots[..|slots| - 1]) + slots[|slots| - 1].subcomponents
  }

  // ---- First pass: the plan ----

  datatype Plan = Plan(node: Node, children: seq<Plan>)

  /** What collecting from a node visits; nothing below an adapted component is visited. */
  function PlanNode(disk: Disk, node: Node, depth: nat): Result<Plan, Error>
    decreases depth, 0
  {
    if !IsNative(node.info) then Ok(Plan(node, []))
    else if depth == 0 then Err(TooDeep)
    else
      match PlanChildren(disk, node, Subcomponents(node.record.slots), depth - 1)
      case Err(error) => Err(error)
      case Ok(children) => Ok(Plan(node, children))
  }

  /** Children are resolved from the node's own path, which is not the record's folder when the node was a link. */
  function PlanChild(disk: Disk, node: Node, s: Subcomponent): Result<Node, Error> {
    MakeNode(disk, SubcomponentPath(node.record.folder, s.id), node.path, s.plugin)
  }

  function PlanChildren(disk: Disk, node: Node, subs: seq<Subcomponent>, depth: nat): Result<seq<Plan>, Error>
    decreases depth, 1, |subs|
  {
    if subs == [] then Ok([])
    else
      match PlanChildren(disk, node, subs[..|subs| - 1], depth)
      case Err(error) => Err(error)
      case Ok(before) =>
        match PlanChild(disk, node, subs[|subs| - 1])
        case Err(error) => Err(error)
        case Ok(child) =>
          match PlanNode(disk, child, depth)
          case Err(error) => Err(error)
          case Ok(plan) => Ok(before + [plan])
  }

  /** The collected nodes: a node, then those below its children. */
  function Preorder(plan: Plan): seq<Node> {
    [plan.node] + PreorderAll(plan.children)
  }

  function PreorderAll(plans: seq<Plan>): seq<Node> {
    if plans == [] then [] else PreorderAll(plans[..|plans| - 1]) + Preorder(plans[|plans| - 1])
  }

  /** A native component has one planned child per subcomponent, in order, below its own folder. */
  lemma {:induction false} PlannedChildrenAreTheSubcomponents(disk: Disk, node: Node, depth: nat, i: nat)
    requires IsNative(node.info) && PlanNode(disk, node, depth).Ok?
    ensures var children, subs := PlanNode(disk, node, depth).value.children, Subcomponents(node.record.slots);
            && |children| == |subs|
            && (i < |subs| ==>
                  && children[i].node.path == node.record.folder + "/subcomponents/" + subs[i].id
                  && children[i].node.parent == node.path && children[i].node.plugin == subs[i].plugin)
  {
    PlansInOrder(disk, node, Subcomponents(node.record.slots), depth - 1, i);
  }

  lemma {:induction false} PlansInOrder(disk: Disk, node: Node, subs: seq<Subcomponent>, depth: nat, i: nat)
    requires PlanChildren(disk, node, subs, depth).Ok?
    ensures var plans := PlanChildren(disk, node, subs, depth).value;
            && |plans| == |subs|
            && (i < |subs| ==>
                  && plans[i].node.path == node.record.folder + "/subcomponents/" + subs[i].id
                  && plans[i].node.parent == node.path && plans[i].node.plugin == subs[i].plugin)
    decreases |subs|
  {
    if subs == [] {
    } else {
      var front, s := subs[..|subs| - 1], subs[|subs| - 1];
      PlansInOrder(disk, node, front, depth, i);
      LastPlan(disk, node, subs, depth);
      assert SubcomponentPath(node.record.folder, s.id) == node.record.folder + "/subcomponents/" + s.id;
    }
  }

  lemma {:induction false} LastPlan(disk: Disk, node: Node, subs: seq<Subcomponent>, depth: nat)
    requires subs != [] && PlanChildren(disk, node, subs, depth).Ok?
    ensures var plans, s := PlanChildren(disk, node, subs, depth).value, subs[|subs| - 1];
            && plans != [] && PlanChildren(disk, node, subs[..|subs| - 1], depth) == Ok(plans[..|plans| - 1])
            && plans[|plans| - 1].node.path == SubcomponentPath(node.record.folder, s.id)
            && plans[|plans| - 1].node.parent == node.path && plans[|plans| - 1].node.plugin == s.plugin
  {
  }

  /** When the first k subcomponents can be planned and the next one cannot, its error is the result. */
  lemma {:induction false} FirstFailingSubcomponentDecides(
      disk: Disk, node: Node, subs: seq<Subcomponent>, depth: nat, k: nat)
    requires k < |subs| && PlanChildren(disk, node, subs[..k], depth).Ok?
    ensures var child, planned := PlanChild(disk, node, subs[k]), PlanChildren(disk, node, subs, depth);
            && (child.Err? ==> planned == Err(child.error))
            && (child.Ok? && PlanNode(disk, child.value, depth).Err? ==>
                  planned == Err(PlanNode(disk, child.value, depth).error))
    decreases |subs|
  {
    var front := subs[..|subs| - 1];
    if k == |front| {
    } else {
      assert front[..k] == subs[..k];
      FirstFailingSubcomponentDecides(disk, node, front, depth, k);
    }
  }

  /** How many nodes the first plans collect. */
  function Collects(plans: seq<Plan>): nat {
    |PreorderAll(plans)|
  }

  /** A node is collected before everything below it, and the nodes of each child before those of the next. */
  lemma {:induction false} CollectedInOrder(plans: seq<Plan>, i: nat)
    requires i < |plans|
    ensures var start, own := Collects(plans[..i]), Preorder(plans[i]);
            && start + |own| <= |PreorderAll(plans)|
            && PreorderAll(plans)[start..start + |own|] == own
            && own[0] == plans[i].node && own[1..] == PreorderAll(plans[i].children)
    decreases |plans|
  {
    var n := |plans| - 1;
    if i == n {
    } else {
      CollectedInOrder(plans[..n], i);
      assert plans[..n][..i] == plans[..i];
      var start, own, front := Collects(plans[..i]), Preorder(plans[i]), PreorderAll(plans[..n]);
      assert PreorderAll(plans)[start..start + |own|] == front[start..start + |own|];
    }
  }

  // ---- Second pass: the walk ----

  datatype Walk = Walk(record: ComponentRecord, info: PluginInfo, children: seq<Walk>)

  /** build_for_component replaces an empty parent path by the component's own. */
  function EffectiveParent(path: string, parent: string): string {
    if parent == "" then path else parent
  }

  /** The components the second pass visits. */
  function WalkFrom(disk: Disk, path: string, parent: string, plugin: string, depth: nat): Result<Walk, Error>
    decreases depth, 0
  {
    match MakeNode(disk, path, EffectiveParent(path, parent), plugin)
    case Err(error) => Err(error)
    case Ok(node) =>
      if !IsNative(node.info) then Ok(Walk(node.record, node.info, []))
      else if depth == 0 then Err(TooDeep)
      else
        match WalkChildren(disk, node.record, Subcomponents(node.record.slots), depth - 1)
        case Err(error) => Err(error)
        case Ok(children) => Ok(Walk(node.record, node.info, children))
  }

  /** Here children are resolved from the record's folder. */
  function WalkChildren(disk: Disk, record: ComponentRecord, subs: seq<Subcomponent>, depth: nat)
    : Result<seq<Walk>, Error>
    decreases depth, 1, |subs|
  {
    if subs == [] then Ok([])
    else
      match WalkChildren(disk, record, subs[..|subs| - 1], depth)
      case Err(error) => Err(error)
      case Ok(before) =>
        var s := subs[|subs| - 1];
        match WalkFrom(disk, SubcomponentPath(record.folder, s.id), record.folder, s.plugin, depth)
        case Err(error) => Err(error)
        case Ok(walk) => Ok(before + [walk])
  }

  // ---- When the two passes visit the same components ----

  function Strip(plan: Plan): Walk {
    Walk(plan.node.record, plan.node.info,
         seq(|plan.children|, i requires 0 <= i < |plan.children| => Strip(plan.children[i])))
  }

  function StripAll(plans: seq<Plan>): seq<Walk> {
    seq(|plans|, i requires 0 <= i < |plans| => Strip(plans[i]))
  }

  predicate IsLinked(node: Node) {
    node.path != node.record.folder
  }

  /** Both passes resolve this child of the node alike: it is no link, or both start from the same parent path. */
  predicate SameStart(node: Node, child: Node) {
    IsLinked(child) ==> node.path == EffectiveParent(child.path, node.record.folder)
  }

  /** No linked child sits under a component that has two names (a link itself, or the empty path). */
  predicate NoDivergentLink(plan: Plan) {
    forall i :: 0 <= i < |plan.children| ==>
      SameStart(plan.node, plan.children[i].node) && NoDivergentLink(plan.children[i])
  }

  predicate NoDivergentChild(node: Node, plans: seq<Plan>) {
    forall i :: 0 <= i < |plans| ==> SameStart(node, plans[i].node) && NoDivergentLink(plans[i])
  }

  lemma {:induction false} NoDivergentChildSnoc(node: Node, before: seq<Plan>, last: Plan)
    ensures NoDivergentChild(node, before + [last]) <==>
            NoDivergentChild(node, before) && SameStart(node, last.node) && NoDivergentLink(last)
  {
    var plans := before + [last];
    assert plans[|before|] == last;
    assert forall i :: 0 <= i < |before| ==> plans[i] == before[i];
  }

  lemma {:induction false} AppendIsInjective(a: string, b: string, suffix: string)
    requires a + suffix == b + suffix
    ensures a == b
  {
    assert (a + suffix)[..|a|] == a && (b + suffix)[..|b|] == b;
  }

  /** The folder of a resolved component holds that component, so it is its path only when it is no link. */
  lemma {:induction false} ResolvedFolderIsStored(disk: Disk, path: string, parent: string, plugin: string)
    requires Resolve(disk, path, parent, plugin).Ok?
    ensures var record := Resolve(disk, path, parent, plugin).value;
            && disk.stored(record.folder) == Some(StoredComponent(record.id, record.plugin, record.slots))
            && (record.folder == path <==> disk.stored(path).value.StoredComponent?)
  {
  }

  /** The node's record is the one stored in the record's folder, its plugin information the registry's. */
  predicate Resolved(disk: Disk, n: Node) {
    && disk.stored(n.record.folder) == Some(StoredComponent(n.record.id, n.record.plugin, n.record.slots))
    && disk.plugins(n.record.plugin) == Some(n.info)
  }

  lemma {:induction false} MadeNodesAreResolved(disk: Disk, path: string, parent: string, plugin: string)
    requires MakeNode(disk, path, parent, plugin).Ok?
    ensures Resolved(disk, MakeNode(disk, path, parent, plugin).value)
  {
    ResolvedFolderIsStored(disk, path, parent, plugin);
  }

  /** Two resolved nodes with the same folder are the same component. */
  lemma {:induction false} FolderDeterminesRecord(disk: Disk, a: Node, b: Node)
    requires Resolved(disk, a) && Resolved(disk, b) && a.record.folder == b.record.folder
    ensures a.record == b.record && a.info == b.info
  {
  }

  /** One child: the two passes get the same record for it exactly when they start alike. */
  lemma {:induction false} SameRecordExactlyWhenSameStart(disk: Disk, node: Node, s: Subcomponent, child: Node)
    requires PlanChild(disk, node, s) == Ok(child)
    ensures var built := MakeNode(disk, child.path, EffectiveParent(child.path, node.record.folder), s.plugin);
            (built.Ok? && built.value.record == child.record) <==> SameStart(node, child)
  {
    var path, other := child.path, EffectiveParent(child.path, node.record.folder);
    ResolvedFolderIsStored(disk, path, node.path, s.plugin);
    match disk.stored(path)
    case Some(StoredLink(target)) =>
      var suffix := "/../../" + (SnakeCase(s.plugin) + ("/" + target));
      if other != node.path && node.path + suffix == other + suffix {
        AppendIsInjective(node.path, other, suffix);
      }
    case _ =>
  }

  /** The node that building makes for a component, starting from parent path `q`, has the planned record. */
  predicate BuiltAlike(disk: Disk, node: Node, q: string) {
    var built := MakeNode(disk, node.path, EffectiveParent(node.path, q), node.plugin);
    built.Ok? && built.value.record == node.record
  }

  lemma {:induction false} SameWalkExactlyWithoutDivergentLinks(disk: Disk, plan: Plan, q: string, depth: nat)
    requires PlanNode(disk, plan.node, depth) == Ok(plan)
    requires Resolved(disk, plan.node) && BuiltAlike(disk, plan.node, q)
    ensures WalkFrom(disk, plan.node.path, q, plan.node.plugin, depth) == Ok(Strip(plan)) <==> NoDivergentLink(plan)
    decreases depth, 0
  {
    var node := plan.node;
    var walk := WalkFrom(disk, node.path, q, node.plugin, depth);
    var built := MakeNode(disk, node.path, EffectiveParent(node.path, q), node.plugin).value;
    assert built.record == node.record && built.info == node.info;
    assert Strip(plan) == Walk(node.record, node.info, StripAll(plan.children));
    if IsNative(node.info) {
      var subs := Subcomponents(node.record.slots);
      ChildrenWalkAlike(disk, node, subs, plan.children, depth - 1);
      assert NoDivergentLink(plan) <==> NoDivergentChild(node, plan.children);
      var children := WalkChildren(disk, node.record, subs, depth - 1);
      assert walk.Ok? <==> children.Ok?;
      assert walk.Ok? ==> walk.value == Walk(node.record, node.info, children.value);
    } else {
      assert plan.children == [] && walk == Ok(Walk(node.record, node.info, []));
    }
  }

  lemma {:induction false} ChildrenWalkAlike(
      disk: Disk, node: Node, subs: seq<Subcomponent>, plans: seq<Plan>, depth: nat)
    requires PlanChildren(disk, node, subs, depth) == Ok(plans)
    ensures WalkChildren(disk, node.record, subs, depth) == Ok(StripAll(plans)) <==> NoDivergentChild(node, plans)
    decreases depth, 2, |subs|
  {
    if subs != [] {
      var front, s := subs[..|subs| - 1], subs[|subs| - 1];
      var before, last := plans[..|plans| - 1], plans[|plans| - 1];
      assert plans == before + [last];
      ChildrenWalkAlike(disk, node, front, before, depth);
      LastChildWalksAlike(disk, node, s, last, depth);
      assert StripAll(plans) == StripAll(before) + [Strip(last)];
      AppendedListsEqual(disk, node, subs, before, last, depth);
      NoDivergentChildSnoc(node, before, last);
      assert last.node.path == SubcomponentPath(node.record.folder, s.id);
      var walks := WalkChildren(disk, node.record, subs, depth);
      assert walks == Ok(StripAll(plans)) <==> walks == Ok(StripAll(before) + [Strip(last)]);
      assert NoDivergentChild(node, plans) <==> NoDivergentChild(node, before + [last]);
    } else {
      assert StripAll(plans) == [];
    }
  }

  lemma {:induction false} AppendedListsEqual(
      disk: Disk, node: Node, subs: seq<Subcomponent>, before: seq<Plan>, last: Plan, depth: nat)
    requires subs != []
    ensures var s := subs[|subs| - 1];
            WalkChildren(disk, node.record, subs, depth) == Ok(StripAll(before) + [Strip(last)]) <==>
            && WalkChildren(disk, node.record, subs[..|subs| - 1], depth) == Ok(StripAll(before))
            && WalkFrom(disk, SubcomponentPath(node.record.folder, s.id), node.record.folder, s.plugin, depth)
               == Ok(Strip(last))
  {
    var s := subs[|subs| - 1];
    var walks := WalkChildren(disk, node.record, subs[..|subs| - 1], depth);
    var walk := WalkFrom(disk, SubcomponentPath(node.record.folder, s.id), node.record.folder, s.plugin, depth);
    if walks.Ok? && walk.Ok? {
      var all, want := walks.value + [walk.value], StripAll(before) + [Strip(last)];
      if all == want {
        assert all[..|all| - 1] == walks.value && want[..|want| - 1] == StripAll(before);
        assert all[|all| - 1] == walk.value && want[|want| - 1] == Strip(last);
      }
    }
  }

  lemma {:induction false} LastChildWalksAlike(disk: Disk, node: Node, s: Subcomponent, plan: Plan, depth: nat)
    requires PlanChild(disk, node, s) == Ok(plan.node) && PlanNode(disk, plan.node, depth) == Ok(plan)
    ensures WalkFrom(disk, plan.node.path, node.record.folder, s.plugin, depth) == Ok(Strip(plan)) <==>
            SameStart(node, plan.node) && NoDivergentLink(plan)
    decreases depth, 1
  {
    SameRecordExactlyWhenSameStart(disk, node, s, plan.node);
    MadeNodesAreResolved(disk, plan.node.path, node.path, s.plugin);
    if SameStart(node, plan.node) {
      SameWalkExactlyWithoutDivergentLinks(disk, plan, node.record.folder, depth);
    }
  }

  /** A root is planned and built from its own path. */
  lemma {:induction false} RootIsBuiltAlike(disk: Disk, path: string, plugin: string)
    requires MakeNode(disk, path, path, plugin).Ok?
    ensures var root := MakeNode(disk, path, path, plugin).value;
            Resolved(disk, root) && BuiltAlike(disk, root, path)
  {
    MadeNodesAreResolved(disk, path, path, plugin);
  }

  // ---- The adapted components both passes come across ----

  function AdaptedNodes(nodes: seq<Node>): seq<Node> {
    if nodes == [] then []
    else
      var last := nodes[|nodes| - 1];
      AdaptedNodes(nodes[..|nodes| - 1]) + (if IsNative(last.info) then [] else [last])
  }

  function Folders(nodes: seq<Node>): seq<string> {
    seq(|nodes|, i requires 0 <= i < |nodes| => nodes[i].record.folder)
  }

  /** The folders the second pass looks up, in order. */
  function LookedUp(walk: Walk): seq<string>
    decreases walk, 1
  {
    if !IsNative(walk.info) then [walk.record.folder] else LookedUpAll(walk.children)
  }

  function LookedUpAll(walks: seq<Walk>): seq<string>
    decreases walks, 0
  {
    if walks == [] then [] else LookedUpAll(walks[..|walks| - 1]) + LookedUp(walks[|walks| - 1])
  }

  /** Collected adapted nodes keep their order. */
  lemma {:induction false} AdaptedKeepOrder(nodes: seq<Node>, i: nat)
    requires i < |nodes| && !IsNative(nodes[i].info)
    ensures var at := |AdaptedNodes(nodes[..i])|;
            at < |AdaptedNodes(nodes)| && AdaptedNodes(nodes)[at] == nodes[i]
    decreases |nodes|
  {
    var front := nodes[..|nodes| - 1];
    if i == |front| {
    } else {
      AdaptedKeepOrder(front, i);
      assert front[..i] == nodes[..i];
    }
  }

  lemma {:induction false} AdaptedNodesConcat(a: seq<Node>, b: seq<Node>)
    ensures AdaptedNodes(a + b) == AdaptedNodes(a) + AdaptedNodes(b)
    decreases |b|
  {
    if b == [] {
      assert a + b == a;
    } else {
      var c := a + b;
      AdaptedNodesConcat(a, b[..|b| - 1]);
      assert c[..|c| - 1] == a + b[..|b| - 1] && c[|c| - 1] == b[|b| - 1];
    }
  }

  /** Adapted components have no planned children. */
  predicate AdaptedAreLeaves(plan: Plan) {
    && (!IsNative(plan.node.info) ==> plan.children == [])
    && forall i :: 0 <= i < |plan.children| ==> AdaptedAreLeaves(plan.children[i])
  }

  lemma {:induction false} PlannedAdaptedAreLeaves(disk: Disk, node: Node, depth: nat)
    requires PlanNode(disk, node, depth).Ok?
    ensures AdaptedAreLeaves(PlanNode(disk, node, depth).value)
    decreases depth, 0
  {
    if IsNative(node.info) {
      PlannedChildrenAdaptedAreLeaves(disk, node, Subcomponents(node.record.slots), depth - 1);
    }
  }

  lemma {:induction false} PlannedChildrenAdaptedAreLeaves(
      disk: Disk, node: Node, subs: seq<Subcomponent>, depth: nat)
    requires PlanChildren(disk, node, subs, depth).Ok?
    ensures forall plan :: plan in PlanChildren(disk, node, subs, depth).value ==> AdaptedAreLeaves(plan)
    decreases depth, 1, |subs|
  {
    if subs == [] {
    } else {
      PlannedChildrenAdaptedAreLeaves(disk, node, subs[..|subs| - 1], depth);
      PlannedAdaptedAreLeaves(disk, PlanChild(disk, node, subs[|subs| - 1]).value, depth);
    }
  }

  /** Along a plan the second pass looks up exactly the adapted folders the first collected, in the same order. */
  lemma {:induction false} LookedUpAreCollected(plan: Plan)
    requires AdaptedAreLeaves(plan)
    ensures LookedUp(Strip(plan)) == Folders(AdaptedNodes(Preorder(plan)))
    decreases plan, 1
  {
    var node, below := plan.node, PreorderAll(plan.children);
    AdaptedNodesConcat([node], below);
    assert AdaptedNodes([node]) == AdaptedNodes([]) + (if IsNative(node.info) then [] else [node]);
    if IsNative(node.info) {
      AllLookedUpAreCollected(plan.children);
      assert Strip(plan).children == StripAll(plan.children);
      assert [] + AdaptedNodes(below) == AdaptedNodes(below);
    } else {
      assert [node] + [] == [node];
    }
  }

  lemma {:induction false} AllLookedUpAreCollected(plans: seq<Plan>)
    requires forall i :: 0 <= i < |plans| ==> AdaptedAreLeaves(plans[i])
    ensures LookedUpAll(StripAll(plans)) == Folders(AdaptedNodes(PreorderAll(plans)))
    decreases plans, 0
  {
    if plans == [] {
    } else {
      var before, last := plans[..|plans| - 1], plans[|plans| - 1];
      assert plans == before + [last];
      AllLookedUpAreCollected(before);
      LookedUpAreCollected(last);
      CollectedFoldersSnoc(before, last);
      LookedUpSnoc(before, last);
    }
  }

  lemma {:induction false} StripSnoc(before: seq<Plan>, last: Plan)
    ensures StripAll(before + [last]) == StripAll(before) + [Strip(last)]
  {
  }

  lemma {:induction false} LookedUpSnoc(before: seq<Plan>, last: Plan)
    ensures LookedUpAll(StripAll(before + [last])) == LookedUpAll(StripAll(before)) + LookedUp(Strip(last))
  {
    StripSnoc(before, last);
    assert (StripAll(before) + [Strip(last)])[..|before|] == StripAll(before);
  }

  lemma {:induction false} FoldersConcat(a: seq<Node>, b: seq<Node>)
    ensures Folders(a + b) == Folders(a) + Folders(b)
  {
  }

  lemma {:induction false} CollectedFoldersSnoc(before: seq<Plan>, last: Plan)
    ensures Folders(AdaptedNodes(PreorderAll(before + [last]))) ==
            Folders(AdaptedNodes(PreorderAll(before))) + Folders(AdaptedNodes(Preorder(last)))
  {
    assert (before + [last])[..|before|] == before;
    AdaptedNodesConcat(PreorderAll(before), Preorder(last));
    FoldersConcat(AdaptedNodes(PreorderAll(before)), AdaptedNodes(Preorder(last)));
  }

  // ---- A forest of roots ----

  datatype ComponentRoot = ComponentRoot(path: string, plugin: string)

  /** A root is its own parent. */
  function RootNodes(disk: Disk, roots: seq<ComponentRoot>): Result<seq<Node>, Error> {
    if roots == [] then Ok([])
    else
      match RootNodes(disk, roots[..|roots| - 1])
      case Err(error) => Err(error)
      case Ok(before) =>
        var root := roots[|roots| - 1];
        match MakeNode(disk, root.path, root.path, root.plugin)
        case Err(error) => Err(error)
        case Ok(node) => Ok(before + [node])
  }

  function PlanAll(disk: Disk, nodes: seq<Node>, depth: nat): Result<seq<Plan>, Error> {
    if nodes == [] then Ok([])
    else
      match PlanAll(disk, nodes[..|nodes| - 1], depth)
      case Err(error) => Err(error)
      case Ok(before) =>
        match PlanNode(disk, nodes[|nodes| - 1], depth)
        case Err(error) => Err(error)
        case Ok(plan) => Ok(before + [plan])
  }

  predicate AllResolved(disk: Disk, nodes: seq<Node>) {
    forall n :: n in nodes ==> Resolved(disk, n)
  }

  lemma {:induction false} RootNodesAreMade(disk: Disk, roots: seq<ComponentRoot>)
    requires RootNodes(disk, roots).Ok?
    ensures var nodes := RootNodes(disk, roots).value;
            && |nodes| == |roots| && AllResolved(disk, nodes)
            && forall i :: 0 <= i < |roots| ==>
                 MakeNode(disk, roots[i].path, roots[i].path, roots[i].plugin) == Ok(nodes[i])
  {
    if roots == [] {
    } else {
      var root := roots[|roots| - 1];
      RootNodesAreMade(disk, roots[..|roots| - 1]);
      MadeNodesAreResolved(disk, root.path, root.path, root.plugin);
    }
  }

  lemma {:induction false} PlansOfNodes(disk: Disk, nodes: seq<Node>, depth: nat)
    requires PlanAll(disk, nodes, depth).Ok?
    ensures var plans := PlanAll(disk, nodes, depth).value;
            && |plans| == |nodes|
            && forall i :: 0 <= i < |nodes| ==>
                 plans[i].node == nodes[i] && PlanNode(disk, nodes[i], depth) == Ok(plans[i])
  {
    if nodes == [] {
    } else {
      PlansOfNodes(disk, nodes[..|nodes| - 1], depth);
    }
  }

  lemma {:induction false} CollectedAreResolved(disk: Disk, node: Node, depth: nat)
    requires PlanNode(disk, node, depth).Ok? && Resolved(disk, node)
    ensures AllResolved(disk, Preorder(PlanNode(disk, node, depth).value))
    decreases depth, 0
  {
    if IsNative(node.info) {
      CollectedBelowAreResolved(disk, node, Subcomponents(node.record.slots), depth - 1);
    }
  }

  lemma {:induction false} CollectedBelowAreResolved(disk: Disk, node: Node, subs: seq<Subcomponent>, depth: nat)
    requires PlanChildren(disk, node, subs, depth).Ok?
    ensures AllResolved(disk, PreorderAll(PlanChildren(disk, node, subs, depth).value))
    decreases depth, 1, |subs|
  {
    if subs == [] {
    } else {
      var s := subs[|subs| - 1];
      CollectedBelowAreResolved(disk, node, subs[..|subs| - 1], depth);
      MadeNodesAreResolved(disk, SubcomponentPath(node.record.folder, s.id), node.path, s.plugin);
      CollectedAreResolved(disk, PlanChild(disk, node, s).value, depth);
    }
  }

  lemma {:induction false} AllCollectedAreResolved(disk: Disk, nodes: seq<Node>, depth: nat)
    requires PlanAll(disk, nodes, depth).Ok? && AllResolved(disk, nodes)
    ensures AllResolved(disk, PreorderAll(PlanAll(disk, nodes, depth).value))
  {
    if nodes == [] {
    } else {
      AllCollectedAreResolved(disk, nodes[..|nodes| - 1], depth);
      CollectedAreResolved(disk, nodes[|nodes| - 1], depth);
    }
  }

  // ---- The depth bound leaves nothing out ----

  /** Whenever planning ends within a depth, a greater depth gives the same plan. */
  lemma {:induction false} DeeperPlansAreEqual(disk: Disk, node: Node, depth: nat, deeper: nat)
    requires depth <= deeper && PlanNode(disk, node, depth) != Err(TooDeep)
    ensures PlanNode(disk, node, deeper) == PlanNode(disk, node, depth)
    decreases depth, 0
  {
    if IsNative(node.info) {
      DeeperChildrenAreEqual(disk, node, Subcomponents(node.record.slots), depth - 1, deeper - 1);
    }
  }

  lemma {:induction false} DeeperChildrenAreEqual(
      disk: Disk, node: Node, subs: seq<Subcomponent>, depth: nat, deeper: nat)
    requires depth <= deeper && PlanChildren(disk, node, subs, depth) != Err(TooDeep)
    ensures PlanChildren(disk, node, subs, deeper) == PlanChildren(disk, node, subs, depth)
    decreases depth, 1, |subs|
  {
    if subs == [] {
    } else {
      DeeperChildrenAreEqual(disk, node, subs[..|subs| - 1], depth, deeper);
      var child := PlanChild(disk, node, subs[|subs| - 1]);
      if PlanChildren(disk, node, subs[..|subs| - 1], depth).Ok? && child.Ok? {
        DeeperPlansAreEqual(disk, child.value, depth, deeper);
      }
    }
  }

  /** Below the nodes within a set, each child is within it too and ranks lower: no cycle is reached from them. */
  ghost predicate Acyclic(disk: Disk, within: Node -> bool, rank: Node -> nat) {
    forall node: Node, s: Subcomponent ::
      within(node) && IsNative(node.info) && s in Subcomponents(node.record.slots) && PlanChild(disk, node, s).Ok? ==>
      within(PlanChild(disk, node, s).value) && rank(PlanChild(disk, node, s).value) < rank(node)
  }

  /** Where no cycle is reached planning ends: a depth beyond the rank is never too small. */
  lemma {:induction false} AcyclicDisksAreNeverTooDeep(
      disk: Disk, within: Node -> bool, rank: Node -> nat, node: Node, depth: nat)
    requires Acyclic(disk, within, rank) && within(node) && rank(node) < depth
    ensures PlanNode(disk, node, depth) != Err(TooDeep)
    decreases depth, 0
  {
    if IsNative(node.info) {
      AcyclicChildrenAreNeverTooDeep(disk, within, rank, node, Subcomponents(node.record.slots), depth - 1);
    }
  }

  lemma {:induction false} AcyclicChildrenAreNeverTooDeep(
      disk: Disk, within: Node -> bool, rank: Node -> nat, node: Node, subs: seq<Subcomponent>, depth: nat)
    requires Acyclic(disk, within, rank) && within(node) && IsNative(node.info) && rank(node) <= depth
    requires forall s :: s in subs ==> s in Subcomponents(node.record.slots)
    ensures PlanChildren(disk, node, subs, depth) != Err(TooDeep)
    decreases depth, 1, |subs|
  {
    if subs == [] {
    } else {
      var s := subs[|subs| - 1];
      AcyclicChildrenAreNeverTooDeep(disk, within, rank, node, subs[..|subs| - 1], depth);
      if PlanChild(disk, node, s).Ok? {
        AcyclicDisksAreNeverTooDeep(disk, within, rank, PlanChild(disk, node, s).value, depth);
      }
    }
  }

  lemma {:induction false} PlannedChildIsPlanned(
      disk: Disk, node: Node, subs: seq<Subcomponent>, s: Subcomponent, depth: nat)
    requires PlanChildren(disk, node, subs, depth).Ok? && s in subs
    ensures PlanChild(disk, node, s).Ok? && PlanNode(disk, PlanChild(disk, node, s).value, depth).Ok?
  {
    if s == subs[|subs| - 1] {
    } else {
      PlannedChildIsPlanned(disk, node, subs[..|subs| - 1], s, depth);
    }
  }

  /** The least depth, up to the given one, from which on planning succeeds. */
  function LeastDepth(disk: Disk, node: Node, depth: nat): (least: nat)
    ensures least <= depth
  {
    if depth > 0 && PlanNode(disk, node, depth - 1).Ok? then LeastDepth(disk, node, depth - 1) else depth
  }

  lemma {:induction false} LeastDepthSuffices(disk: Disk, node: Node, depth: nat)
    requires PlanNode(disk, node, depth).Ok?
    ensures PlanNode(disk, node, LeastDepth(disk, node, depth)).Ok?
  {
    if depth > 0 && PlanNode(disk, node, depth - 1).Ok? {
      LeastDepthSuffices(disk, node, depth - 1);
    }
  }

  lemma {:induction false} LeastDepthIsLeast(disk: Disk, node: Node, depth: nat, enough: nat)
    requires enough <= depth && PlanNode(disk, node, enough).Ok?
    ensures LeastDepth(disk, node, depth) <= enough
    decreases depth
  {
    if enough == depth {
    } else {
      DeeperPlansAreEqual(disk, node, enough, depth - 1);
      LeastDepthIsLeast(disk, node, depth - 1, enough);
    }
  }

  lemma {:induction false} ChildNeedsLessDepth(disk: Disk, node: Node, s: Subcomponent, depth: nat)
    requires PlanNode(disk, node, depth).Ok? && IsNative(node.info) && s in Subcomponents(node.record.slots)
    ensures PlanChild(disk, node, s).Ok?
    ensures var child := PlanChild(disk, node, s).value;
            PlanNode(disk, child, depth).Ok? && LeastDepth(disk, child, depth) < LeastDepth(disk, node, depth)
  {
    LeastDepthSuffices(disk, node, depth);
    var least := LeastDepth(disk, node, depth);
    ChildIsPlannedWithin(disk, node, s, least);
    var child := PlanChild(disk, node, s).value;
    DeeperPlansAreEqual(disk, child, least - 1, depth);
    LeastDepthIsLeast(disk, child, depth, least - 1);
  }

  lemma {:induction false} ChildIsPlannedWithin(disk: Disk, node: Node, s: Subcomponent, depth: nat)
    requires PlanNode(disk, node, depth).Ok? && IsNative(node.info) && s in Subcomponents(node.record.slots)
    ensures depth > 0 && PlanChild(disk, node, s).Ok?
    ensures PlanNode(disk, PlanChild(disk, node, s).value, depth - 1).Ok?
  {
    PlannedChildIsPlanned(disk, node, Subcomponents(node.record.slots), s, depth - 1);
  }

  /** Conversely, planning succeeds only where no cycle is reached. */
  lemma {:induction false} PlannedMeansAcyclic(disk: Disk, root: Node, depth: nat)
    requires PlanNode(disk, root, depth).Ok?
    ensures exists within: Node -> bool, rank: Node -> nat :: within(root) && Acyclic(disk, within, rank)
  {
    var within := (node: Node) => PlanNode(disk, node, depth).Ok?;
    var rank := (node: Node) => LeastDepth(disk, node, depth);
    forall node: Node, s: Subcomponent |
      within(node) && IsNative(node.info) && s in Subcomponents(node.record.slots) && PlanChild(disk, node, s).Ok?
      ensures within(PlanChild(disk, node, s).value) && rank(PlanChild(disk, node, s).value) < rank(node)
    {
      ChildNeedsLessDepth(disk, node, s, depth);
    }
    assert within(root) && Acyclic(disk, within, rank);
  }
}
