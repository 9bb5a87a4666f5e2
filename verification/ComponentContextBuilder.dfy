/** The builder: it prepares the processes for all adapted components, then builds every context. */
module ComponentContextBuilders {
  import opened Wrappers
  import opened Sequences
  import opened Names
  import opened LaunchProtocol
  import opened ExternalProcesses
  import opened ContextBuilder
  import opened ContextPreparation
  import opened ContextBuilding

  /** One process starts for each language; ports and failures are decided outside. */
  type Launchers = string -> Launcher

  function LaunchGroup(
      nodes: seq<Node>, language: string, home: string, commands: map<string, string>, launchers: Launchers)
    : Result<seq<Client>, LaunchError>
  {
    Launch(language, home, SpecsOf(Group(nodes, language)), commands, launchers(language))
  }

  /**
   From the collected nodes to the command line: when the process of a language starts, it was started with the
   command registered for that language, and serves that language's components in collection order, each with its
   own folder, plugin and connection name.
   */
  lemma {:induction false} EachLanguageGetsItsServer(
      nodes: seq<Node>, language: string, home: string, commands: map<string, string>, launchers: Launchers,
      defaultHome: string)
    requires LaunchGroup(nodes, language, home, commands, launchers).Ok?
    ensures Lower(language) in commands
    ensures exists command ::
              && launchers(language).reachable(command)
              && command != [] && command[0] == commands[Lower(language)]
              && var startup := Parse(command[1..], Initial(defaultHome));
              && startup.Serve? && startup.settings.home == home && startup.settings.port == launchers(language).port
              && ServesNodes(startup.settings, Group(nodes, language))
  {
    var group, launcher := Group(nodes, language), launchers(language);
    LaunchFailsExactly(language, home, SpecsOf(group), commands, launcher);
    LaunchSucceedsExactly(language, home, SpecsOf(group), commands, launcher, defaultHome);
    var command :|
      && Starts(command, commands[Lower(language)], launcher.port, home, SpecsOf(group), defaultHome)
      && launcher.reachable(command);
    var settings := Parse(command[1..], Initial(defaultHome)).settings;
    forall i | 0 <= i < |group|
      ensures settings.paths[i] == group[i].record.folder && settings.plugins[i] == group[i].info.name
      ensures settings.connections[i] == group[i].record.id + "_connection"
    {
      assert SpecsOf(group)[i] == SpecOf(group[i]);
    }
  }

  /** The server's lists name the nodes, one by one. */
  predicate ServesNodes(s: Settings, group: seq<Node>) {
    && |s.paths| == |s.plugins| == |s.connections| == |group|
    && forall i :: 0 <= i < |group| ==>
         && s.paths[i] == group[i].record.folder && s.plugins[i] == group[i].info.name
         && s.connections[i] == group[i].record.id + "_connection"
  }

  /** The process of every language that occurs starts. */
  ghost predicate AllLaunch(
      nodes: seq<Node>, home: string, commands: map<string, string>, launchers: Launchers)
  {
    forall l :: Group(nodes, l) != [] ==> LaunchGroup(nodes, l, home, commands, launchers).Ok?
  }

  /** The connection names are added one by one; None is the exception for a name already taken. */
  method SpecifyGroup(taken: set<string>, group: seq<Node>) returns (names: set<string>, specs: Option<seq<Spec>>)
    ensures specs.Some? <==> Addable(taken, group)
    ensures specs.Some? ==>
              specs.value == SpecsOf(group) && names == taken + (set n | n in group :: ConnectionName(n))
  {
    names := taken;
    var made: seq<Spec> := [];
    for i := 0 to |group|
      invariant made == SpecsOf(group[..i]) && names == taken + set n | n in group[..i] :: ConnectionName(n)
      invariant Distinct(ConnectionNames(group[..i]))
      invariant forall n :: n in group[..i] ==> ConnectionName(n) !in taken
    {
      var name := ConnectionName(group[i]);
      assert group[..i + 1] == group[..i] + [group[i]];
      assert ConnectionNames(group[..i + 1]) == ConnectionNames(group[..i]) + [name];
      if name in names {
        TakenNameIsRefused(taken, group, i);
        return names, None;
      }
      NotNamed(group[..i], name);
      DistinctSnoc(ConnectionNames(group[..i]), name);
      names := names + {name};
      made := made + [SpecOf(group[i])];
    }
    assert group[..|group|] == group;
    return names, Some(made);
  }

  lemma {:induction false} NotNamed(nodes: seq<Node>, name: string)
    requires forall n :: n in nodes ==> ConnectionName(n) != name
    ensures name !in ConnectionNames(nodes)
  {
  }

  lemma {:induction false} TakenNameIsRefused(taken: set<string>, group: seq<Node>, i: nat)
    requires i < |group|
    requires ConnectionName(group[i]) in taken + set n | n in group[..i] :: ConnectionName(n)
    ensures !Addable(taken, group)
  {
    if ConnectionName(group[i]) !in taken {
      var n :| n in group[..i] && ConnectionName(n) == ConnectionName(group[i]);
      var j :| 0 <= j < i && group[j] == n;
      assert ConnectionNames(group)[j] == ConnectionNames(group)[i];
    }
  }

  // ---- Names taken by the groups handled so far ----

  /** The taken names are those of the handled nodes, each of which occurs once. */
  ghost predicate Taken(names: set<string>, nodes: seq<Node>, done: set<string>) {
    forall name :: NameCount(Handled(nodes, done), name) == if name in names then 1 else 0
  }

  lemma {:induction false} NothingTaken(nodes: seq<Node>)
    ensures Taken({}, nodes, {})
  {
    NothingHandled(nodes);
  }

  /** A group can be added exactly when every name then occurs at most once. */
  predicate Addable(taken: set<string>, group: seq<Node>) {
    Distinct(ConnectionNames(group)) && forall n :: n in group ==> ConnectionName(n) !in taken
  }

  lemma {:induction false} AddableGroupIsTaken(
      taken: set<string>, nodes: seq<Node>, done: set<string>, language: string)
    requires language !in done && Taken(taken, nodes, done) && Addable(taken, Group(nodes, language))
    ensures Taken(taken + (set n | n in Group(nodes, language) :: ConnectionName(n)), nodes, done + {language})
    ensures AtMostOnce(Handled(nodes, done + {language}))
  {
    var group := Group(nodes, language);
    DistinctExactlyWhenAtMostOnce(group);
    forall name
      ensures NameCount(Handled(nodes, done + {language}), name) ==
              if name in taken || exists n :: n in group && ConnectionName(n) == name then 1 else 0
    {
      HandledWithGroup(nodes, done, language, name);
      Counted(group, name);
    }
  }

  lemma {:induction false} NotAddableMeansDuplicate(
      taken: set<string>, nodes: seq<Node>, done: set<string>, language: string)
    requires language !in done && Taken(taken, nodes, done) && !Addable(taken, Group(nodes, language))
    ensures !AtMostOnce(Handled(nodes, done + {language}))
    ensures !Distinct(ConnectionNames(AdaptedNodes(nodes)))
  {
    var group := Group(nodes, language);
    DistinctExactlyWhenAtMostOnce(group);
    DistinctExactlyWhenAtMostOnce(AdaptedNodes(nodes));
    if AtMostOnce(AdaptedNodes(nodes)) {
      forall name ensures NameCount(Handled(nodes, done + {language}), name) <= 1 {
        HandledAreAdapted(nodes, done + {language}, name);
      }
    }
    if AtMostOnce(Handled(nodes, done + {language})) {
      forall name ensures NameCount(group, name) + (if name in taken then 1 else 0) <= 1 {
        HandledWithGroup(nodes, done, language, name);
      }
      forall n | n in group ensures ConnectionName(n) !in taken {
        Counted(group, ConnectionName(n));
      }
    }
  }

  lemma {:induction false} TakenAtMostOnce(names: set<string>, nodes: seq<Node>, done: set<string>)
    requires Taken(names, nodes, done)
    ensures AtMostOnce(Handled(nodes, done))
  {
    forall name ensures NameCount(Handled(nodes, done), name) <= 1 {
      assert NameCount(Handled(nodes, done), name) == if name in names then 1 else 0;
    }
  }

  lemma {:induction false} NextKeyIsPreceded(
      keys: set<string>, done: set<string>, left: set<string>, nodes: seq<Node>, language: string)
    requires forall l :: l in keys <==> Group(nodes, l) != []
    requires done !! left && done + left == keys && IsLeast(language, left)
    requires forall l, later :: l in done && later in left ==> Less(l, later)
    ensures Precede(done, nodes, language)
  {
    forall l ensures l in done <==> Group(nodes, l) != [] && Less(l, language) {
      LessIsStrictAndTotal(l, language);
      assert l in keys <==> l in done || l in left;
    }
  }

  lemma {:induction false} GroupFoldersAreDistinct(disk: Disk, nodes: seq<Node>, language: string)
    requires AllResolved(disk, nodes) && Distinct(ConnectionNames(Group(nodes, language)))
    ensures Distinct(Folders(Group(nodes, language)))
  {
    forall n | n in Group(nodes, language) ensures n in nodes {
      GroupInNodes(nodes, language, n);
    }
    DistinctNamesMeanDistinctFolders(disk, Group(nodes, language));
  }

  lemma {:induction false} OneMoreStored(
      before: map<string, Client>, now: map<string, Client>, group: seq<Node>, language: string, index: nat)
    requires index < |group| && Distinct(Folders(group)) && GroupAdded(before, now, group[..index], language)
    ensures GroupAdded(before, now[group[index].record.folder := Client(language, index, SpecOf(group[index]))],
                       group[..index + 1], language)
  {
    var folder := group[index].record.folder;
    var after := now[folder := Client(language, index, SpecOf(group[index]))];
    assert Folders(group[..index + 1]) == Folders(group[..index]) + [folder];
    OneMoreServed(now, after, group, language, index);
  }

  lemma {:induction false} OneMoreServed(
      now: map<string, Client>, after: map<string, Client>, group: seq<Node>, language: string, index: nat)
    requires index < |group| && Distinct(Folders(group)) && Served(now, group[..index], language)
    requires after == now[group[index].record.folder := Client(language, index, SpecOf(group[index]))]
    ensures Served(after, group[..index + 1], language)
  {
    forall i | 0 <= i < index ensures HasClient(after, group[i], language, i) {
      assert Folders(group)[i] != Folders(group)[index];
      assert HasClient(now, group[..index][i], language, i);
    }
  }

  /** With every language handled, the connection names are distinct. */
  lemma {:induction false} AllTakenMeansDistinct(names: set<string>, nodes: seq<Node>, done: set<string>)
    requires Taken(names, nodes, done) && AllLanguages(nodes, done)
    ensures Distinct(ConnectionNames(AdaptedNodes(nodes)))
  {
    AllHandled(nodes, done);
    DistinctExactlyWhenAtMostOnce(AdaptedNodes(nodes));
  }

  lemma {:induction false} GroupsOfAllLanguages(nodes: seq<Node>, done: set<string>)
    requires forall l :: l in done <==> Group(nodes, l) != []
    ensures AllLanguages(nodes, done)
  {
    forall n | n in nodes && !IsNative(n.info) ensures LanguageOf(n) in done {
      HandledMembers(nodes, done, n);
    }
  }

  // ---- Preparing everything ----

  lemma {:induction false} NothingPrepared(nodes: seq<Node>)
    ensures PreparedFor(map[], nodes, {})
  {
    NothingHandled(nodes);
  }

  /** What a failure of the preparation means. */
  ghost predicate FailsFor(
      error: Error, nodes: seq<Node>, home: string, commands: map<string, string>, launchers: Launchers)
  {
    match error
    case DuplicateConnection => !Distinct(ConnectionNames(AdaptedNodes(nodes)))
    case NotLaunched(e) =>
      exists l :: Group(nodes, l) != [] && LaunchGroup(nodes, l, home, commands, launchers) == Err(e)
    case _ => false
  }

  /** `done` are the languages that come before the given one in key order. */
  ghost predicate Precede(done: set<string>, nodes: seq<Node>, language: string) {
    forall l :: l in done <==> Group(nodes, l) != [] && Less(l, language)
  }

  /** The preparation got through the earlier languages and failed at this one. */
  ghost predicate FailsAt(
      error: Error, nodes: seq<Node>, done: set<string>, language: string,
      home: string, commands: map<string, string>, launchers: Launchers)
  {
    && Group(nodes, language) != [] && Precede(done, nodes, language)
    && (forall l :: l in done ==> LaunchGroup(nodes, l, home, commands, launchers).Ok?)
    && AtMostOnce(Handled(nodes, done))
    && match error
       case DuplicateConnection => !AtMostOnce(Handled(nodes, done + {language}))
       case NotLaunched(e) =>
         && AtMostOnce(Handled(nodes, done + {language}))
         && LaunchGroup(nodes, language, home, commands, launchers) == Err(e)
       case _ => false
  }

  /** The first language in key order that fails decides the error, and exactly the earlier ones are prepared. */
  ghost predicate FailsFirst(
      error: Error, prepared: map<string, Client>, nodes: seq<Node>,
      home: string, commands: map<string, string>, launchers: Launchers)
  {
    exists done: set<string>, language: string ::
      FailsAt(error, nodes, done, language, home, commands, launchers) && PreparedFor(prepared, nodes, done)
  }

  lemma {:induction false} HandledGrows(nodes: seq<Node>, done: set<string>, more: set<string>, name: string)
    requires done <= more
    ensures NameCount(Handled(nodes, done), name) <= NameCount(Handled(nodes, more), name)
  {
    if nodes == [] {
    } else {
      var front, last := nodes[..|nodes| - 1], nodes[|nodes| - 1];
      HandledGrows(front, done, more, name);
      NameCountAppend(Handled(front, done), last, !IsNative(last.info) && LanguageOf(last) in done, name);
      NameCountAppend(Handled(front, more), last, !IsNative(last.info) && LanguageOf(last) in more, name);
    }
  }

  lemma {:induction false} EarlierLanguageDoesNotFail(
      a: Error, b: Error, nodes: seq<Node>, doneA: set<string>, doneB: set<string>, first: string, second: string,
      home: string, commands: map<string, string>, launchers: Launchers)
    requires FailsAt(a, nodes, doneA, first, home, commands, launchers)
    requires FailsAt(b, nodes, doneB, second, home, commands, launchers)
    ensures !Less(first, second)
  {
    if Less(first, second) {
      forall l | l in doneA + {first} ensures l in doneB {
        if l in doneA {
          LessIsTransitive(l, first, second);
        }
      }
      forall name ensures NameCount(Handled(nodes, doneA + {first}), name) <= 1 {
        HandledGrows(nodes, doneA + {first}, doneB, name);
      }
      assert false;
    }
  }

  /** The error is determined: no two can both be the first. */
  lemma {:induction false} FirstFailureIsUnique(
      a: Error, b: Error, nodes: seq<Node>, doneA: set<string>, doneB: set<string>, first: string, second: string,
      home: string, commands: map<string, string>, launchers: Launchers)
    requires FailsAt(a, nodes, doneA, first, home, commands, launchers)
    requires FailsAt(b, nodes, doneB, second, home, commands, launchers)
    ensures a == b && doneA == doneB && first == second
  {
    EarlierLanguageDoesNotFail(a, b, nodes, doneA, doneB, first, second, home, commands, launchers);
    EarlierLanguageDoesNotFail(b, a, nodes, doneB, doneA, second, first, home, commands, launchers);
    LessIsStrictAndTotal(first, second);
    assert doneA == doneB;
  }

  // ---- Collecting slot by slot ----

  lemma {:induction false} FirstSlotsAreAPrefix(slots: seq<Slot>, n: nat)
    requires n <= |slots|
    ensures Subcomponents(slots[..n]) <= Subcomponents(slots)
    decreases |slots|
  {
    if n == |slots| {
      assert slots[..n] == slots;
    } else {
      var front := slots[..|slots| - 1];
      assert front[..n] == slots[..n];
      FirstSlotsAreAPrefix(front, n);
    }
  }

  /** The subcomponents of the first i slots and the first j of the next. */
  function Visited(slots: seq<Slot>, i: nat, j: nat): seq<Subcomponent>
    requires i < |slots| && j <= |slots[i].subcomponents|
  {
    Subcomponents(slots[..i]) + slots[i].subcomponents[..j]
  }

  lemma {:induction false} VisitedIsAPrefix(slots: seq<Slot>, i: nat, j: nat)
    requires i < |slots| && j <= |slots[i].subcomponents|
    ensures Visited(slots, i, j) <= Subcomponents(slots)
  {
    FirstSlotsAreAPrefix(slots, i + 1);
    assert slots[..i + 1][..i] == slots[..i];
  }

  lemma {:induction false} PlanErrorStays(
      disk: Disk, node: Node, some: seq<Subcomponent>, subs: seq<Subcomponent>, depth: nat)
    requires some <= subs && PlanChildren(disk, node, some, depth).Err?
    ensures PlanChildren(disk, node, subs, depth) == PlanChildren(disk, node, some, depth)
    decreases |subs|
  {
    if some == subs {
    } else {
      PlanErrorStays(disk, node, some, subs[..|subs| - 1], depth);
    }
  }

  function Collected(nodes: seq<Node>, plan: Result<Plan, Error>): Result<seq<Node>, Error> {
    match plan
    case Err(error) => Err(error)
    case Ok(p) => Ok(nodes + Preorder(p))
  }

  /** The collection after some of the node's subcomponents. */
  function Extended(disk: Disk, node: Node, start: seq<Node>, subs: seq<Subcomponent>, depth: nat)
    : Result<seq<Node>, Error>
  {
    match PlanChildren(disk, node, subs, depth)
    case Err(error) => Err(error)
    case Ok(plans) => Ok(start + PreorderAll(plans))
  }

  /** The plan of one more subcomponent. */
  function SubPlan(disk: Disk, node: Node, s: Subcomponent, depth: nat): Result<Plan, Error> {
    match PlanChild(disk, node, s)
    case Err(error) => Err(error)
    case Ok(child) => PlanNode(disk, child, depth)
  }

  function CollectedChild(disk: Disk, node: Node, all: seq<Node>, s: Subcomponent, depth: nat)
    : Result<seq<Node>, Error>
  {
    Collected(all, SubPlan(disk, node, s, depth))
  }

  lemma {:induction false} PlanChildrenSnoc(
      disk: Disk, node: Node, subs: seq<Subcomponent>, s: Subcomponent, depth: nat)
    requires PlanChildren(disk, node, subs, depth).Ok?
    ensures PlanChildren(disk, node, subs + [s], depth) ==
            match SubPlan(disk, node, s, depth)
            case Err(error) => Err(error)
            case Ok(plan) => Ok(PlanChildren(disk, node, subs, depth).value + [plan])
  {
    assert (subs + [s])[..|subs|] == subs;
  }

  lemma {:induction false} ExtendedSnoc(
      disk: Disk, node: Node, start: seq<Node>, all: seq<Node>, subs: seq<Subcomponent>, s: Subcomponent, depth: nat)
    requires Extended(disk, node, start, subs, depth) == Ok(all)
    ensures Extended(disk, node, start, subs + [s], depth) == CollectedChild(disk, node, all, s, depth)
  {
    PlanChildrenSnoc(disk, node, subs, s, depth);
    var plan := SubPlan(disk, node, s, depth);
    if plan.Ok? {
      CollectedSnoc(start, PlanChildren(disk, node, subs, depth).value, plan.value);
    }
  }

  lemma {:induction false} CollectedSnoc(start: seq<Node>, plans: seq<Plan>, plan: Plan)
    ensures start + PreorderAll(plans + [plan]) == (start + PreorderAll(plans)) + Preorder(plan)
  {
    PreorderSnoc(plans, plan);
  }

  /** Collecting one more subcomponent extends the collection or ends it with its own error. */
  lemma {:induction false} OneMoreSubcomponent(
      disk: Disk, node: Node, start: seq<Node>, all: seq<Node>, slots: seq<Slot>, i: nat, j: nat, depth: nat)
    requires i < |slots| && j < |slots[i].subcomponents|
    requires Extended(disk, node, start, Visited(slots, i, j), depth) == Ok(all)
    ensures var more := CollectedChild(disk, node, all, slots[i].subcomponents[j], depth);
            && (more.Ok? ==> Extended(disk, node, start, Visited(slots, i, j + 1), depth) == more)
            && (more.Err? ==> Extended(disk, node, start, Subcomponents(slots), depth) == more)
  {
    var s := slots[i].subcomponents[j];
    assert Visited(slots, i, j + 1) == Visited(slots, i, j) + [s];
    ExtendedSnoc(disk, node, start, all, Visited(slots, i, j), s, depth);
    if CollectedChild(disk, node, all, s, depth).Err? {
      VisitedIsAPrefix(slots, i, j + 1);
      PlanErrorStays(disk, node, Visited(slots, i, j + 1), Subcomponents(slots), depth);
    }
  }

  lemma {:induction false} CollectedNative(disk: Disk, node: Node, nodes: seq<Node>, depth: nat)
    requires IsNative(node.info) && depth > 0
    ensures Collected(nodes, PlanNode(disk, node, depth)) ==
            Extended(disk, node, nodes + [node], Subcomponents(node.record.slots), depth - 1)
  {
    var plans := PlanChildren(disk, node, Subcomponents(node.record.slots), depth - 1);
    if plans.Ok? {
      assert nodes + ([node] + PreorderAll(plans.value)) == nodes + [node] + PreorderAll(plans.value);
    }
  }

  lemma {:induction false} SlotDone(slots: seq<Slot>, i: nat)
    requires i < |slots|
    ensures Visited(slots, i, 0) == Subcomponents(slots[..i])
    ensures Visited(slots, i, |slots[i].subcomponents|) == Subcomponents(slots[..i + 1])
  {
    assert slots[..i + 1][..i] == slots[..i];
  }

  lemma {:induction false} PreorderSnoc(plans: seq<Plan>, plan: Plan)
    ensures PreorderAll(plans + [plan]) == PreorderAll(plans) + Preorder(plan)
  {
    assert (plans + [plan])[..|plans|] == plans;
  }

  lemma {:induction false} CollectedAdapted(disk: Disk, node: Node, nodes: seq<Node>, depth: nat)
    requires !IsNative(node.info)
    ensures Collected(nodes, PlanNode(disk, node, depth)) == Ok(nodes + [node])
  {
    assert Preorder(Plan(node, [])) == [node] + [] == [node];
  }

  lemma {:induction false} NothingExtended(disk: Disk, node: Node, start: seq<Node>, slots: seq<Slot>, depth: nat)
    ensures Extended(disk, node, start, Subcomponents(slots[..0]), depth) == Ok(start)
  {
    assert start + [] == start;
  }

  lemma {:induction false} PlanAllErrorStays(disk: Disk, some: seq<Node>, nodes: seq<Node>, depth: nat)
    requires some <= nodes && PlanAll(disk, some, depth).Err?
    ensures PlanAll(disk, nodes, depth) == PlanAll(disk, some, depth)
    decreases |nodes|
  {
    if some == nodes {
    } else {
      PlanAllErrorStays(disk, some, nodes[..|nodes| - 1], depth);
    }
  }

  // ---- Building slot by slot ----

  lemma {:induction false} BuildErrorStays(
      disk: Disk, env: Environment, prepared: map<string, Client>, record: ComponentRecord,
      some: seq<Subcomponent>, subs: seq<Subcomponent>, depth: nat)
    requires some <= subs && BuildChildren(disk, env, prepared, record, some, depth).Err?
    ensures BuildChildren(disk, env, prepared, record, subs, depth) ==
            BuildChildren(disk, env, prepared, record, some, depth)
    decreases |subs|
  {
    if some == subs {
    } else {
      BuildErrorStays(disk, env, prepared, record, some, subs[..|subs| - 1], depth);
    }
  }

  /** Building one more subcomponent extends the children or ends the building with its own error. */
  lemma {:induction false} OneMoreContext(
      disk: Disk, env: Environment, prepared: map<string, Client>, record: ComponentRecord,
      i: nat, j: nat, before: seq<Context>, depth: nat)
    requires i < |record.slots| && j < |record.slots[i].subcomponents|
    requires BuildChildren(disk, env, prepared, record, Visited(record.slots, i, j), depth) == Ok(before)
    ensures var s := record.slots[i].subcomponents[j];
            var path := SubcomponentPath(record.folder, s.id);
            var one := Build(disk, env, prepared, path, record.folder, s.plugin, depth);
            && (one.Ok? ==>
                  BuildChildren(disk, env, prepared, record, Visited(record.slots, i, j + 1), depth) ==
                  Ok(before + [one.value]))
            && (one.Err? ==>
                  BuildChildren(disk, env, prepared, record, Subcomponents(record.slots), depth) == Err(one.error))
  {
    var slots := record.slots;
    var seen, s := Visited(slots, i, j + 1), slots[i].subcomponents[j];
    assert seen[..|seen| - 1] == Visited(slots, i, j) && seen[|seen| - 1] == s;
    if BuildChildren(disk, env, prepared, record, seen, depth).Err? {
      VisitedIsAPrefix(slots, i, j + 1);
      BuildErrorStays(disk, env, prepared, record, seen, Subcomponents(slots), depth);
    }
  }

  lemma {:induction false} BuildRootsErrorStays(
      disk: Disk, env: Environment, prepared: map<string, Client>, some: seq<Node>, nodes: seq<Node>, depth: nat)
    requires some <= nodes && BuildRoots(disk, env, prepared, some, depth).Err?
    ensures BuildRoots(disk, env, prepared, nodes, depth) == BuildRoots(disk, env, prepared, some, depth)
    decreases |nodes|
  {
    if some == nodes {
    } else {
      BuildRootsErrorStays(disk, env, prepared, some, nodes[..|nodes| - 1], depth);
    }
  }

  lemma {:induction false} RootNodesErrorStays(disk: Disk, some: seq<ComponentRoot>, roots: seq<ComponentRoot>)
    requires some <= roots && RootNodes(disk, some).Err?
    ensures RootNodes(disk, roots) == RootNodes(disk, some)
    decreases |roots|
  {
    if some == roots {
    } else {
      RootNodesErrorStays(disk, some, roots[..|roots| - 1]);
    }
  }

  lemma {:induction false} RootNodesAreRoots(disk: Disk, roots: seq<ComponentRoot>)
    requires RootNodes(disk, roots).Ok?
    ensures AreRoots(disk, RootNodes(disk, roots).value) && AllResolved(disk, RootNodes(disk, roots).value)
  {
    RootNodesAreMade(disk, roots);
  }

  class ComponentContextBuilder {
    const disk: Disk
    const env: Environment
    const launchers: Launchers
    const home: string
    const registry: ExternalComponentProcessRegistry
    var adaptedComponents: map<string, Client>

    constructor (
        disk: Disk, env: Environment, launchers: Launchers, home: string, registry: ExternalComponentProcessRegistry)
      ensures this.disk == disk && this.env == env && this.launchers == launchers
      ensures this.home == home && this.registry == registry && adaptedComponents == map[]
    {
      this.disk, this.env, this.launchers := disk, env, launchers;
      this.home, this.registry, adaptedComponents := home, registry, map[];
    }

    /** Appends the node and, for a native one, everything below it. */
    method CollectComponentNodes(node: Node, nodes: seq<Node>, depth: nat) returns (collected: Result<seq<Node>, Error>)
      ensures collected == Collected(nodes, PlanNode(disk, node, depth))
      decreases depth, 0
    {
      if !IsNative(node.info) {
        CollectedAdapted(disk, node, nodes, depth);
        return Ok(nodes + [node]);
      }
      if depth == 0 {
        return Err(TooDeep);
      }
      CollectedNative(disk, node, nodes, depth);
      ghost var start := nodes + [node];
      var all := nodes + [node];
      var slots := node.record.slots;
      NothingExtended(disk, node, start, slots, depth - 1);
      for i := 0 to |slots|
        invariant Extended(disk, node, start, Subcomponents(slots[..i]), depth - 1) == Ok(all)
      {
        var grown := CollectSlot(node, i, start, all, depth - 1);
        if grown.Err? {
          return grown;
        }
        all := grown.value;
      }
      assert slots[..|slots|] == slots;
      return Ok(all);
    }

    /** The inner loop, over one slot. */
    method CollectSlot(node: Node, i: nat, ghost start: seq<Node>, nodes: seq<Node>, depth: nat)
      returns (grown: Result<seq<Node>, Error>)
      requires i < |node.record.slots|
      requires Extended(disk, node, start, Subcomponents(node.record.slots[..i]), depth) == Ok(nodes)
      ensures grown.Ok? ==>
                Extended(disk, node, start, Subcomponents(node.record.slots[..i + 1]), depth) == grown
      ensures grown.Err? ==> Extended(disk, node, start, Subcomponents(node.record.slots), depth) == grown
      decreases depth, 2
    {
      var slots, all := node.record.slots, nodes;
      SlotDone(slots, i);
      for j := 0 to |slots[i].subcomponents|
        invariant Extended(disk, node, start, Visited(slots, i, j), depth) == Ok(all)
      {
        OneMoreSubcomponent(disk, node, start, all, slots, i, j, depth);
        var below := CollectSubcomponent(node, slots[i].subcomponents[j], all, depth);
        if below.Err? {
          return below;
        }
        all := below.value;
      }
      return Ok(all);
    }

    method CollectSubcomponent(node: Node, s: Subcomponent, nodes: seq<Node>, depth: nat)
      returns (collected: Result<seq<Node>, Error>)
      ensures collected == CollectedChild(disk, node, nodes, s, depth)
      decreases depth, 1
    {
      var child := MakeNode(disk, SubcomponentPath(node.record.folder, s.id), node.path, s.plugin);
      if child.Err? {
        return Err(child.error);
      }
      collected := CollectComponentNodes(child.value, nodes, depth);
    }

    /** Puts the clients of one group under the folders of its components. */
    method StoreGroup(group: seq<Node>, language: string, clients: seq<Client>)
      requires clients == Clients(language, SpecsOf(group)) && Distinct(Folders(group))
      modifies this`adaptedComponents
      ensures GroupAdded(old(adaptedComponents), adaptedComponents, group, language)
    {
      for index := 0 to |group|
        invariant GroupAdded(old(adaptedComponents), adaptedComponents, group[..index], language)
      {
        OneMoreStored(old(adaptedComponents), adaptedComponents, group, language, index);
        adaptedComponents := adaptedComponents[group[index].record.folder := clients[index]];
      }
      assert group[..|group|] == group;
    }

    /** Collects below every root, in order. */
    method CollectAll(roots: seq<Node>, depth: nat) returns (collected: Result<seq<Node>, Error>)
      ensures var plans := PlanAll(disk, roots, depth);
              collected == if plans.Ok? then Ok(PreorderAll(plans.value)) else Err(plans.error)
    {
      var nodes: seq<Node> := [];
      ghost var plans: seq<Plan> := [];
      for i := 0 to |roots|
        invariant PlanAll(disk, roots[..i], depth) == Ok(plans) && nodes == PreorderAll(plans)
      {
        assert roots[..i + 1][..i] == roots[..i];
        var grown := CollectComponentNodes(roots[i], nodes, depth);
        if grown.Err? {
          PlanAllErrorStays(disk, roots[..i + 1], roots, depth);
          return grown;
        }
        ghost var plan := PlanNode(disk, roots[i], depth).value;
        PreorderSnoc(plans, plan);
        plans := plans + [plan];
        nodes := grown.value;
      }
      assert roots[..|roots|] == roots;
      return Ok(nodes);
    }

    /** Prepares one process for each language; None is success. */
    method PrepareComponentProcesses(roots: seq<Node>, depth: nat) returns (failure: Option<Error>)
      requires AllResolved(disk, roots)
      modifies this`adaptedComponents
      ensures PlanAll(disk, roots, depth).Err? ==>
                failure == Some(PlanAll(disk, roots, depth).error) && adaptedComponents == map[]
      ensures PlanAll(disk, roots, depth).Ok? ==>
                PreparationOutcome(failure, PreorderAll(PlanAll(disk, roots, depth).value))
    {
      adaptedComponents := map[];
      var collected := CollectAll(roots, depth);
      if collected.Err? {
        return Some(collected.error);
      }
      AllCollectedAreResolved(disk, roots, depth);
      failure := PrepareGroups(collected.value);
    }

    /** Preparation succeeds exactly when all connection names differ and all processes start. */
    ghost predicate PreparationOutcome(failure: Option<Error>, nodes: seq<Node>)
      reads this, registry
    {
      && (failure.None? <==>
            Distinct(ConnectionNames(AdaptedNodes(nodes))) && AllLaunch(nodes, home, registry.commands, launchers))
      && (failure.None? ==> FullyPrepared(disk, adaptedComponents, nodes))
      && (failure.Some? ==>
            && FailsFor(failure.value, nodes, home, registry.commands, launchers)
            && FailsFirst(failure.value, adaptedComponents, nodes, home, registry.commands, launchers))
    }

    method PrepareGroups(nodes: seq<Node>) returns (failure: Option<Error>)
      requires AllResolved(disk, nodes) && adaptedComponents == map[]
      modifies this`adaptedComponents
      ensures PreparationOutcome(failure, nodes)
    {
      var groups := GroupByLanguage(nodes);
      var names: set<string>, left := {}, groups.Keys;
      ghost var done: set<string> := {};
      NothingTaken(nodes);
      NothingPrepared(nodes);
      while left != {}
        invariant done !! left && done + left == groups.Keys
        invariant Taken(names, nodes, done) && PreparedFor(adaptedComponents, nodes, done)
        invariant forall l, later :: l in done && later in left ==> Less(l, later)
        invariant forall l :: l in done ==> LaunchGroup(nodes, l, home, registry.commands, launchers).Ok?
      {
        var language := LeastKey(left);
        NextKeyIsPreceded(groups.Keys, done, left, nodes, language);
        TakenAtMostOnce(names, nodes, done);
        names, failure := PrepareGroup(nodes, language, groups[language], names, done);
        if failure.Some? {
          assert FailsAt(failure.value, nodes, done, language, home, registry.commands, launchers);
          return failure;
        }
        done, left := done + {language}, left - {language};
      }
      GroupsOfAllLanguages(nodes, done);
      AllTakenMeansDistinct(names, nodes, done);
      AllPrepared(adaptedComponents, nodes, done);
      return None;
    }

    method PrepareGroup(
        ghost nodes: seq<Node>, language: string, group: seq<Node>, taken: set<string>, ghost done: set<string>)
      returns (names: set<string>, failure: Option<Error>)
      requires AllResolved(disk, nodes) && group == Group(nodes, language) && language !in done
      requires Taken(taken, nodes, done) && PreparedFor(adaptedComponents, nodes, done)
      modifies this`adaptedComponents
      ensures failure.None? ==>
                && Taken(names, nodes, done + {language})
                && PreparedFor(adaptedComponents, nodes, done + {language})
                && LaunchGroup(nodes, language, home, registry.commands, launchers).Ok?
      ensures failure.Some? ==> adaptedComponents == old(adaptedComponents)
      ensures failure.Some? ==>
                || (failure.value == DuplicateConnection && !AtMostOnce(Handled(nodes, done + {language})) &&
                    !Distinct(ConnectionNames(AdaptedNodes(nodes))))
                || (failure.value.NotLaunched? && AtMostOnce(Handled(nodes, done + {language})) &&
                    LaunchGroup(nodes, language, home, registry.commands, launchers) == Err(failure.value.error))
    {
      var grown, specs := SpecifyGroup(taken, group);
      if specs.None? {
        NotAddableMeansDuplicate(taken, nodes, done, language);
        return grown, Some(DuplicateConnection);
      }
      AddableGroupIsTaken(taken, nodes, done, language);
      var clients := Create(language, home, specs.value, registry, launchers(language));
      if clients.Err? {
        return grown, Some(NotLaunched(clients.error));
      }
      GroupFoldersAreDistinct(disk, nodes, language);
      StoreGroup(group, language, clients.value);
      GroupIsPrepared(disk, nodes, done, language, old(adaptedComponents), adaptedComponents);
      return grown, None;
    }

    // ---- Second pass ----

    method BuildForComponent(path: string, parent: string, plugin: string, depth: nat)
      returns (built: Result<Context, Error>)
      ensures built == Build(disk, env, adaptedComponents, path, parent, plugin, depth)
      decreases depth, 0
    {
      var parentPath := if parent == "" then path else parent;
      var made := MakeNode(disk, path, parentPath, plugin);
      if made.Err? {
        return Err(made.error);
      }
      var record := made.value.record;
      if IsNative(made.value.info) {
        if !env.loads(record) {
          return Err(NotLoaded(record.folder));
        }
        if depth == 0 {
          return Err(TooDeep);
        }
        built := BuildNativeComponent(record, depth - 1);
        return;
      }
      if record.folder !in adaptedComponents {
        return Err(NotPrepared(record.folder));
      }
      if !env.loads(record) {
        return Err(NotLoaded(record.folder));
      }
      return Ok(Context(Remote(adaptedComponents[record.folder]), []));
    }

    method BuildNativeComponent(record: ComponentRecord, depth: nat) returns (built: Result<Context, Error>)
      ensures var children :=
                BuildChildren(disk, env, adaptedComponents, record, Subcomponents(record.slots), depth);
              built == if children.Ok? then Ok(Context(Loaded(record.folder), children.value))
                       else Err(children.error)
      decreases depth, 3
    {
      var slots, children: seq<Context> := record.slots, [];
      for i := 0 to |slots|
        invariant BuildChildren(disk, env, adaptedComponents, record, Subcomponents(slots[..i]), depth) == Ok(children)
      {
        var grown := BuildSlot(record, i, children, depth);
        if grown.Err? {
          return Err(grown.error);
        }
        children := grown.value;
      }
      assert slots[..|slots|] == slots;
      return Ok(Context(Loaded(record.folder), children));
    }

    /** The inner loop, over one slot. */
    method BuildSlot(record: ComponentRecord, i: nat, before: seq<Context>, depth: nat)
      returns (grown: Result<seq<Context>, Error>)
      requires i < |record.slots|
      requires BuildChildren(disk, env, adaptedComponents, record, Subcomponents(record.slots[..i]), depth)
               == Ok(before)
      ensures grown.Ok? ==>
                BuildChildren(disk, env, adaptedComponents, record, Subcomponents(record.slots[..i + 1]), depth)
                == grown
      ensures grown.Err? ==>
                grown == BuildChildren(disk, env, adaptedComponents, record, Subcomponents(record.slots), depth)
      decreases depth, 2
    {
      var slots, children := record.slots, before;
      SlotDone(slots, i);
      for j := 0 to |slots[i].subcomponents|
        invariant BuildChildren(disk, env, adaptedComponents, record, Visited(slots, i, j), depth) == Ok(children)
      {
        var s := slots[i].subcomponents[j];
        OneMoreContext(disk, env, adaptedComponents, record, i, j, children, depth);
        var one := BuildForComponent(SubcomponentPath(record.folder, s.id), record.folder, s.plugin, depth);
        if one.Err? {
          return Err(one.error);
        }
        children := children + [one.value];
      }
      return Ok(children);
    }

    method MakeRoots(roots: seq<ComponentRoot>) returns (made: Result<seq<Node>, Error>)
      ensures made == RootNodes(disk, roots)
    {
      var nodes: seq<Node> := [];
      for i := 0 to |roots|
        invariant RootNodes(disk, roots[..i]) == Ok(nodes)
      {
        assert roots[..i + 1][..i] == roots[..i];
        var node := MakeNode(disk, roots[i].path, roots[i].path, roots[i].plugin);
        if node.Err? {
          RootNodesErrorStays(disk, roots[..i + 1], roots);
          return Err(node.error);
        }
        nodes := nodes + [node.value];
      }
      assert roots[..|roots|] == roots;
      return Ok(nodes);
    }

    method BuildAll(nodes: seq<Node>, depth: nat) returns (built: Result<seq<Context>, Error>)
      ensures built == BuildRoots(disk, env, adaptedComponents, nodes, depth)
    {
      var contexts: seq<Context> := [];
      for i := 0 to |nodes|
        invariant BuildRoots(disk, env, adaptedComponents, nodes[..i], depth) == Ok(contexts)
      {
        assert nodes[..i + 1][..i] == nodes[..i];
        var one := BuildForComponent(nodes[i].path, nodes[i].parent, nodes[i].plugin, depth);
        if one.Err? {
          BuildRootsErrorStays(disk, env, adaptedComponents, nodes[..i + 1], nodes, depth);
          return Err(one.error);
        }
        contexts := contexts + [one.value];
      }
      assert nodes[..|nodes|] == nodes;
      return Ok(contexts);
    }

    /**
     Both passes.  Once preparation succeeds and no linked child sits under a component with two names, only a
     component that does not load can stop the building; the contexts mirror the plans, and their remote
     instances are the clients of the collected adapted nodes, each used once.
     */
    method BuildFromComponentRoots(roots: seq<ComponentRoot>, depth: nat)
      returns (built: Result<seq<Context>, Error>)
      modifies this`adaptedComponents
      ensures RootNodes(disk, roots).Err? ==>
                built == Err(RootNodes(disk, roots).error) && adaptedComponents == old(adaptedComponents)
      ensures RootNodes(disk, roots).Ok? ==> BuiltOutcome(built, RootNodes(disk, roots).value, depth)
    {
      var made := MakeRoots(roots);
      if made.Err? {
        return Err(made.error);
      }
      var nodes := made.value;
      RootNodesAreRoots(disk, roots);
      var failure := PrepareComponentProcesses(nodes, depth);
      if failure.Some? {
        return Err(failure.value);
      }
      built := BuildAll(nodes, depth);
      PreparedBuild(built, nodes, depth);
    }

    lemma {:induction false} PreparedBuild(built: Result<seq<Context>, Error>, nodes: seq<Node>, depth: nat)
      requires AreRoots(disk, nodes) && PlanAll(disk, nodes, depth).Ok?
      requires PreparationOutcome(None, PreorderAll(PlanAll(disk, nodes, depth).value))
      requires built == BuildRoots(disk, env, adaptedComponents, nodes, depth)
      ensures BuiltOutcome(built, nodes, depth)
    {
      var plans := PlanAll(disk, nodes, depth).value;
      PreparedClientsHaveTheirOwnFolders(disk, adaptedComponents, PreorderAll(plans));
      if LoadsAll(env, PreorderAll(plans)) {
        RootsBuiltAsPlannedExactlyWithoutDivergentLinks(disk, env, adaptedComponents, nodes, depth);
      }
      if NoDivergentRoot(plans) {
        BuiltContextsUseEachPreparedInstanceOnce(disk, env, adaptedComponents, nodes, depth);
        if built.Ok? {
          DistinctNamesMeanDistinctClients(RemotesAll(built.value), AdaptedNodes(PreorderAll(plans)));
        }
      }
    }

    ghost predicate BuiltOutcome(built: Result<seq<Context>, Error>, nodes: seq<Node>, depth: nat)
      reads this, registry
    {
      match PlanAll(disk, nodes, depth)
      case Err(error) => built == Err(error) && adaptedComponents == map[]
      case Ok(plans) =>
        var collected := PreorderAll(plans);
        if !(Distinct(ConnectionNames(AdaptedNodes(collected)))
             && AllLaunch(collected, home, registry.commands, launchers))
        then built.Err? && PreparationOutcome(Some(built.error), collected)
        else
          && FullyPrepared(disk, adaptedComponents, collected)
          && built == BuildRoots(disk, env, adaptedComponents, nodes, depth)
          && (NoDivergentRoot(plans) ==> BuiltOnce(built, plans))
          && (LoadsAll(env, collected) ==>
                (BuiltAsPlanned(built, plans, adaptedComponents) <==> NoDivergentRoot(plans)))
    }

    predicate BuiltOnce(built: Result<seq<Context>, Error>, plans: seq<Plan>)
      reads this
    {
      && BuiltFromPlans(built, plans, env, adaptedComponents)
      && (built.Ok? ==>
            && SpecsOfClients(RemotesAll(built.value)) == SpecsOf(AdaptedNodes(PreorderAll(plans)))
            && Distinct(RemotesAll(built.value)))
    }
  }
}
