/** Grouping the collected adapted components by language, and what preparing one process per group must yield. */
module ContextPreparation {
  import opened Sequences
  import opened Names
  import opened ExternalProcesses
  import opened ContextBuilder

  function ConnectionName(n: Node): string { n.record.id + "_connection" }

  /** A connection name is the component's own id and a fixed ending, so different ids mean different names. */
  lemma {:induction false} NamesFollowIds(a: Node, b: Node)
    ensures var name := ConnectionName(a);
            a.record.id <= name && name[|a.record.id|..] == "_connection"
    ensures ConnectionName(a) == ConnectionName(b) <==> a.record.id == b.record.id
  {
    if ConnectionName(a) == ConnectionName(b) {
      AppendIsInjective(a.record.id, b.record.id, "_connection");
    }
  }

  function LanguageOf(n: Node): string { Lower(n.info.language) }

  predicate InGroup(n: Node, language: string) {
    !IsNative(n.info) && LanguageOf(n) == language
  }

  /** The collected adapted nodes of one language, in collection order. */
  function Group(nodes: seq<Node>, language: string): (group: seq<Node>)
    ensures forall n :: n in group ==> InGroup(n, language)
  {
    if nodes == [] then []
    else
      var last := nodes[|nodes| - 1];
      Group(nodes[..|nodes| - 1], language) + (if InGroup(last, language) then [last] else [])
  }

  function SpecOf(n: Node): Spec {
    Spec(n.record.folder, n.info, ConnectionName(n))
  }

  /** A specification names the component's folder, its own plugin and its connection. */
  lemma {:induction false} SpecDescribesItsNode(n: Node)
    ensures SpecOf(n).folder == n.record.folder && SpecOf(n).plugin == n.info
    ensures SpecOf(n).connection == n.record.id + "_connection"
  {
  }

  function SpecsOf(group: seq<Node>): seq<Spec> {
    seq(|group|, i requires 0 <= i < |group| => SpecOf(group[i]))
  }

  lemma {:induction false} GroupSnoc(nodes: seq<Node>, n: Node, language: string)
    ensures Group(nodes + [n], language) ==
            if InGroup(n, language) then Group(nodes, language) + [n] else Group(nodes, language)
  {
    assert (nodes + [n])[..|nodes|] == nodes;
  }

  predicate HasGroup(groups: map<string, seq<Node>>, nodes: seq<Node>, language: string) {
    if Group(nodes, language) == [] then language !in groups
    else language in groups && groups[language] == Group(nodes, language)
  }

  /** The map of all groups there are. */
  ghost predicate AreGroups(groups: map<string, seq<Node>>, nodes: seq<Node>) {
    forall l :: HasGroup(groups, nodes, l)
  }

  /** The groups after one more node. */
  function Grouped(groups: map<string, seq<Node>>, n: Node): map<string, seq<Node>> {
    var l := LanguageOf(n);
    if IsNative(n.info) then groups else groups[l := (if l in groups then groups[l] else []) + [n]]
  }

  lemma {:induction false} OneGroupSnoc(groups: map<string, seq<Node>>, nodes: seq<Node>, n: Node, language: string)
    requires HasGroup(groups, nodes, language)
    ensures HasGroup(Grouped(groups, n), nodes + [n], language)
  {
    GroupSnoc(nodes, n, language);
  }

  lemma {:induction false} GroupsSnoc(groups: map<string, seq<Node>>, nodes: seq<Node>, n: Node)
    requires AreGroups(groups, nodes)
    ensures AreGroups(Grouped(groups, n), nodes + [n])
  {
    forall l ensures HasGroup(Grouped(groups, n), nodes + [n], l) {
      assert HasGroup(groups, nodes, l);
      OneGroupSnoc(groups, nodes, n, l);
    }
  }

  lemma {:induction false} GroupsAre(groups: map<string, seq<Node>>, nodes: seq<Node>)
    requires AreGroups(groups, nodes)
    ensures forall l :: l in groups <==> Group(nodes, l) != []
    ensures forall l :: l in groups ==> groups[l] == Group(nodes, l)
  {
    forall l
      ensures l in groups <==> Group(nodes, l) != []
      ensures l in groups ==> groups[l] == Group(nodes, l)
    {
      assert HasGroup(groups, nodes, l);
    }
  }

  method GroupByLanguage(nodes: seq<Node>) returns (groups: map<string, seq<Node>>)
    ensures forall l :: l in groups <==> Group(nodes, l) != []
    ensures forall l :: l in groups ==> groups[l] == Group(nodes, l)
  {
    groups := map[];
    for i := 0 to |nodes|
      invariant AreGroups(groups, nodes[..i])
    {
      var n := nodes[i];
      GroupsSnoc(groups, nodes[..i], n);
      assert nodes[..i + 1] == nodes[..i] + [n];
      if !IsNative(n.info) {
        var language := ToLowerCopy(n.info.language);
        var group := if language in groups then groups[language] else [];
        groups := groups[language := group + [n]];
      }
    }
    assert nodes[..|nodes|] == nodes;
    GroupsAre(groups, nodes);
  }

  /** Within its group a node comes after exactly the earlier nodes of its language: collection order is kept. */
  lemma {:induction false} GroupsKeepOrder(nodes: seq<Node>, language: string, i: nat)
    requires i < |nodes| && InGroup(nodes[i], language)
    ensures var at := |Group(nodes[..i], language)|;
            at < |Group(nodes, language)| && Group(nodes, language)[at] == nodes[i]
    decreases |nodes|
  {
    var front := nodes[..|nodes| - 1];
    if i == |front| {
    } else {
      GroupsKeepOrder(front, language, i);
      assert front[..i] == nodes[..i];
    }
  }

  /** The groups partition the adapted nodes: each occurrence is in the group of its language and in no other. */
  lemma {:induction false} GroupsPartition(nodes: seq<Node>, n: Node, language: string)
    ensures multiset(Group(nodes, language))[n] == if InGroup(n, language) then multiset(nodes)[n] else 0
  {
    if nodes == [] {
    } else {
      var front, last := nodes[..|nodes| - 1], nodes[|nodes| - 1];
      GroupsPartition(front, n, language);
      assert nodes == front + [last];
      if InGroup(last, language) {
        assert Group(nodes, language) == Group(front, language) + [last];
      } else {
        assert Group(nodes, language) == Group(front, language) + [];
      }
    }
  }

  lemma {:induction false} GroupMembers(nodes: seq<Node>, n: Node)
    ensures n in AdaptedNodes(nodes) <==> n in nodes && !IsNative(n.info)
    ensures n in AdaptedNodes(nodes) <==> n in Group(nodes, LanguageOf(n))
  {
    if nodes == [] {
    } else {
      GroupMembers(nodes[..|nodes| - 1], n);
      assert nodes == nodes[..|nodes| - 1] + [nodes[|nodes| - 1]];
    }
  }

  // ---- Groups already handled ----

  /** The adapted nodes whose language is among `done`, in collection order. */
  function Handled(nodes: seq<Node>, done: set<string>): (handled: seq<Node>)
    ensures forall n :: n in handled ==> n in nodes && !IsNative(n.info) && LanguageOf(n) in done
  {
    if nodes == [] then []
    else
      var last := nodes[|nodes| - 1];
      Handled(nodes[..|nodes| - 1], done) + (if !IsNative(last.info) && LanguageOf(last) in done then [last] else [])
  }

  predicate AllLanguages(nodes: seq<Node>, done: set<string>) {
    forall n :: n in nodes && !IsNative(n.info) ==> LanguageOf(n) in done
  }

  lemma {:induction false} AllHandled(nodes: seq<Node>, done: set<string>)
    requires AllLanguages(nodes, done)
    ensures Handled(nodes, done) == AdaptedNodes(nodes)
  {
    if nodes == [] {
    } else {
      AllHandled(nodes[..|nodes| - 1], done);
    }
  }

  lemma {:induction false} NothingHandled(nodes: seq<Node>)
    ensures Handled(nodes, {}) == []
  {
    if nodes == [] {
    } else {
      NothingHandled(nodes[..|nodes| - 1]);
    }
  }

  function ConnectionNames(nodes: seq<Node>): seq<string> {
    seq(|nodes|, i requires 0 <= i < |nodes| => ConnectionName(nodes[i]))
  }

  /** How many of the nodes have a connection name. */
  function NameCount(nodes: seq<Node>, name: string): nat {
    multiset(ConnectionNames(nodes))[name]
  }

  lemma {:induction false} NameCountAppend(nodes: seq<Node>, n: Node, take: bool, name: string)
    ensures NameCount(nodes + (if take then [n] else []), name) ==
            NameCount(nodes, name) + (if take && ConnectionName(n) == name then 1 else 0)
  {
    if take {
      assert ConnectionNames(nodes + [n]) == ConnectionNames(nodes) + [ConnectionName(n)];
    } else {
      assert nodes + [] == nodes;
    }
  }

  lemma {:induction false} Counted(nodes: seq<Node>, name: string)
    ensures NameCount(nodes, name) > 0 <==> exists n :: n in nodes && ConnectionName(n) == name
  {
    if name in ConnectionNames(nodes) {
      var i :| 0 <= i < |nodes| && ConnectionNames(nodes)[i] == name;
      assert nodes[i] in nodes;
    }
    if n :| n in nodes && ConnectionName(n) == name {
      var i :| 0 <= i < |nodes| && nodes[i] == n;
      assert ConnectionNames(nodes)[i] == name;
    }
  }

  /** Handling one more language adds the names of its group. */
  lemma {:induction false} HandledWithGroup(nodes: seq<Node>, done: set<string>, language: string, name: string)
    requires language !in done
    ensures NameCount(Handled(nodes, done + {language}), name) ==
            NameCount(Handled(nodes, done), name) + NameCount(Group(nodes, language), name)
  {
    if nodes == [] {
    } else {
      var front, last := nodes[..|nodes| - 1], nodes[|nodes| - 1];
      HandledWithGroup(front, done, language, name);
      var adapted, l := !IsNative(last.info), LanguageOf(last);
      NameCountAppend(Handled(front, done + {language}), last, adapted && l in done + {language}, name);
      NameCountAppend(Handled(front, done), last, adapted && l in done, name);
      NameCountAppend(Group(front, language), last, InGroup(last, language), name);
    }
  }

  lemma {:induction false} HandledAreAdapted(nodes: seq<Node>, done: set<string>, name: string)
    ensures NameCount(Handled(nodes, done), name) <= NameCount(AdaptedNodes(nodes), name)
  {
    if nodes == [] {
    } else {
      var front, last := nodes[..|nodes| - 1], nodes[|nodes| - 1];
      HandledAreAdapted(front, done, name);
      NameCountAppend(Handled(front, done), last, !IsNative(last.info) && LanguageOf(last) in done, name);
      NameCountAppend(AdaptedNodes(front), last, !IsNative(last.info), name);
    }
  }

  // ---- Distinct connection names ----

  ghost predicate AtMostOnce(nodes: seq<Node>) {
    forall name :: NameCount(nodes, name) <= 1
  }

  lemma {:induction false} DistinctExactlyWhenAtMostOnce(nodes: seq<Node>)
    ensures Distinct(ConnectionNames(nodes)) <==> AtMostOnce(nodes)
  {
    DistinctMeansMultiplicityOne(ConnectionNames(nodes));
    forall name ensures NameCount(nodes, name) == multiset(ConnectionNames(nodes))[name] {
    }
  }

  // ---- The prepared instances ----

  predicate HasClient(prepared: map<string, Client>, n: Node, language: string, index: nat) {
    n.record.folder in prepared && prepared[n.record.folder] == Client(language, index, SpecOf(n))
  }

  /** Component i of a group has client i of the group's process. */
  predicate Served(prepared: map<string, Client>, group: seq<Node>, language: string) {
    forall i :: 0 <= i < |group| ==> HasClient(prepared, group[i], language, i)
  }

  predicate KeysAre(prepared: map<string, Client>, folders: seq<string>) {
    prepared.Keys == set f | f in folders
  }

  /** Exactly the folders of the handled nodes are prepared, and their groups served. */
  predicate PreparedFor(prepared: map<string, Client>, nodes: seq<Node>, done: set<string>) {
    && KeysAre(prepared, Folders(Handled(nodes, done)))
    && forall l :: l in done ==> Served(prepared, Group(nodes, l), l)
  }

  /** Preparing everything: every adapted node is served by the process of its language. */
  ghost predicate Prepared(prepared: map<string, Client>, nodes: seq<Node>) {
    && KeysAre(prepared, Folders(AdaptedNodes(nodes)))
    && forall l :: Served(prepared, Group(nodes, l), l)
  }

  lemma {:induction false} FolderIn(nodes: seq<Node>, folder: string)
    ensures folder in Folders(nodes) <==> exists n :: n in nodes && n.record.folder == folder
  {
    if folder in Folders(nodes) {
      var i :| 0 <= i < |nodes| && Folders(nodes)[i] == folder;
      assert nodes[i] in nodes;
    }
    if n :| n in nodes && n.record.folder == folder {
      var i :| 0 <= i < |nodes| && nodes[i] == n;
      assert Folders(nodes)[i] == folder;
    }
  }

  lemma {:induction false} HandledMembers(nodes: seq<Node>, done: set<string>, n: Node)
    ensures n in Handled(nodes, done) <==> n in nodes && !IsNative(n.info) && LanguageOf(n) in done
    ensures n in Group(nodes, LanguageOf(n)) <==> n in nodes && !IsNative(n.info)
  {
    if nodes == [] {
    } else {
      HandledMembers(nodes[..|nodes| - 1], done, n);
      assert nodes == nodes[..|nodes| - 1] + [nodes[|nodes| - 1]];
    }
  }

  lemma {:induction false} AllPrepared(prepared: map<string, Client>, nodes: seq<Node>, done: set<string>)
    requires PreparedFor(prepared, nodes, done) && AllLanguages(nodes, done)
    ensures Prepared(prepared, nodes)
  {
    AllHandled(nodes, done);
    forall l ensures Served(prepared, Group(nodes, l), l) {
      if l !in done && Group(nodes, l) != [] {
        var n := Group(nodes, l)[0];
        assert n in Group(nodes, l);
        HandledMembers(nodes, done, n);
      }
    }
  }

  /** Different names mean different folders, so no prepared instance replaces another. */
  lemma {:induction false} DistinctNamesMeanDistinctFolders(disk: Disk, nodes: seq<Node>)
    requires AllResolved(disk, nodes) && Distinct(ConnectionNames(nodes))
    ensures Distinct(Folders(nodes))
  {
    forall i, j | 0 <= i < j < |nodes| ensures Folders(nodes)[i] != Folders(nodes)[j] {
      assert ConnectionNames(nodes)[i] != ConnectionNames(nodes)[j];
      if nodes[i].record.folder == nodes[j].record.folder {
        FolderDeterminesRecord(disk, nodes[i], nodes[j]);
      }
    }
  }

  /** The prepared map has one entry for each adapted node, holding that node's own client. */
  lemma {:induction false} OneEntryPerAdaptedNode(disk: Disk, prepared: map<string, Client>, nodes: seq<Node>)
    requires AllResolved(disk, nodes) && Prepared(prepared, nodes) && Distinct(ConnectionNames(AdaptedNodes(nodes)))
    ensures |prepared| == |AdaptedNodes(nodes)|
    ensures forall n :: n in AdaptedNodes(nodes) ==>
              n.record.folder in prepared && prepared[n.record.folder].spec == SpecOf(n)
  {
    var adapted := AdaptedNodes(nodes);
    forall n | n in adapted
      ensures n in nodes && n.record.folder in prepared && prepared[n.record.folder].spec == SpecOf(n)
    {
      GroupMembers(nodes, n);
      var l := LanguageOf(n);
      var i :| 0 <= i < |Group(nodes, l)| && Group(nodes, l)[i] == n;
      assert Served(prepared, Group(nodes, l), l);
      assert HasClient(prepared, Group(nodes, l)[i], l, i);
    }
    DistinctNamesMeanDistinctFolders(disk, adapted);
    DistinctCardinality(Folders(adapted));
  }

  // ---- Preparing one more group ----

  /** The clients of one group were added to the prepared ones, and nothing else changed. */
  predicate GroupAdded(before: map<string, Client>, after: map<string, Client>, group: seq<Node>, language: string) {
    && after.Keys == before.Keys + (set f | f in Folders(group))
    && (forall f :: f in before && f !in Folders(group) ==> f in after && after[f] == before[f])
    && Served(after, group, language)
  }

  lemma {:induction false} GroupIsPrepared(
      disk: Disk, nodes: seq<Node>, done: set<string>, language: string,
      before: map<string, Client>, after: map<string, Client>)
    requires AllResolved(disk, nodes) && language !in done && AtMostOnce(Handled(nodes, done + {language}))
    requires PreparedFor(before, nodes, done) && GroupAdded(before, after, Group(nodes, language), language)
    ensures PreparedFor(after, nodes, done + {language})
  {
    KeysGrow(nodes, done, language, before, after);
    forall l | l in done ensures Served(after, Group(nodes, l), l) {
      OtherGroupStaysServed(disk, nodes, done, language, l, before, after);
    }
  }

  lemma {:induction false} OtherGroupStaysServed(
      disk: Disk, nodes: seq<Node>, done: set<string>, language: string, l: string,
      before: map<string, Client>, after: map<string, Client>)
    requires AllResolved(disk, nodes) && language !in done && AtMostOnce(Handled(nodes, done + {language}))
    requires l in done && Served(before, Group(nodes, l), l)
    requires GroupAdded(before, after, Group(nodes, language), language)
    ensures Served(after, Group(nodes, l), l)
  {
    OtherGroupsKeepFolders(disk, nodes, done, language, l);
    StaysServed(before, after, Group(nodes, l), l, Group(nodes, language), language);
  }

  lemma {:induction false} KeysGrow(
      nodes: seq<Node>, done: set<string>, language: string, before: map<string, Client>, after: map<string, Client>)
    requires KeysAre(before, Folders(Handled(nodes, done)))
    requires after.Keys == before.Keys + (set f | f in Folders(Group(nodes, language)))
    ensures KeysAre(after, Folders(Handled(nodes, done + {language})))
  {
    forall f
      ensures f in Folders(Handled(nodes, done + {language})) <==>
              f in Folders(Handled(nodes, done)) || f in Folders(Group(nodes, language))
    {
      HandledFolders(nodes, done, language, f);
    }
  }

  predicate Apart(a: seq<Node>, b: seq<Node>) {
    forall n :: n in a ==> n.record.folder !in Folders(b)
  }

  lemma {:induction false} StaysServed(
      before: map<string, Client>, after: map<string, Client>,
      group: seq<Node>, language: string, added: seq<Node>, addedLanguage: string)
    requires Served(before, group, language) && Apart(group, added)
    requires GroupAdded(before, after, added, addedLanguage)
    ensures Served(after, group, language)
  {
    forall i | 0 <= i < |group| ensures HasClient(after, group[i], language, i) {
      var f := group[i].record.folder;
      assert group[i] in group && HasClient(before, group[i], language, i);
      assert f in before && f !in Folders(added);
      assert after[f] == before[f];
    }
  }

  lemma {:induction false} OtherGroupsKeepFolders(
      disk: Disk, nodes: seq<Node>, done: set<string>, language: string, l: string)
    requires AllResolved(disk, nodes) && language !in done && AtMostOnce(Handled(nodes, done + {language}))
    requires l in done
    ensures Apart(Group(nodes, l), Group(nodes, language))
  {
    forall n | n in Group(nodes, l) ensures n.record.folder !in Folders(Group(nodes, language)) {
      GroupMembers(nodes, n);
      OtherGroupKeepsFolder(disk, nodes, done, language, n);
    }
  }

  lemma {:induction false} HandledFolders(nodes: seq<Node>, done: set<string>, language: string, f: string)
    ensures f in Folders(Handled(nodes, done + {language})) <==>
            f in Folders(Handled(nodes, done)) || f in Folders(Group(nodes, language))
  {
    FolderIn(Group(nodes, language), f);
    FolderIn(Handled(nodes, done), f);
    FolderIn(Handled(nodes, done + {language}), f);
    forall n
      ensures n in Handled(nodes, done + {language}) <==> n in Handled(nodes, done) || n in Group(nodes, language)
    {
      HandledMembers(nodes, done + {language}, n);
      HandledMembers(nodes, done, n);
    }
  }

  lemma {:induction false} OtherGroupKeepsFolder(
      disk: Disk, nodes: seq<Node>, done: set<string>, language: string, n: Node)
    requires AllResolved(disk, nodes) && language !in done && AtMostOnce(Handled(nodes, done + {language}))
    requires n in nodes && !IsNative(n.info) && LanguageOf(n) in done
    ensures n.record.folder !in Folders(Group(nodes, language))
  {
    if n.record.folder in Folders(Group(nodes, language)) {
      FolderIn(Group(nodes, language), n.record.folder);
      var m :| m in Group(nodes, language) && m.record.folder == n.record.folder;
      HandledMembers(nodes, done, n);
      GroupInNodes(nodes, language, m);
      FolderDeterminesRecord(disk, n, m);
      HandledWithGroup(nodes, done, language, ConnectionName(n));
      Counted(Handled(nodes, done), ConnectionName(n));
      Counted(Group(nodes, language), ConnectionName(n));
    }
  }

  lemma {:induction false} GroupInNodes(nodes: seq<Node>, language: string, n: Node)
    requires n in Group(nodes, language)
    ensures n in nodes
  {
    GroupMembers(nodes, n);
  }
}
