/** Initializing a context tree: who is called, how often, and in which order. */
module Initialization {
  import opened Sequences
  import opened ExternalProcesses
  import opened ContextBuilder
  import opened ContextPreparation
  import opened ContextBuilding

  /** A position is the path of child indices from the root. */
  datatype Visit = Visit(position: seq<nat>, instance: Instance)

  function Order(context: Context, position: seq<nat>): seq<Visit>
    decreases context, 1
  {
    OrderAll(context.children, position) + [Visit(position, context.instance)]
  }

  function OrderAll(contexts: seq<Context>, position: seq<nat>): seq<Visit>
    decreases contexts, 0
  {
    if contexts == [] then []
    else
      var n := |contexts| - 1;
      OrderAll(contexts[..n], position) + Order(contexts[n], position + [n])
  }

  /** The calls up to and including the first one that throws. */
  function UntilFailure(visits: seq<Visit>, accepts: Visit -> bool): seq<Visit> {
    if visits == [] then []
    else if accepts(visits[0]) then [visits[0]] + UntilFailure(visits[1..], accepts)
    else [visits[0]]
  }

  predicate Accepted(visits: seq<Visit>, accepts: Visit -> bool) {
    forall v :: v in visits ==> accepts(v)
  }

  lemma {:induction false} AcceptedCons(first: Visit, rest: seq<Visit>, accepts: Visit -> bool)
    ensures Accepted([first] + rest, accepts) <==> accepts(first) && Accepted(rest, accepts)
  {
  }

  lemma {:induction false} UntilFailureCons(first: Visit, rest: seq<Visit>, accepts: Visit -> bool)
    ensures UntilFailure([first] + rest, accepts) ==
            [first] + (if accepts(first) then UntilFailure(rest, accepts) else [])
  {
    assert ([first] + rest)[1..] == rest;
  }

  lemma {:induction false} ConsAppend(first: Visit, rest: seq<Visit>, more: seq<Visit>)
    ensures ([first] + rest) + more == [first] + (rest + more)
  {
  }

  /** After calls that are all accepted the others follow. */
  lemma {:induction false} AcceptedThenOthers(a: seq<Visit>, b: seq<Visit>, accepts: Visit -> bool)
    requires Accepted(a, accepts)
    ensures UntilFailure(a + b, accepts) == a + UntilFailure(b, accepts)
  {
    if a == [] {
      assert a + b == b;
    } else {
      var first, rest := a[0], a[1..];
      assert a == [first] + rest;
      AcceptedCons(first, rest, accepts);
      AcceptedThenOthers(rest, b, accepts);
      UntilFailureCons(first, rest + b, accepts);
      ConsAppend(first, rest, b);
      ConsAppend(first, rest, UntilFailure(b, accepts));
    }
  }

  /** A refused call ends everything. */
  lemma {:induction false} RefusedEndsAll(a: seq<Visit>, b: seq<Visit>, accepts: Visit -> bool)
    requires !Accepted(a, accepts)
    ensures UntilFailure(a + b, accepts) == UntilFailure(a, accepts)
  {
    var first, rest := a[0], a[1..];
    assert a == [first] + rest;
    ConsAppend(first, rest, b);
    UntilFailureCons(first, rest, accepts);
    UntilFailureCons(first, rest + b, accepts);
    if accepts(first) {
      AcceptedCons(first, rest, accepts);
      RefusedEndsAll(rest, b, accepts);
    }
  }

  lemma {:induction false} UntilFailureConcat(a: seq<Visit>, b: seq<Visit>, accepts: Visit -> bool)
    ensures UntilFailure(a + b, accepts) ==
            if Accepted(a, accepts) then a + UntilFailure(b, accepts) else UntilFailure(a, accepts)
  {
    if Accepted(a, accepts) {
      AcceptedThenOthers(a, b, accepts);
    } else {
      RefusedEndsAll(a, b, accepts);
    }
  }

  /** The calls made are a prefix; all but the last are accepted, and the last one unless nothing was refused. */
  lemma {:induction false} CallsStopAtTheFirstFailure(visits: seq<Visit>, accepts: Visit -> bool)
    ensures var called := UntilFailure(visits, accepts);
            && called <= visits
            && (forall i :: 0 <= i < |called| - 1 ==> accepts(called[i]))
            && (Accepted(visits, accepts) <==> called == [] || accepts(called[|called| - 1]))
            && (Accepted(visits, accepts) ==> called == visits)
            && (visits != [] ==> called != [])
  {
    if visits == [] {
    } else {
      var first, rest := visits[0], visits[1..];
      assert visits == [first] + rest;
      AcceptedCons(first, rest, accepts);
      CallsStopAtTheFirstFailure(rest, accepts);
    }
  }

  /** Calls every instance below, then its own; an exception ends everything. */
  method Initialize(context: Context, position: seq<nat>, accepts: Visit -> bool)
    returns (ok: bool, called: seq<Visit>)
    ensures ok <==> Accepted(Order(context, position), accepts)
    ensures called == UntilFailure(Order(context, position), accepts)
    decreases context, 1
  {
    ok, called := InitializeSubcomponents(context.children, position, accepts);
    var own := Visit(position, context.instance);
    UntilFailureConcat(OrderAll(context.children, position), [own], accepts);
    if ok {
      AcceptedAreAllCalled(OrderAll(context.children, position), accepts);
      called := called + [own];
      ok := accepts(own);
    }
  }

  /** The loop over the subcomponents; all there is for a script, which has no instance of its own. */
  method InitializeSubcomponents(contexts: seq<Context>, position: seq<nat>, accepts: Visit -> bool)
    returns (ok: bool, called: seq<Visit>)
    ensures ok <==> Accepted(OrderAll(contexts, position), accepts)
    ensures called == UntilFailure(OrderAll(contexts, position), accepts)
    decreases contexts, 0
  {
    called := [];
    for i := 0 to |contexts|
      invariant Accepted(OrderAll(contexts[..i], position), accepts)
      invariant called == OrderAll(contexts[..i], position)
    {
      var accepted, below := Initialize(contexts[i], position + [i], accepts);
      OrderSnoc(contexts, i, position);
      UntilFailureConcat(called, Order(contexts[i], position + [i]), accepts);
      called := called + below;
      if !accepted {
        FailureStays(contexts, i + 1, position, accepts);
        return false, called;
      }
      AcceptedAreAllCalled(Order(contexts[i], position + [i]), accepts);
    }
    assert contexts[..|contexts|] == contexts;
    AcceptedAreAllCalled(OrderAll(contexts, position), accepts);
    return true, called;
  }

  lemma {:induction false} OrderSnoc(contexts: seq<Context>, i: nat, position: seq<nat>)
    requires i < |contexts|
    ensures OrderAll(contexts[..i + 1], position) ==
            OrderAll(contexts[..i], position) + Order(contexts[i], position + [i])
  {
    assert contexts[..i + 1][..i] == contexts[..i];
  }

  lemma {:induction false} AcceptedAreAllCalled(visits: seq<Visit>, accepts: Visit -> bool)
    requires Accepted(visits, accepts)
    ensures UntilFailure(visits, accepts) == visits
  {
    if visits == [] {
    } else {
      AcceptedAreAllCalled(visits[1..], accepts);
    }
  }

  lemma {:induction false} FailureStays(contexts: seq<Context>, i: nat, position: seq<nat>, accepts: Visit -> bool)
    requires i <= |contexts| && !Accepted(OrderAll(contexts[..i], position), accepts)
    ensures !Accepted(OrderAll(contexts, position), accepts)
    ensures UntilFailure(OrderAll(contexts, position), accepts) ==
            UntilFailure(OrderAll(contexts[..i], position), accepts)
    decreases |contexts|
  {
    if i == |contexts| {
      assert contexts[..i] == contexts;
    } else {
      var n := |contexts| - 1;
      assert contexts[..n][..i] == contexts[..i];
      FailureStays(contexts[..n], i, position, accepts);
      UntilFailureConcat(OrderAll(contexts[..n], position), Order(contexts[n], position + [n]), accepts);
    }
  }

  // ---- Every instance exactly once ----

  /** The position, relative to the context, holds the instance. */
  predicate Holds(context: Context, path: seq<nat>, instance: Instance)
    decreases |path|
  {
    if path == [] then context.instance == instance
    else path[0] < |context.children| && Holds(context.children[path[0]], path[1..], instance)
  }

  predicate HoldsBelow(contexts: seq<Context>, path: seq<nat>, instance: Instance) {
    path != [] && path[0] < |contexts| && Holds(contexts[path[0]], path[1..], instance)
  }

  /** Exactly the instances of the tree are called, each at its own position. */
  lemma {:induction false} CalledExactlyWhenInTree(context: Context, at: seq<nat>, path: seq<nat>, instance: Instance)
    ensures Visit(at + path, instance) in Order(context, at) <==> Holds(context, path, instance)
    decreases context, 1
  {
    CalledExactlyWhenBelow(context.children, at, path, instance);
    assert at + path == at <==> path == [];
  }

  lemma {:induction false} CalledExactlyWhenBelow(
      contexts: seq<Context>, at: seq<nat>, path: seq<nat>, instance: Instance)
    ensures Visit(at + path, instance) in OrderAll(contexts, at) <==> HoldsBelow(contexts, path, instance)
    decreases contexts, 0
  {
    if contexts == [] {
    } else {
      var n := |contexts| - 1;
      CalledExactlyWhenBelow(contexts[..n], at, path, instance);
      if path != [] && path[0] == n {
        assert at + path == (at + [n]) + path[1..];
        CalledExactlyWhenInTree(contexts[n], at + [n], path[1..], instance);
      } else {
        ForeignPathIsNotCalled(contexts[n], at, n, path, instance);
      }
    }
  }

  lemma {:induction false} ForeignPathIsNotCalled(
      context: Context, at: seq<nat>, n: nat, path: seq<nat>, instance: Instance)
    requires path == [] || path[0] != n
    ensures Visit(at + path, instance) !in Order(context, at + [n])
  {
    assert path != [] ==> (at + path)[|at|] == path[0] != n;
    assert (at + [n])[|at|] == n;
    if Visit(at + path, instance) in Order(context, at + [n]) {
      CalledBelowItsRoot(context, at + [n], Visit(at + path, instance));
    }
  }

  lemma {:induction false} CalledBelowItsRoot(context: Context, at: seq<nat>, v: Visit)
    requires v in Order(context, at)
    ensures at <= v.position
    decreases context, 1
  {
    if v in OrderAll(context.children, at) {
      CalledBelowRoots(context.children, at, v);
    }
  }

  lemma {:induction false} CalledBelowRoots(contexts: seq<Context>, at: seq<nat>, v: Visit)
    requires v in OrderAll(contexts, at)
    ensures exists i: nat :: i < |contexts| && at + [i] <= v.position
    decreases contexts, 0
  {
    var n := |contexts| - 1;
    if v in OrderAll(contexts[..n], at) {
      CalledBelowRoots(contexts[..n], at, v);
      var i: nat :| i < n && at + [i] <= v.position;
    } else {
      CalledBelowItsRoot(contexts[n], at + [n], v);
    }
  }

  // ---- Order ----

  /** Descendants come before their ancestors, and earlier siblings with all their descendants before later ones. */
  predicate Before(a: seq<nat>, b: seq<nat>) {
    if b == [] then a != []
    else a != [] && (a[0] < b[0] || (a[0] == b[0] && Before(a[1..], b[1..])))
  }

  lemma {:induction false} BeforeIsStrict(a: seq<nat>, b: seq<nat>)
    ensures a == b ==> !Before(a, b)
    ensures a != b ==> (Before(a, b) <==> !Before(b, a))
  {
    if a != [] && b != [] && a[0] == b[0] {
      BeforeIsStrict(a[1..], b[1..]);
      assert a == [a[0]] + a[1..] && b == [b[0]] + b[1..];
    }
  }

  lemma {:induction false} BeforeIsTransitive(a: seq<nat>, b: seq<nat>, c: seq<nat>)
    requires Before(a, b) && Before(b, c)
    ensures Before(a, c)
  {
    if c == [] || a[0] < c[0] {
    } else {
      BeforeIsTransitive(a[1..], b[1..], c[1..]);
    }
  }

  lemma {:induction false} DescendantsAreBefore(b: seq<nat>, rest: seq<nat>)
    requires rest != []
    ensures Before(b + rest, b)
  {
    if b == [] {
    } else {
      DescendantsAreBefore(b[1..], rest);
      assert (b + rest)[1..] == b[1..] + rest;
    }
  }

  lemma {:induction false} EarlierSiblingsAreBefore(at: seq<nat>, i: nat, n: nat, a: seq<nat>, b: seq<nat>)
    requires i < n && at + [i] <= a && at + [n] <= b
    ensures Before(a, b)
    decreases |at|
  {
    if at != [] {
      assert (at + [i])[1..] == at[1..] + [i] && (at + [n])[1..] == at[1..] + [n];
      assert a[0] == (at + [i])[0] && b[0] == (at + [n])[0];
      EarlierSiblingsAreBefore(at[1..], i, n, a[1..], b[1..]);
    } else {
      assert a[0] == (at + [i])[0] && b[0] == (at + [n])[0];
    }
  }

  predicate InOrder(visits: seq<Visit>) {
    forall i, j :: 0 <= i < j < |visits| ==> Before(visits[i].position, visits[j].position)
  }

  lemma {:induction false} InOrderConcat(a: seq<Visit>, b: seq<Visit>)
    requires InOrder(a) && InOrder(b)
    requires forall v, w :: v in a && w in b ==> Before(v.position, w.position)
    ensures InOrder(a + b)
  {
    var c := a + b;
    forall i, j | 0 <= i < j < |c| ensures Before(c[i].position, c[j].position) {
      if i < |a| <= j {
        assert c[i] in a && c[j] in b;
      } else if j < |a| {
        assert c[i] == a[i] && c[j] == a[j];
      } else {
        assert c[i] == b[i - |a|] && c[j] == b[j - |a|];
      }
    }
  }

  /** The calls come strictly in order, so in particular none is repeated. */
  lemma {:induction false} CalledInOrder(context: Context, at: seq<nat>)
    ensures InOrder(Order(context, at))
    decreases context, 1
  {
    AllCalledInOrder(context.children, at);
    forall v | v in OrderAll(context.children, at) ensures Before(v.position, at) {
      CalledBelowRoots(context.children, at, v);
      var i: nat :| i < |context.children| && at + [i] <= v.position;
      assert v.position == at + v.position[|at|..];
      DescendantsAreBefore(at, v.position[|at|..]);
    }
    InOrderConcat(OrderAll(context.children, at), [Visit(at, context.instance)]);
  }

  lemma {:induction false} AllCalledInOrder(contexts: seq<Context>, at: seq<nat>)
    ensures InOrder(OrderAll(contexts, at))
    decreases contexts, 0
  {
    if contexts == [] {
    } else {
      var n := |contexts| - 1;
      AllCalledInOrder(contexts[..n], at);
      CalledInOrder(contexts[n], at + [n]);
      EarlierRootsAreBefore(contexts, at);
      InOrderConcat(OrderAll(contexts[..n], at), Order(contexts[n], at + [n]));
    }
  }

  lemma {:induction false} EarlierRootsAreBefore(contexts: seq<Context>, at: seq<nat>)
    requires contexts != []
    ensures var n := |contexts| - 1;
            forall v, w :: v in OrderAll(contexts[..n], at) && w in Order(contexts[n], at + [n]) ==>
              Before(v.position, w.position)
  {
    var n := |contexts| - 1;
    forall v, w | v in OrderAll(contexts[..n], at) && w in Order(contexts[n], at + [n])
      ensures Before(v.position, w.position)
    {
      CalledBelowRoots(contexts[..n], at, v);
      var i: nat :| i < n && at + [i] <= v.position;
      CalledBelowItsRoot(contexts[n], at + [n], w);
      EarlierSiblingsAreBefore(at, i, n, v.position, w.position);
    }
  }

  // ---- Adapted instances ----

  function RemoteCalls(visits: seq<Visit>): seq<Client> {
    if visits == [] then []
    else
      var last := visits[|visits| - 1];
      RemoteCalls(visits[..|visits| - 1]) + (if last.instance.Remote? then [last.instance.client] else [])
  }

  lemma {:induction false} RemoteCallsConcat(a: seq<Visit>, b: seq<Visit>)
    ensures RemoteCalls(a + b) == RemoteCalls(a) + RemoteCalls(b)
    decreases |b|
  {
    if b == [] {
      assert a + b == a;
    } else {
      var c := a + b;
      RemoteCallsConcat(a, b[..|b| - 1]);
      assert c[..|c| - 1] == a + b[..|b| - 1] && c[|c| - 1] == b[|b| - 1];
    }
  }

  /** Remote instances have no subcomponents on this side. */
  predicate RemotesAreLeaves(context: Context) {
    && (context.instance.Remote? ==> context.children == [])
    && forall i :: 0 <= i < |context.children| ==> RemotesAreLeaves(context.children[i])
  }

  lemma {:induction false} RemoteCallsAreTheRemotes(context: Context, at: seq<nat>)
    requires RemotesAreLeaves(context)
    ensures RemoteCalls(Order(context, at)) == Remotes(context)
    decreases context, 1
  {
    var own := [Visit(at, context.instance)];
    AllRemoteCalls(context.children, at);
    RemoteCallsConcat(OrderAll(context.children, at), own);
    assert own[..0] == [];
  }

  lemma {:induction false} AllRemoteCalls(contexts: seq<Context>, at: seq<nat>)
    requires forall i :: 0 <= i < |contexts| ==> RemotesAreLeaves(contexts[i])
    ensures RemoteCalls(OrderAll(contexts, at)) == RemotesAll(contexts)
    decreases contexts, 0
  {
    if contexts == [] {
    } else {
      var n := |contexts| - 1;
      AllRemoteCalls(contexts[..n], at);
      RemoteCallsAreTheRemotes(contexts[n], at + [n]);
      RemoteCallsConcat(OrderAll(contexts[..n], at), Order(contexts[n], at + [n]));
    }
  }

  lemma {:induction false} BuiltRemotesAreLeaves(context: Context, plan: Plan, prepared: map<string, Client>)
    requires Matches(context, Strip(plan), prepared) && AdaptedAreLeaves(plan)
    ensures RemotesAreLeaves(context)
  {
    assert Strip(plan).children == StripAll(plan.children);
    forall i | 0 <= i < |context.children| ensures RemotesAreLeaves(context.children[i]) {
      BuiltRemotesAreLeaves(context.children[i], plan.children[i], prepared);
    }
  }

  /**
   Initializing the contexts built after a full preparation calls the client of each collected adapted component
   once, in collection order.
   */
  lemma {:induction false} EachAdaptedComponentIsInitializedOnce(
      disk: Disk, env: Environment, prepared: map<string, Client>, nodes: seq<Node>, depth: nat, at: seq<nat>)
    requires AreRoots(disk, nodes)
    requires PlanAll(disk, nodes, depth).Ok? && NoDivergentRoot(PlanAll(disk, nodes, depth).value)
    requires FullyPrepared(disk, prepared, PreorderAll(PlanAll(disk, nodes, depth).value))
    requires BuildRoots(disk, env, prepared, nodes, depth).Ok?
    ensures var collected := AdaptedNodes(PreorderAll(PlanAll(disk, nodes, depth).value));
            var calls := RemoteCalls(OrderAll(BuildRoots(disk, env, prepared, nodes, depth).value, at));
            SpecsOfClients(calls) == SpecsOf(collected) && Distinct(calls)
  {
    var plans := PlanAll(disk, nodes, depth).value;
    var contexts := BuildRoots(disk, env, prepared, nodes, depth).value;
    BuiltContextsUseEachPreparedInstanceOnce(disk, env, prepared, nodes, depth);
    DistinctNamesMeanDistinctClients(RemotesAll(contexts), AdaptedNodes(PreorderAll(plans)));
    PlansOfNodes(disk, nodes, depth);
    forall i | 0 <= i < |contexts| ensures RemotesAreLeaves(contexts[i]) {
      PlannedAdaptedAreLeaves(disk, nodes[i], depth);
      assert StripAll(plans)[i] == Strip(plans[i]);
      BuiltRemotesAreLeaves(contexts[i], plans[i], prepared);
    }
    AllRemoteCalls(contexts, at);
  }
}
