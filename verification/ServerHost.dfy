/** The server host: it registers adapters under the connection names they report. */
module ServerHosts {
  import opened Sequences
  import opened ContextBuilding

  /** A server adapter over a context; it reports the connection name it was configured with. */
  datatype Adapter = Adapter(connection: string, context: Context)

  function EntriesOf(adapters: seq<Adapter>): seq<(string, Adapter)> {
    seq(|adapters|, i requires 0 <= i < |adapters| => (adapters[i].connection, adapters[i]))
  }

  /** The registry after adding adapters one by one, each under the name it reports. */
  function Registered(adapters: seq<Adapter>): map<string, Adapter> {
    Assigned(EntriesOf(adapters))
  }

  lemma {:induction false} RegisteredSnoc(adapters: seq<Adapter>, adapter: Adapter)
    ensures Registered(adapters + [adapter]) == Registered(adapters)[adapter.connection := adapter]
  {
    AssignedSnoc(EntriesOf(adapters), (adapter.connection, adapter));
    assert EntriesOf(adapters + [adapter]) == EntriesOf(adapters) + [(adapter.connection, adapter)];
  }

  /** Adapter i is over context i, under connection i. */
  function AdaptersOf(connections: seq<string>, contexts: seq<Context>): seq<Adapter>
    requires |connections| == |contexts|
  {
    seq(|contexts|, i requires 0 <= i < |contexts| => Adapter(connections[i], contexts[i]))
  }

  class RppServerHost {
    var adapters: map<string, Adapter>

    constructor ()
      ensures adapters == map[]
    {
      adapters := map[];
    }

    method AddServer(adapter: Adapter)
      modifies this
      ensures adapters == old(adapters)[adapter.connection := adapter]
      ensures forall earlier :: old(adapters) == Registered(earlier) ==> adapters == Registered(earlier + [adapter])
    {
      forall earlier ensures Registered(earlier + [adapter]) == Registered(earlier)[adapter.connection := adapter] {
        RegisteredSnoc(earlier, adapter);
      }
      adapters := adapters[adapter.connection := adapter];
    }
  }

  function ConnectionsOf(adapters: seq<Adapter>): seq<string> {
    seq(|adapters|, i requires 0 <= i < |adapters| => adapters[i].connection)
  }

  /** A connection name resolves to the last adapter that reported it. */
  lemma {:induction false} LastRegistrationWins(adapters: seq<Adapter>, i: nat)
    requires i < |adapters|
    requires forall j :: i < j < |adapters| ==> adapters[j].connection != adapters[i].connection
    ensures adapters[i].connection in Registered(adapters)
    ensures Registered(adapters)[adapters[i].connection] == adapters[i]
  {
    LastAssignmentWins(EntriesOf(adapters), i);
  }

  lemma {:induction false} RegisteredNames(adapters: seq<Adapter>, name: string)
    ensures name in Registered(adapters) <==> name in ConnectionsOf(adapters)
  {
    AssignedKeys(EntriesOf(adapters), name);
    assert forall i :: 0 <= i < |adapters| ==> EntriesOf(adapters)[i].0 == ConnectionsOf(adapters)[i];
  }

  /** No adapter is lost exactly when the connection names are pairwise distinct. */
  lemma {:induction false} NoneLostExactlyWhenDistinct(adapters: seq<Adapter>)
    ensures |Registered(adapters)| <= |adapters|
    ensures |Registered(adapters)| == |adapters| <==> Distinct(ConnectionsOf(adapters))
  {
    if adapters == [] {
    } else {
      var front, last := adapters[..|adapters| - 1], adapters[|adapters| - 1];
      NoneLostExactlyWhenDistinct(front);
      RegisteredNames(front, last.connection);
      DistinctSnoc(ConnectionsOf(front), last.connection);
      assert ConnectionsOf(adapters) == ConnectionsOf(front) + [last.connection];
      assert adapters == front + [last];
      RegisteredSnoc(front, last);
    }
  }

  /** With distinct names, looking up connection i yields the adapter over context i. */
  lemma {:induction false} EachConnectionFindsItsContext(connections: seq<string>, contexts: seq<Context>, i: nat)
    requires |connections| == |contexts| && Distinct(connections) && i < |contexts|
    ensures var registry := Registered(AdaptersOf(connections, contexts));
            && |registry| == |contexts|
            && connections[i] in registry
            && registry[connections[i]] == Adapter(connections[i], contexts[i])
  {
    var adapters := AdaptersOf(connections, contexts);
    assert ConnectionsOf(adapters) == connections;
    NoneLostExactlyWhenDistinct(adapters);
    LastRegistrationWins(adapters, i);
  }
}
