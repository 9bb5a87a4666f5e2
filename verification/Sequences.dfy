/** What sequences share: being free of repetition, and the map that assigning their entries one by one fills. */
module Sequences {

  predicate Distinct<T(==)>(xs: seq<T>) {
    forall i, j :: 0 <= i < j < |xs| ==> xs[i] != xs[j]
  }

  lemma {:induction false} DistinctSnoc<T>(xs: seq<T>, x: T)
    ensures Distinct(xs + [x]) <==> Distinct(xs) && x !in xs
  {
    if Distinct(xs + [x]) {
      forall i, j | 0 <= i < j < |xs| ensures xs[i] != xs[j] {
        assert (xs + [x])[i] != (xs + [x])[j];
      }
      forall i | 0 <= i < |xs| ensures xs[i] != x {
        assert (xs + [x])[i] != (xs + [x])[|xs|];
      }
    }
  }

  lemma {:induction false} DistinctCardinality<T>(xs: seq<T>)
    requires Distinct(xs)
    ensures |set x | x in xs| == |xs|
  {
    if xs == [] {
    } else {
      var front, last := xs[..|xs| - 1], xs[|xs| - 1];
      assert xs == front + [last];
      DistinctSnoc(front, last);
      DistinctCardinality(front);
      assert (set x | x in xs) == (set x | x in front) + {last};
    }
  }

  lemma {:induction false} DistinctMeansMultiplicityOne<T>(xs: seq<T>)
    ensures Distinct(xs) <==> forall x :: multiset(xs)[x] <= 1
  {
    if xs == [] {
    } else {
      var front, last := xs[..|xs| - 1], xs[|xs| - 1];
      assert xs == front + [last];
      DistinctSnoc(front, last);
      DistinctMeansMultiplicityOne(front);
      assert multiset(xs)[last] == multiset(front)[last] + 1;
      assert forall x :: x != last ==> multiset(xs)[x] == multiset(front)[x];
    }
  }

  /** The map after assigning the entries one by one. */
  function Assigned<K, V>(entries: seq<(K, V)>): map<K, V> {
    if entries == [] then map[]
    else
      var last := entries[|entries| - 1];
      Assigned(entries[..|entries| - 1])[last.0 := last.1]
  }

  lemma {:induction false} AssignedSnoc<K, V>(entries: seq<(K, V)>, entry: (K, V))
    ensures Assigned(entries + [entry]) == Assigned(entries)[entry.0 := entry.1]
  {
    assert (entries + [entry])[..|entries|] == entries;
  }

  lemma {:induction false} AssignedKeys<K, V>(entries: seq<(K, V)>, key: K)
    ensures key in Assigned(entries) <==> exists i :: 0 <= i < |entries| && entries[i].0 == key
  {
    if entries == [] {
    } else {
      AssignedKeys(entries[..|entries| - 1], key);
    }
  }

  /** Of several assignments to one key the last wins. */
  lemma {:induction false} LastAssignmentWins<K, V>(entries: seq<(K, V)>, i: nat)
    requires i < |entries|
    requires forall j :: i < j < |entries| ==> entries[j].0 != entries[i].0
    ensures entries[i].0 in Assigned(entries) && Assigned(entries)[entries[i].0] == entries[i].1
    decreases |entries|
  {
    if i == |entries| - 1 {
    } else {
      LastAssignmentWins(entries[..|entries| - 1], i);
    }
  }
}
