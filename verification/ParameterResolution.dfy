/** Merging described defaults with overrides, and reading a resolved parameter back as a typed value. */
module ParameterResolution {
  import opened Wrappers
  import opened Sequences
  import opened ParameterConversion

  datatype Description = Description(name: string, defaultValue: Value)

  type Values = map<string, Value>

  /** The value a described parameter ends up with. */
  function Choose(name: string, defaultValue: Value, overrides: Values): Value {
    if name in overrides then overrides[name] else defaultValue
  }

  /** What resolving against a map of defaults means. */
  function Resolved(defaults: Values, overrides: Values): Values {
    map name | name in defaults :: Choose(name, defaults[name], overrides)
  }

  function EntriesOf(descriptions: seq<Description>): seq<(string, Value)> {
    seq(|descriptions|, i requires 0 <= i < |descriptions| => (descriptions[i].name, descriptions[i].defaultValue))
  }

  /** The map a list of descriptions stands for: of two with one name, the later wins. */
  function LastWins(descriptions: seq<Description>): Values {
    Assigned(EntriesOf(descriptions))
  }

  lemma {:induction false} LastWinsSnoc(descriptions: seq<Description>, d: Description)
    ensures LastWins(descriptions + [d]) == LastWins(descriptions)[d.name := d.defaultValue]
  {
    AssignedSnoc(EntriesOf(descriptions), (d.name, d.defaultValue));
    assert EntriesOf(descriptions + [d]) == EntriesOf(descriptions) + [(d.name, d.defaultValue)];
  }

  lemma {:induction false} LastWinsNames(descriptions: seq<Description>, name: string)
    ensures name in LastWins(descriptions) <==> exists d :: d in descriptions && d.name == name
  {
    AssignedKeys(EntriesOf(descriptions), name);
    if d :| d in descriptions && d.name == name {
      var i :| 0 <= i < |descriptions| && descriptions[i] == d;
      assert EntriesOf(descriptions)[i].0 == name;
    }
    if i :| 0 <= i < |descriptions| && EntriesOf(descriptions)[i].0 == name {
      assert descriptions[i] in descriptions;
    }
  }

  lemma {:induction false} ResolvedAfterUpdate(defaults: Values, overrides: Values, d: Description)
    ensures Resolved(defaults[d.name := d.defaultValue], overrides)
         == Resolved(defaults, overrides)[d.name := Choose(d.name, d.defaultValue, overrides)]
  {
  }

  /** Exactly the described names are resolved; an override wins, and a name without one has its default. */
  predicate Merges(resolved: Values, defaults: Values, overrides: Values) {
    && resolved.Keys == defaults.Keys
    && (forall name :: name in defaults && name in overrides ==> resolved[name] == overrides[name])
    && (forall name :: name in defaults && name !in overrides ==> resolved[name] == defaults[name])
  }

  method ResolveList(descriptions: seq<Description>, overrides: Values) returns (resolved: Values)
    ensures resolved == Resolved(LastWins(descriptions), overrides)
    ensures Merges(resolved, LastWins(descriptions), overrides)
  {
    resolved := map[];
    for i := 0 to |descriptions|
      invariant resolved == Resolved(LastWins(descriptions[..i]), overrides)
    {
      var d := descriptions[i];
      assert descriptions[..i + 1] == descriptions[..i] + [d];
      LastWinsSnoc(descriptions[..i], d);
      ResolvedAfterUpdate(LastWins(descriptions[..i]), overrides, d);
      if d.name in overrides {
        resolved := resolved[d.name := overrides[d.name]];
      } else {
        resolved := resolved[d.name := d.defaultValue];
      }
    }
    assert descriptions[..|descriptions|] == descriptions;
  }

  method ResolveMap(defaults: Values, overrides: Values) returns (resolved: Values)
    ensures resolved == Resolved(defaults, overrides)
    ensures Merges(resolved, defaults, overrides)
  {
    resolved := map[];
    var left := defaults.Keys;
    while left != {}
      invariant left <= defaults.Keys && resolved.Keys == defaults.Keys - left
      invariant forall name :: name in resolved ==> resolved[name] == Choose(name, defaults[name], overrides)
      decreases left
    {
      var name :| name in left;
      if name in overrides {
        resolved := resolved[name := overrides[name]];
      } else {
        resolved := resolved[name := defaults[name]];
      }
      left := left - {name};
    }
  }

  /** Parameters::get: None is the exception for an unknown name or a value of the wrong type. */
  function Get(values: Values, name: string, ty: Ty, r: Rounding): Option<Native> {
    if name !in values then None else From(ty, values[name], r)
  }

  /** ParameterDescription::create. */
  function Create(name: string, n: Native, ty: Ty, r: Rounding): Description
    requires Inhabits(n, ty, r)
  {
    Description(name, To(n, ty, r))
  }

  function NamesOf(descriptions: seq<Description>): seq<string> {
    seq(|descriptions|, i requires 0 <= i < |descriptions| => descriptions[i].name)
  }

  /** The default a list gives a name is that of the last description carrying it. */
  lemma {:induction false} LastDescriptionDecides(descriptions: seq<Description>, i: nat)
    requires i < |descriptions|
    requires forall j :: i < j < |descriptions| ==> descriptions[j].name != descriptions[i].name
    ensures descriptions[i].name in LastWins(descriptions)
    ensures LastWins(descriptions)[descriptions[i].name] == descriptions[i].defaultValue
  {
    LastAssignmentWins(EntriesOf(descriptions), i);
  }

  /** A parameter created with a typed default and not overridden reads back as that default. */
  lemma {:induction false} DefaultsReadBack(
      descriptions: seq<Description>, overrides: Values, i: nat, n: Native, ty: Ty, r: Rounding)
    requires Lawful(r) && WellFormed(ty) && Inhabits(n, ty, r)
    requires Distinct(NamesOf(descriptions)) && i < |descriptions|
    requires descriptions[i] == Create(descriptions[i].name, n, ty, r)
    requires descriptions[i].name !in overrides
    ensures Get(Resolved(LastWins(descriptions), overrides), descriptions[i].name, ty, r) == Some(n)
  {
    forall j | i < j < |descriptions| ensures descriptions[j].name != descriptions[i].name {
      assert NamesOf(descriptions)[i] != NamesOf(descriptions)[j];
    }
    LastDescriptionDecides(descriptions, i);
    TypedRoundTrip(n, ty, r);
  }

  /** Resolving a list, name by name: what is described, what an override changes, and what it does not. */
  lemma {:induction false} EachNameResolves(descriptions: seq<Description>, overrides: Values, name: string)
    ensures var resolved := Resolved(LastWins(descriptions), overrides);
            && (name in resolved <==> exists d :: d in descriptions && d.name == name)
            && (name in resolved && name in overrides ==> resolved[name] == overrides[name])
            && (name in resolved && name !in overrides ==>
                  exists i ::
                    && 0 <= i < |descriptions| && descriptions[i].name == name
                    && descriptions[i].defaultValue == resolved[name]
                    && forall j :: i < j < |descriptions| ==> descriptions[j].name != name)
  {
    LastWinsNames(descriptions, name);
    if name in LastWins(descriptions) {
      var i := LastDescriptionOf(descriptions, name);
      LastDescriptionDecides(descriptions, i);
    }
  }

  lemma {:induction false} LastDescriptionOf(descriptions: seq<Description>, name: string) returns (i: nat)
    requires exists d :: d in descriptions && d.name == name
    ensures i < |descriptions| && descriptions[i].name == name
    ensures forall j :: i < j < |descriptions| ==> descriptions[j].name != name
  {
    var n := |descriptions| - 1;
    if descriptions[n].name == name {
      i := n;
    } else {
      assert descriptions == descriptions[..n] + [descriptions[n]];
      i := LastDescriptionOf(descriptions[..n], name);
    }
  }

  /** An override of a described parameter reads back as itself. */
  lemma {:induction false} OverrideReadsBack(
      descriptions: seq<Description>, overrides: Values, name: string, n: Native, ty: Ty, r: Rounding)
    requires Lawful(r) && WellFormed(ty) && Inhabits(n, ty, r)
    requires exists d :: d in descriptions && d.name == name
    requires name in overrides && overrides[name] == To(n, ty, r)
    ensures Get(Resolved(LastWins(descriptions), overrides), name, ty, r) == Some(n)
  {
    EachNameResolves(descriptions, overrides, name);
    TypedRoundTrip(n, ty, r);
  }

  /** get succeeds exactly on described names whose override, or else whose last default, has the asked type. */
  lemma {:induction false} GetSucceedsExactly(
      descriptions: seq<Description>, overrides: Values, name: string, ty: Ty, r: Rounding)
    ensures Get(Resolved(LastWins(descriptions), overrides), name, ty, r).Some? <==>
              && (exists d :: d in descriptions && d.name == name)
              && name in LastWins(descriptions)
              && Conforms(ty, if name in overrides then overrides[name] else LastWins(descriptions)[name])
  {
    LastWinsNames(descriptions, name);
    if name in LastWins(descriptions) {
      FromSucceedsExactlyOnConforming(ty, Choose(name, LastWins(descriptions)[name], overrides), r);
    }
  }
}
