/** The container converters as the loops they are, each proved against its case of the conversion functions. */
module ParameterConverters {
  import opened Wrappers
  import opened ParameterConversion

  method ConvertFrom(ty: Ty, v: Value, r: Rounding) returns (result: Option<Native>)
    ensures result == From(ty, v, r)
    decreases ty, 1
  {
    match ty {
      case IntTy(width) =>
        if !v.Int? {
          return None;
        }
        result := Some(NInt(Narrow(width, v.i)));
      case FloatTy =>
        if v.Int? {
          return Some(NFloat(r.ofIntSingle(v.i)));
        }
        if !v.Float? {
          return None;
        }
        result := Some(NFloat(r.single(v.d)));
      case DoubleTy =>
        if v.Int? {
          return Some(NDouble(r.ofInt(v.i)));
        }
        if !v.Float? {
          return None;
        }
        result := Some(NDouble(v.d));
      case BoolTy =>
        if !v.Bool? {
          return None;
        }
        result := Some(NBool(v.b));
      case TextTy =>
        if !v.Text? {
          return None;
        }
        result := Some(NText(v.s));
      case AnyTy => result := Some(NAny(v));
      case VectorTy(element) =>
        if !v.Array? {
          return None;
        }
        result := VectorFrom(ty, v, r);
      case MapTy(element) =>
        if !v.Object? {
          return None;
        }
        result := MapFrom(ty, v, r);
      case StructTy(members) =>
        if !v.Object? {
          return None;
        }
        result := StructFrom(ty, v, r);
    }
  }

  method VectorFrom(ty: Ty, v: Value, r: Rounding) returns (result: Option<Native>)
    requires ty.VectorTy? && v.Array?
    ensures result == From(ty, v, r)
    decreases ty, 0
  {
    var items: seq<Native> := [];
    for i := 0 to |v.items|
      invariant |items| == i
      invariant forall j :: 0 <= j < i ==> From(ty.element, v.items[j], r) == Some(items[j])
    {
      var item := ConvertFrom(ty.element, v.items[i], r);
      if item.None? {
        return None;
      }
      items := items + [item.value];
    }
    assert items == From(ty, v, r).value.items;
    result := Some(NVector(items));
  }

  /** The entries are visited in whatever order; which failing entry throws first makes no difference. */
  method MapFrom(ty: Ty, v: Value, r: Rounding) returns (result: Option<Native>)
    requires ty.MapTy? && v.Object?
    ensures result == From(ty, v, r)
    decreases ty, 0
  {
    var entries: map<string, Native> := map[];
    var left := v.fields.Keys;
    while left != {}
      invariant left <= v.fields.Keys && entries.Keys == v.fields.Keys - left
      invariant forall k :: k in entries ==> From(ty.element, v.fields[k], r) == Some(entries[k])
      decreases left
    {
      var key :| key in left;
      var entry := ConvertFrom(ty.element, v.fields[key], r);
      if entry.None? {
        return None;
      }
      entries := entries[key := entry.value];
      left := left - {key};
    }
    assert entries == From(ty, v, r).value.entries;
    result := Some(NMap(entries));
  }

  method StructFrom(ty: Ty, v: Value, r: Rounding) returns (result: Option<Native>)
    requires ty.StructTy? && v.Object?
    ensures result == From(ty, v, r)
    decreases ty, 0
  {
    var members: seq<Native> := [];
    for i := 0 to |ty.members|
      invariant |members| == i
      invariant forall j :: 0 <= j < i ==>
        HasMember(ty.members[j], v, r) &&
        From(ty.members[j].ty, v.fields[ty.members[j].name], r) == Some(members[j])
    {
      if ty.members[i].name !in v.fields {
        assert !HasMember(ty.members[i], v, r);
        return None;
      }
      var member := ConvertFrom(ty.members[i].ty, v.fields[ty.members[i].name], r);
      if member.None? {
        assert !HasMember(ty.members[i], v, r);
        return None;
      }
      members := members + [member.value];
    }
    assert members == From(ty, v, r).value.members;
    result := Some(NStruct(members));
  }

  method ConvertTo(n: Native, ty: Ty, r: Rounding) returns (v: Value)
    requires Inhabits(n, ty, r)
    ensures v == To(n, ty, r)
    decreases ty
  {
    match ty {
      case IntTy(_) => v := Int(n.i);
      case FloatTy => v := Float(n.d);
      case DoubleTy => v := Float(n.d);
      case BoolTy => v := Bool(n.b);
      case TextTy => v := Text(n.s);
      case AnyTy => v := n.value;
      case VectorTy(element) =>
        var items: seq<Value> := [];
        for i := 0 to |n.items|
          invariant |items| == i
          invariant forall j :: 0 <= j < i ==> items[j] == To(n.items[j], element, r)
        {
          var item := ConvertTo(n.items[i], element, r);
          items := items + [item];
        }
        assert items == To(n, ty, r).items;
        v := Array(items);
      case MapTy(element) =>
        var fields: map<string, Value> := map[];
        var left := n.entries.Keys;
        while left != {}
          invariant left <= n.entries.Keys && fields.Keys == n.entries.Keys - left
          invariant forall k :: k in fields ==> fields[k] == To(n.entries[k], element, r)
          decreases left
        {
          var key :| key in left;
          var field := ConvertTo(n.entries[key], element, r);
          fields := fields[key := field];
          left := left - {key};
        }
        assert fields == To(n, ty, r).fields;
        v := Object(fields);
      case StructTy(members) =>
        var fields: map<string, Value> := map[];
        for i := 0 to |members|
          invariant fields == ToFields(n, ty, i, r)
        {
          var field := ConvertTo(n.members[i], members[i].ty, r);
          fields := fields[members[i].name := field];
        }
        v := Object(fields);
    }
  }
}
