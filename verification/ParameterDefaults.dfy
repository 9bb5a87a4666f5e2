/** The JSON defaults of a plugin description, read into parameter values by a recursive descent over type tags. */
module ParameterDefaults {
  import opened Wrappers
  import opened ParameterConversion

  /** A parsed JSON document; integers are those a 64-bit signed or unsigned number holds. */
  datatype Json =
    | JNull
    | JBool(b: bool)
    | JInt(i: int)
    | JReal(d: Double)
    | JText(s: string)
    | JArray(items: seq<Json>)
    | JObject(fields: map<string, Json>)

  /** Conversions of numbers the JSON library makes: a real read as a 32-bit integer, an integer as a double. */
  datatype Numbers = Numbers(truncate: Double -> int, rounding: Rounding)

  const ZERO: Double := Double(0)

  /** The text under "type", by default "": None is the library's exception. */
  function Tag(j: Json): Option<string> {
    if !j.JObject? then None
    else if "type" !in j.fields then Some("")
    else if j.fields["type"].JText? then Some(j.fields["type"].s)
    else None
  }

  /** value("default_value", 0): any JSON number or boolean, converted to a 32-bit int. */
  function DefaultInt(j: Json, numbers: Numbers): Option<Value>
    requires j.JObject?
  {
    if "default_value" !in j.fields then Some(Int(0))
    else
      match j.fields["default_value"]
      case JInt(i) => Some(Int(Narrow(W32, i)))
      case JReal(d) => Some(Int(Narrow(W32, numbers.truncate(d))))
      case JBool(b) => Some(Int(if b then 1 else 0))
      case _ => None
  }

  function DefaultFloat(j: Json, numbers: Numbers): Option<Value>
    requires j.JObject?
  {
    if "default_value" !in j.fields then Some(Float(ZERO))
    else
      match j.fields["default_value"]
      case JInt(i) => Some(Float(numbers.rounding.ofInt(i)))
      case JReal(d) => Some(Float(d))
      case _ => None
  }

  function DefaultBool(j: Json): Option<Value>
    requires j.JObject?
  {
    if "default_value" !in j.fields then Some(Bool(false))
    else if j.fields["default_value"].JBool? then Some(Bool(j.fields["default_value"].b))
    else None
  }

  function DefaultText(j: Json): Option<Value>
    requires j.JObject?
  {
    if "default_value" !in j.fields then Some(Text(""))
    else if j.fields["default_value"].JText? then Some(Text(j.fields["default_value"].s))
    else None
  }

  /** The list under "elements"; anything but an array counts as empty. */
  function Elements(j: Json): (items: seq<Json>)
    requires j.JObject?
    ensures forall item :: item in items ==> item < j
  {
    if "elements" in j.fields && j.fields["elements"].JArray? then j.fields["elements"].items else []
  }

  /** The object under "fields"; anything but an object counts as empty. */
  function Fields(j: Json): (fields: map<string, Json>)
    requires j.JObject?
    ensures forall k :: k in fields ==> fields[k] < j
  {
    if "fields" in j.fields && j.fields["fields"].JObject? then j.fields["fields"].fields else map[]
  }

  function ReadDefault(j: Json, numbers: Numbers): Option<Value>
    decreases j
  {
    match Tag(j)
    case None => None
    case Some(tag) =>
      if tag == "int" then DefaultInt(j, numbers)
      else if tag == "float" then DefaultFloat(j, numbers)
      else if tag == "bool" then DefaultBool(j)
      else if tag == "string" then DefaultText(j)
      else if tag == "array" then
        var items := Elements(j);
        if forall i :: 0 <= i < |items| ==> ReadDefault(items[i], numbers).Some? then
          Some(Array(seq(|items|, i requires 0 <= i < |items| && ReadDefault(items[i], numbers).Some? =>
                           ReadDefault(items[i], numbers).value)))
        else None
      else if tag == "object" then
        var fields := Fields(j);
        if forall k :: k in fields ==> ReadDefault(fields[k], numbers).Some? then
          Some(Object(map k | k in fields :: ReadDefault(fields[k], numbers).value))
        else None
      else None
  }

  /** The recursive lambda itself, filling a list or a map in a loop. */
  method ParseParameterValue(j: Json, numbers: Numbers) returns (result: Option<Value>)
    ensures result == ReadDefault(j, numbers)
    decreases j
  {
    var tag := Tag(j);
    if tag.None? {
      return None;
    }
    if tag.value == "int" {
      return DefaultInt(j, numbers);
    }
    if tag.value == "float" {
      return DefaultFloat(j, numbers);
    }
    if tag.value == "bool" {
      return DefaultBool(j);
    }
    if tag.value == "string" {
      return DefaultText(j);
    }
    if tag.value == "array" {
      var items, values := Elements(j), [];
      for i := 0 to |items|
        invariant |values| == i
        invariant forall k :: 0 <= k < i ==> ReadDefault(items[k], numbers) == Some(values[k])
      {
        var value := ParseParameterValue(items[i], numbers);
        if value.None? {
          return None;
        }
        values := values + [value.value];
      }
      assert values == ReadDefault(j, numbers).value.items;
      return Some(Array(values));
    }
    if tag.value == "object" {
      var fields, values := Fields(j), map[];
      var left := fields.Keys;
      while left != {}
        invariant left <= fields.Keys && values.Keys == fields.Keys - left
        invariant forall k :: k in values ==> ReadDefault(fields[k], numbers) == Some(values[k])
        decreases left
      {
        var key :| key in left;
        var value := ParseParameterValue(fields[key], numbers);
        if value.None? {
          return None;
        }
        values := values[key := value.value];
        left := left - {key};
      }
      assert values == ReadDefault(j, numbers).value.fields;
      return Some(Object(values));
    }
    return None;
  }

  predicate Tagged(j: Json, tag: string) {
    Tag(j) == Some(tag)
  }

  predicate DefaultIs(j: Json, allowed: Json -> bool)
    requires j.JObject?
  {
    "default_value" in j.fields ==> allowed(j.fields["default_value"])
  }

  /** Trees without a wrong tag or a default of the wrong kind, at any depth. */
  predicate Readable(j: Json) {
    || (Tagged(j, "int") && DefaultIs(j, (d: Json) => d.JInt? || d.JReal? || d.JBool?))
    || (Tagged(j, "float") && DefaultIs(j, (d: Json) => d.JInt? || d.JReal?))
    || (Tagged(j, "bool") && DefaultIs(j, (d: Json) => d.JBool?))
    || (Tagged(j, "string") && DefaultIs(j, (d: Json) => d.JText?))
    || (Tagged(j, "array") && forall i :: 0 <= i < |Elements(j)| ==> Readable(Elements(j)[i]))
    || (Tagged(j, "object") && forall k :: k in Fields(j) ==> Readable(Fields(j)[k]))
  }

  lemma {:induction false} ReadSucceedsExactlyOnReadable(j: Json, numbers: Numbers)
    ensures ReadDefault(j, numbers).Some? <==> Readable(j)
    decreases j
  {
    if Tagged(j, "array") {
      var items := Elements(j);
      forall i | 0 <= i < |items| ensures ReadDefault(items[i], numbers).Some? <==> Readable(items[i]) {
        ReadSucceedsExactlyOnReadable(items[i], numbers);
      }
    } else if Tagged(j, "object") {
      var fields := Fields(j);
      forall k | k in fields ensures ReadDefault(fields[k], numbers).Some? <==> Readable(fields[k]) {
        ReadSucceedsExactlyOnReadable(fields[k], numbers);
      }
    }
  }

  /** The tags describe a value of the type; extra fields of a struct are allowed. */
  predicate TagsMatch(j: Json, ty: Ty)
    decreases ty
  {
    match ty
    case IntTy(_) => Tagged(j, "int")
    case FloatTy => Tagged(j, "int") || Tagged(j, "float")
    case DoubleTy => Tagged(j, "int") || Tagged(j, "float")
    case BoolTy => Tagged(j, "bool")
    case TextTy => Tagged(j, "string")
    case AnyTy => true
    case VectorTy(element) =>
      Tagged(j, "array") && forall i :: 0 <= i < |Elements(j)| ==> TagsMatch(Elements(j)[i], element)
    case MapTy(element) =>
      Tagged(j, "object") && forall k :: k in Fields(j) ==> TagsMatch(Fields(j)[k], element)
    case StructTy(members) =>
      Tagged(j, "object") && forall i :: 0 <= i < |members| ==>
        members[i].name in Fields(j) && TagsMatch(Fields(j)[members[i].name], members[i].ty)
  }

  /** A readable default converts to a type exactly when its tags match the type. */
  lemma {:induction false} DefaultFitsExactlyWhenTagsMatch(j: Json, ty: Ty, numbers: Numbers)
    requires Readable(j)
    ensures ReadDefault(j, numbers).Some?
    ensures From(ty, ReadDefault(j, numbers).value, numbers.rounding).Some? <==> TagsMatch(j, ty)
  {
    ReadSucceedsExactlyOnReadable(j, numbers);
    FromSucceedsExactlyOnConforming(ty, ReadDefault(j, numbers).value, numbers.rounding);
    DefaultConforms(j, ty, numbers);
  }

  lemma {:induction false} DefaultConforms(j: Json, ty: Ty, numbers: Numbers)
    requires ReadDefault(j, numbers).Some?
    ensures Conforms(ty, ReadDefault(j, numbers).value) <==> TagsMatch(j, ty)
    decreases ty
  {
    var v := ReadDefault(j, numbers).value;
    match ty
    case VectorTy(element) =>
      if Tagged(j, "array") {
        forall i | 0 <= i < |v.items| ensures Conforms(element, v.items[i]) <==> TagsMatch(Elements(j)[i], element) {
          DefaultConforms(Elements(j)[i], element, numbers);
        }
      }
    case MapTy(element) =>
      if Tagged(j, "object") {
        forall k | k in v.fields ensures Conforms(element, v.fields[k]) <==> TagsMatch(Fields(j)[k], element) {
          DefaultConforms(Fields(j)[k], element, numbers);
        }
      }
    case StructTy(members) =>
      if Tagged(j, "object") {
        forall i | 0 <= i < |members| && members[i].name in v.fields
          ensures Conforms(members[i].ty, v.fields[members[i].name])
             <==> TagsMatch(Fields(j)[members[i].name], members[i].ty)
        {
          DefaultConforms(Fields(j)[members[i].name], members[i].ty, numbers);
        }
      }
    case _ =>
  }

  /** Integer defaults pass through a 32-bit read: a parameter of any width gets its default iff it fits both. */
  lemma {:induction false} IntDefaultIsKeptExactly(i: int, w: Width, numbers: Numbers)
    ensures var j := JObject(map["type" := JText("int"), "default_value" := JInt(i)]);
            && ReadDefault(j, numbers).Some?
            && (From(IntTy(w), ReadDefault(j, numbers).value, numbers.rounding) == Some(NInt(i))
                <==> InRange(W32, i) && InRange(w, i))
  {
    var j := JObject(map["type" := JText("int"), "default_value" := JInt(i)]);
    assert Tag(j) == Some("int");
  }

  predicate HasTag(j: Json, tag: string) {
    j.JObject? && "type" in j.fields && j.fields["type"] == JText(tag)
  }

  /** A default of the tagged kind arrives as itself. */
  lemma {:induction false} ScalarDefaultsArrive(j: Json, numbers: Numbers)
    requires j.JObject? && "default_value" in j.fields
    ensures var d := j.fields["default_value"];
            && (HasTag(j, "bool") && d.JBool? ==> ReadDefault(j, numbers) == Some(Bool(d.b)))
            && (HasTag(j, "string") && d.JText? ==> ReadDefault(j, numbers) == Some(Text(d.s)))
            && (HasTag(j, "float") && d.JReal? ==> ReadDefault(j, numbers) == Some(Float(d.d)))
            && (HasTag(j, "float") && d.JInt? ==> ReadDefault(j, numbers) == Some(Float(numbers.rounding.ofInt(d.i))))
            && (HasTag(j, "int") && d.JInt? && InRange(W32, d.i) ==> ReadDefault(j, numbers) == Some(Int(d.i)))
            && (HasTag(j, "int") && d.JBool? ==> ReadDefault(j, numbers) == Some(Int(if d.b then 1 else 0)))
  {
  }

  /** Without a default the value is zero, false or empty. */
  lemma {:induction false} MissingDefaultsAreEmpty(j: Json, numbers: Numbers)
    requires j.JObject? && "default_value" !in j.fields
    ensures HasTag(j, "bool") ==> ReadDefault(j, numbers) == Some(Bool(false))
    ensures HasTag(j, "string") ==> ReadDefault(j, numbers) == Some(Text(""))
    ensures HasTag(j, "float") ==> ReadDefault(j, numbers) == Some(Float(Double(0)))
    ensures HasTag(j, "int") ==> ReadDefault(j, numbers) == Some(Int(0))
  {
  }

  /** Elements keep their order and fields their names; each is read by the same rules. */
  lemma {:induction false} NestedDefaultsStayInPlace(j: Json, numbers: Numbers)
    requires ReadDefault(j, numbers).Some?
    ensures HasTag(j, "array") && "elements" in j.fields && j.fields["elements"].JArray? ==>
              var items, read := j.fields["elements"].items, ReadDefault(j, numbers).value;
              && read.Array? && |read.items| == |items|
              && forall i :: 0 <= i < |items| ==> ReadDefault(items[i], numbers) == Some(read.items[i])
    ensures HasTag(j, "object") && "fields" in j.fields && j.fields["fields"].JObject? ==>
              var fields, read := j.fields["fields"].fields, ReadDefault(j, numbers).value;
              && read.Object? && read.fields.Keys == fields.Keys
              && forall k :: k in fields ==> ReadDefault(fields[k], numbers) == Some(read.fields[k])
  {
  }

  /** Without a known tag nothing is read. */
  lemma {:induction false} UnknownTagsAreRefused(j: Json, numbers: Numbers)
    requires forall tag :: tag in {"int", "float", "bool", "string", "array", "object"} ==> !HasTag(j, tag)
    ensures ReadDefault(j, numbers).None?
  {
    if j.JObject? && "type" in j.fields && j.fields["type"].JText? {
      assert HasTag(j, j.fields["type"].s);
    }
  }

  /** A default of the wrong kind is refused, not converted. */
  lemma {:induction false} WrongDefaultsAreRefused(j: Json, numbers: Numbers)
    requires j.JObject? && "default_value" in j.fields
    ensures var d := j.fields["default_value"];
            && (HasTag(j, "bool") && !d.JBool? ==> ReadDefault(j, numbers).None?)
            && (HasTag(j, "string") && !d.JText? ==> ReadDefault(j, numbers).None?)
            && (HasTag(j, "float") && !d.JReal? && !d.JInt? ==> ReadDefault(j, numbers).None?)
            && (HasTag(j, "int") && !d.JReal? && !d.JInt? && !d.JBool? ==> ReadDefault(j, numbers).None?)
  {
  }

  /** Missing or misplaced elements and fields count as none. */
  lemma {:induction false} MissingContainersAreEmpty(j: Json, numbers: Numbers)
    ensures HasTag(j, "array") && ("elements" in j.fields ==> !j.fields["elements"].JArray?) ==>
              ReadDefault(j, numbers) == Some(Array([]))
    ensures HasTag(j, "object") && ("fields" in j.fields ==> !j.fields["fields"].JObject?) ==>
              ReadDefault(j, numbers) == Some(Object(map[]))
  {
    if HasTag(j, "array") && ("elements" in j.fields ==> !j.fields["elements"].JArray?) {
      assert Elements(j) == [];
      assert ReadDefault(j, numbers).value.items == [];
    }
  }
}
