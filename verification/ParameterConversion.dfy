/**
 Parameter values and the converters between them and typed C++ values.  A C++ parameter type is a `Ty`; the
 specializations of the converter template are the cases of `To` and `From`.
 */
module ParameterConversion {
  import opened Wrappers

  // ---- Numbers ----

  const TWO63: int := 0x8000_0000_0000_0000

  type Int64 = i: int | -TWO63 <= i < TWO63

  /** A double by its bit pattern. */
  datatype Double = Double(pattern: nat)

  /** The conversions the hardware does: double to float and back, integer to double, integer to float. */
  datatype Rounding = Rounding(single: Double -> Double, ofInt: int -> Double, ofIntSingle: int -> Double)

  /** Widening a float is exact, so floats are the doubles that narrowing leaves alone. */
  ghost predicate Lawful(r: Rounding) {
    && (forall d :: r.single(r.single(d)) == r.single(d))
    && (forall i :: r.single(r.ofIntSingle(i)) == r.ofIntSingle(i))
  }

  datatype Width = W8 | W16 | W32 | W64

  function Half(w: Width): (half: int)
    ensures half > 0
  {
    match w
    case W8 => 0x80
    case W16 => 0x8000
    case W32 => 0x8000_0000
    case W64 => TWO63
  }

  predicate InRange(w: Width, i: int) { -Half(w) <= i < Half(w) }

  /** static_cast to a narrower signed integer keeps the low bits. */
  function Narrow(w: Width, i: int): (n: int)
    ensures InRange(w, n)
    ensures InRange(w, i) ==> n == i
  {
    var m := 2 * Half(w);
    var low := i % m;
    if low < Half(w) then low else low - m
  }

  lemma {:induction false} PositiveMultiple(k: int, m: int)
    requires k >= 1 && m > 0
    ensures k * m >= m
  {
    assert (k - 1) * m >= 0;
  }

  lemma {:induction false} QuotientIsUnique(i: int, m: int, q: int, low: int)
    requires 0 <= low < m && i == q * m + low
    ensures i % m == low
  {
    var p := i / m;
    assert i == p * m + i % m;
    assert (p - q) * m == p * m - q * m && (q - p) * m == q * m - p * m;
    if p > q {
      PositiveMultiple(p - q, m);
    } else if p < q {
      PositiveMultiple(q - p, m);
    }
  }

  /** The narrowed value is the one in range that differs by a multiple of the width's modulus. */
  lemma {:induction false} NarrowIsCongruent(w: Width, i: int, k: int, n: int)
    requires i == n + k * (2 * Half(w))
    ensures Narrow(w, i) == n <==> InRange(w, n)
  {
    var m := 2 * Half(w);
    if 0 <= n < Half(w) {
      QuotientIsUnique(i, m, k, n);
    } else if -Half(w) <= n < 0 {
      assert i == (k - 1) * m + (n + m);
      QuotientIsUnique(i, m, k - 1, n + m);
    }
  }

  // ---- Dynamic values, types and typed values ----

  datatype Value =
    | Null
    | Bool(b: bool)
    | Int(i: Int64)
    | Float(d: Double)
    | Text(s: string)
    | Array(items: seq<Value>)
    | Object(fields: map<string, Value>)

  /** `AnyTy` is ParameterValue itself; a struct is the list of its reflected members. */
  datatype Ty =
    | IntTy(width: Width)
    | FloatTy
    | DoubleTy
    | BoolTy
    | TextTy
    | AnyTy
    | VectorTy(element: Ty)
    | MapTy(element: Ty)
    | StructTy(members: seq<Member>)

  datatype Member = Member(name: string, ty: Ty)

  /** Members of one struct have different names. */
  predicate WellFormed(ty: Ty) {
    match ty
    case VectorTy(element) => WellFormed(element)
    case MapTy(element) => WellFormed(element)
    case StructTy(members) =>
      && (forall i, j :: 0 <= i < j < |members| ==> members[i].name != members[j].name)
      && forall i :: 0 <= i < |members| ==> WellFormed(members[i].ty)
    case _ => true
  }

  datatype Native =
    | NInt(i: int)
    | NFloat(d: Double)
    | NDouble(d: Double)
    | NBool(b: bool)
    | NText(s: string)
    | NAny(value: Value)
    | NVector(items: seq<Native>)
    | NMap(entries: map<string, Native>)
    | NStruct(members: seq<Native>)

  predicate Inhabits(n: Native, ty: Ty, r: Rounding) {
    match ty
    case IntTy(w) => n.NInt? && InRange(w, n.i)
    case FloatTy => n.NFloat? && r.single(n.d) == n.d
    case DoubleTy => n.NDouble?
    case BoolTy => n.NBool?
    case TextTy => n.NText?
    case AnyTy => n.NAny?
    case VectorTy(element) => n.NVector? && forall i :: 0 <= i < |n.items| ==> Inhabits(n.items[i], element, r)
    case MapTy(element) => n.NMap? && forall k :: k in n.entries ==> Inhabits(n.entries[k], element, r)
    case StructTy(members) =>
      && n.NStruct? && |n.members| == |members|
      && forall i :: 0 <= i < |members| ==> Inhabits(n.members[i], members[i].ty, r)
  }

  // ---- The converters ----

  function To(n: Native, ty: Ty, r: Rounding): Value
    requires Inhabits(n, ty, r)
    decreases ty, 1, 0
  {
    match ty
    case IntTy(_) => Int(n.i)
    case FloatTy => Float(n.d)
    case DoubleTy => Float(n.d)
    case BoolTy => Bool(n.b)
    case TextTy => Text(n.s)
    case AnyTy => n.value
    case VectorTy(element) =>
      Array(seq(|n.items|, i requires 0 <= i < |n.items| => To(n.items[i], element, r)))
    case MapTy(element) => Object(map k | k in n.entries :: To(n.entries[k], element, r))
    case StructTy(members) => Object(ToFields(n, ty, |members|, r))
  }

  /** The object after reflecting the first `count` members, each assigned under its name. */
  function ToFields(n: Native, ty: Ty, count: nat, r: Rounding): map<string, Value>
    requires ty.StructTy? && Inhabits(n, ty, r) && count <= |ty.members|
    decreases ty, 0, count
  {
    if count == 0 then map[]
    else
      var member := ty.members[count - 1];
      ToFields(n, ty, count - 1, r)[member.name := To(n.members[count - 1], member.ty, r)]
  }

  /** None is the exception the converter throws. */
  function From(ty: Ty, v: Value, r: Rounding): Option<Native> {
    match ty
    case IntTy(w) => if v.Int? then Some(NInt(Narrow(w, v.i))) else None
    case FloatTy =>
      if v.Int? then Some(NFloat(r.ofIntSingle(v.i)))
      else if v.Float? then Some(NFloat(r.single(v.d)))
      else None
    case DoubleTy =>
      if v.Int? then Some(NDouble(r.ofInt(v.i)))
      else if v.Float? then Some(NDouble(v.d))
      else None
    case BoolTy => if v.Bool? then Some(NBool(v.b)) else None
    case TextTy => if v.Text? then Some(NText(v.s)) else None
    case AnyTy => Some(NAny(v))
    case VectorTy(element) =>
      if v.Array? && forall i :: 0 <= i < |v.items| ==> From(element, v.items[i], r).Some? then
        Some(NVector(seq(|v.items|, i requires 0 <= i < |v.items| && From(element, v.items[i], r).Some? =>
                           From(element, v.items[i], r).value)))
      else None
    case MapTy(element) =>
      if v.Object? && forall k :: k in v.fields ==> From(element, v.fields[k], r).Some? then
        Some(NMap(map k | k in v.fields :: From(element, v.fields[k], r).value))
      else None
    case StructTy(members) =>
      if v.Object? && forall i :: 0 <= i < |members| ==> HasMember(members[i], v, r) then
        Some(NStruct(seq(|members|, i requires 0 <= i < |members| && HasMember(members[i], v, r) =>
                           From(members[i].ty, v.fields[members[i].name], r).value)))
      else None
  }

  /** The object has the field of a member, and it converts. */
  predicate HasMember(member: Member, v: Value, r: Rounding)
    requires v.Object?
  {
    member.name in v.fields && From(member.ty, v.fields[member.name], r).Some?
  }

  // ---- Which values convert ----

  /** The shape a type asks of a value: integers pass for floats, extra fields of a struct are ignored. */
  predicate Conforms(ty: Ty, v: Value) {
    match ty
    case IntTy(_) => v.Int?
    case FloatTy => v.Int? || v.Float?
    case DoubleTy => v.Int? || v.Float?
    case BoolTy => v.Bool?
    case TextTy => v.Text?
    case AnyTy => true
    case VectorTy(element) => v.Array? && forall i :: 0 <= i < |v.items| ==> Conforms(element, v.items[i])
    case MapTy(element) => v.Object? && forall k :: k in v.fields ==> Conforms(element, v.fields[k])
    case StructTy(members) =>
      v.Object? && forall i :: 0 <= i < |members| ==>
        members[i].name in v.fields && Conforms(members[i].ty, v.fields[members[i].name])
  }

  lemma {:induction false} FromSucceedsExactlyOnConforming(ty: Ty, v: Value, r: Rounding)
    ensures From(ty, v, r).Some? <==> Conforms(ty, v)
  {
    match ty
    case VectorTy(element) =>
      if v.Array? {
        forall i | 0 <= i < |v.items| ensures From(element, v.items[i], r).Some? <==> Conforms(element, v.items[i]) {
          FromSucceedsExactlyOnConforming(element, v.items[i], r);
        }
      }
    case MapTy(element) =>
      if v.Object? {
        forall k | k in v.fields ensures From(element, v.fields[k], r).Some? <==> Conforms(element, v.fields[k]) {
          FromSucceedsExactlyOnConforming(element, v.fields[k], r);
        }
      }
    case StructTy(members) =>
      if v.Object? {
        forall i | 0 <= i < |members|
          ensures HasMember(members[i], v, r) <==>
                  members[i].name in v.fields && Conforms(members[i].ty, v.fields[members[i].name])
        {
          if members[i].name in v.fields {
            FromSucceedsExactlyOnConforming(members[i].ty, v.fields[members[i].name], r);
          }
        }
      }
    case _ =>
  }

  /** What comes out of a conversion is a value of the C++ type: narrowed integers are in range. */
  lemma {:induction false} FromInhabits(ty: Ty, v: Value, r: Rounding)
    requires Lawful(r) && From(ty, v, r).Some?
    ensures Inhabits(From(ty, v, r).value, ty, r)
  {
    match ty
    case VectorTy(element) =>
      forall i | 0 <= i < |v.items| ensures Inhabits(From(element, v.items[i], r).value, element, r) {
        FromInhabits(element, v.items[i], r);
      }
    case MapTy(element) =>
      forall k | k in v.fields ensures Inhabits(From(element, v.fields[k], r).value, element, r) {
        FromInhabits(element, v.fields[k], r);
      }
    case StructTy(members) =>
      forall i | 0 <= i < |members|
        ensures HasMember(members[i], v, r)
        ensures Inhabits(From(members[i].ty, v.fields[members[i].name], r).value, members[i].ty, r)
      {
        assert HasMember(members[i], v, r);
        FromInhabits(members[i].ty, v.fields[members[i].name], r);
      }
    case _ =>
  }

  // ---- What the values are ----

  /** Scalars are stored as themselves: a boolean, an integer, a text or a number keeps its value. */
  lemma {:induction false} ScalarsAreStoredAsThemselves(b: bool, i: Int64, d: Double, s: string, v: Value, r: Rounding)
    ensures To(NBool(b), BoolTy, r) == Bool(b) && To(NText(s), TextTy, r) == Text(s)
    ensures To(NDouble(d), DoubleTy, r) == Float(d) && To(NAny(v), AnyTy, r) == v
    ensures To(NInt(i), IntTy(W64), r) == Int(i)
    ensures r.single(d) == d ==> To(NFloat(d), FloatTy, r) == Float(d)
  {
  }

  /** Reading an integer as a number gives the number the hardware makes of that integer, once rounded. */
  lemma {:induction false} NumbersAreReadAs(i: Int64, d: Double, r: Rounding)
    ensures From(FloatTy, Int(i), r) == Some(NFloat(r.ofIntSingle(i)))
    ensures From(DoubleTy, Int(i), r) == Some(NDouble(r.ofInt(i)))
    ensures From(FloatTy, Float(d), r) == Some(NFloat(r.single(d)))
    ensures From(DoubleTy, Float(d), r) == Some(NDouble(d))
  {
  }

  /** Element i of a list becomes element i, in both directions. */
  lemma {:induction false} ElementsStayInPlace(n: Native, v: Value, element: Ty, i: nat, r: Rounding)
    ensures Inhabits(n, VectorTy(element), r) && i < |n.items| ==>
              var written := To(n, VectorTy(element), r);
              written.Array? && |written.items| == |n.items| && written.items[i] == To(n.items[i], element, r)
    ensures From(VectorTy(element), v, r).Some? && i < |v.items| ==>
              var read := From(VectorTy(element), v, r).value;
              read.NVector? && |read.items| == |v.items| && From(element, v.items[i], r) == Some(read.items[i])
  {
  }

  /** A map keeps its keys, and each value its own key, in both directions. */
  lemma {:induction false} EntriesKeepTheirKeys(n: Native, v: Value, element: Ty, key: string, r: Rounding)
    ensures Inhabits(n, MapTy(element), r) ==>
              var written := To(n, MapTy(element), r);
              && written.Object? && written.fields.Keys == n.entries.Keys
              && (key in n.entries ==> written.fields[key] == To(n.entries[key], element, r))
    ensures From(MapTy(element), v, r).Some? ==>
              var read := From(MapTy(element), v, r).value;
              && read.NMap? && read.entries.Keys == v.fields.Keys
              && (key in v.fields ==> From(element, v.fields[key], r) == Some(read.entries[key]))
  {
  }

  /** Each member of a struct is read from the field of its own name. */
  lemma {:induction false} MembersReadTheirFields(ty: Ty, v: Value, i: nat, r: Rounding)
    requires ty.StructTy? && i < |ty.members| && From(ty, v, r).Some?
    ensures var read := From(ty, v, r).value;
            && read.NStruct? && |read.members| == |ty.members|
            && v.Object? && ty.members[i].name in v.fields
            && From(ty.members[i].ty, v.fields[ty.members[i].name], r) == Some(read.members[i])
  {
    assert HasMember(ty.members[i], v, r);
  }

  // ---- Round trips ----

  lemma {:induction false} ToFieldsHolds(n: Native, ty: Ty, count: nat, r: Rounding)
    requires ty.StructTy? && WellFormed(ty) && Inhabits(n, ty, r) && count <= |ty.members|
    ensures forall i :: 0 <= i < count ==>
              && ty.members[i].name in ToFields(n, ty, count, r)
              && ToFields(n, ty, count, r)[ty.members[i].name] == To(n.members[i], ty.members[i].ty, r)
    ensures forall k :: k in ToFields(n, ty, count, r) <==> exists i :: 0 <= i < count && ty.members[i].name == k
  {
    if count == 0 {
    } else {
      ToFieldsHolds(n, ty, count - 1, r);
    }
  }

  /** Every typed value survives the trip through a dynamic one, through any nesting of containers. */
  lemma {:induction false} TypedRoundTrip(n: Native, ty: Ty, r: Rounding)
    requires Lawful(r) && WellFormed(ty) && Inhabits(n, ty, r)
    ensures From(ty, To(n, ty, r), r) == Some(n)
    decreases ty
  {
    var v := To(n, ty, r);
    match ty
    case VectorTy(element) =>
      forall i | 0 <= i < |n.items| ensures From(element, v.items[i], r) == Some(n.items[i]) {
        TypedRoundTrip(n.items[i], element, r);
      }
      assert From(ty, v, r).value.items == n.items;
    case MapTy(element) =>
      forall k | k in n.entries ensures From(element, v.fields[k], r) == Some(n.entries[k]) {
        TypedRoundTrip(n.entries[k], element, r);
      }
      assert From(ty, v, r).value.entries == n.entries;
    case StructTy(members) =>
      ToFieldsHolds(n, ty, |members|, r);
      forall i | 0 <= i < |members|
        ensures HasMember(members[i], v, r)
        ensures From(members[i].ty, v.fields[members[i].name], r) == Some(n.members[i])
      {
        TypedRoundTrip(n.members[i], members[i].ty, r);
      }
      assert From(ty, v, r).value.members == n.members;
    case _ =>
  }

  /** Reading a value and writing it back normalises it: reading the result again gives the same typed value. */
  lemma {:induction false} NormalisationIsIdempotent(ty: Ty, v: Value, r: Rounding)
    requires Lawful(r) && WellFormed(ty) && From(ty, v, r).Some?
    ensures Inhabits(From(ty, v, r).value, ty, r)
    ensures From(ty, To(From(ty, v, r).value, ty, r), r) == From(ty, v, r)
  {
    FromInhabits(ty, v, r);
    TypedRoundTrip(From(ty, v, r).value, ty, r);
  }

  /** The values a type represents without loss. */
  predicate Exact(ty: Ty, v: Value, r: Rounding) {
    match ty
    case IntTy(w) => v.Int? && InRange(w, v.i)
    case FloatTy => v.Float? && r.single(v.d) == v.d
    case DoubleTy => v.Float?
    case BoolTy => v.Bool?
    case TextTy => v.Text?
    case AnyTy => true
    case VectorTy(element) => v.Array? && forall i :: 0 <= i < |v.items| ==> Exact(element, v.items[i], r)
    case MapTy(element) => v.Object? && forall k :: k in v.fields ==> Exact(element, v.fields[k], r)
    case StructTy(members) =>
      && v.Object?
      && (forall k :: k in v.fields ==> exists i :: 0 <= i < |members| && members[i].name == k)
      && forall i :: 0 <= i < |members| ==>
           members[i].name in v.fields && Exact(members[i].ty, v.fields[members[i].name], r)
  }

  /** The other round trip is exact on precisely those: an accepted value comes back unchanged iff it is exact. */
  lemma {:induction false} LosslessExactlyWhenExact(ty: Ty, v: Value, r: Rounding)
    requires Lawful(r) && WellFormed(ty) && From(ty, v, r).Some?
    ensures Inhabits(From(ty, v, r).value, ty, r)
    ensures To(From(ty, v, r).value, ty, r) == v <==> Exact(ty, v, r)
    decreases ty
  {
    FromInhabits(ty, v, r);
    match ty
    case VectorTy(element) => VectorLossless(ty, v, r);
    case MapTy(element) => MapLossless(ty, v, r);
    case StructTy(members) => StructLossless(ty, v, r);
    case _ =>
  }

  lemma {:induction false} VectorLossless(ty: Ty, v: Value, r: Rounding)
    requires Lawful(r) && ty.VectorTy? && WellFormed(ty) && From(ty, v, r).Some?
    requires Inhabits(From(ty, v, r).value, ty, r)
    ensures To(From(ty, v, r).value, ty, r) == v <==> Exact(ty, v, r)
    decreases ty, 0
  {
    var back := To(From(ty, v, r).value, ty, r);
    forall i | 0 <= i < |v.items| ensures back.items[i] == v.items[i] <==> Exact(ty.element, v.items[i], r) {
      LosslessExactlyWhenExact(ty.element, v.items[i], r);
    }
    assert back == v <==> back.items == v.items;
  }

  lemma {:induction false} MapLossless(ty: Ty, v: Value, r: Rounding)
    requires Lawful(r) && ty.MapTy? && WellFormed(ty) && From(ty, v, r).Some?
    requires Inhabits(From(ty, v, r).value, ty, r)
    ensures To(From(ty, v, r).value, ty, r) == v <==> Exact(ty, v, r)
    decreases ty, 0
  {
    var back := To(From(ty, v, r).value, ty, r);
    forall k | k in v.fields ensures back.fields[k] == v.fields[k] <==> Exact(ty.element, v.fields[k], r) {
      LosslessExactlyWhenExact(ty.element, v.fields[k], r);
    }
    assert back.fields.Keys == v.fields.Keys;
    assert back == v <==> back.fields == v.fields;
  }

  /** A map whose keys are the member names equals another map iff they agree on the names and there are no others. */
  lemma {:induction false} MapsOverNamesEqual(a: map<string, Value>, b: map<string, Value>, members: seq<Member>)
    requires forall k :: k in a <==> exists i :: 0 <= i < |members| && members[i].name == k
    requires forall i :: 0 <= i < |members| ==> members[i].name in b
    ensures a == b <==>
              && (forall k :: k in b ==> exists i :: 0 <= i < |members| && members[i].name == k)
              && forall i :: 0 <= i < |members| ==>
                   members[i].name in a && a[members[i].name] == b[members[i].name]
  {
    if forall k :: k in b ==> exists i :: 0 <= i < |members| && members[i].name == k {
      assert forall k :: k in a <==> k in b;
      if forall i :: 0 <= i < |members| ==> members[i].name in a && a[members[i].name] == b[members[i].name] {
        forall k | k in a ensures a[k] == b[k] {
          var i :| 0 <= i < |members| && members[i].name == k;
        }
      }
    }
  }

  lemma {:induction false} StructLossless(ty: Ty, v: Value, r: Rounding)
    requires Lawful(r) && ty.StructTy? && WellFormed(ty) && From(ty, v, r).Some?
    requires Inhabits(From(ty, v, r).value, ty, r)
    ensures To(From(ty, v, r).value, ty, r) == v <==> Exact(ty, v, r)
    decreases ty, 0
  {
    var n, members := From(ty, v, r).value, ty.members;
    var back := ToFields(n, ty, |members|, r);
    ToFieldsHolds(n, ty, |members|, r);
    forall i | 0 <= i < |members|
      ensures members[i].name in v.fields && members[i].name in back
      ensures back[members[i].name] == v.fields[members[i].name]
         <==> Exact(members[i].ty, v.fields[members[i].name], r)
    {
      assert HasMember(members[i], v, r);
      LosslessExactlyWhenExact(members[i].ty, v.fields[members[i].name], r);
    }
    MapsOverNamesEqual(back, v.fields, members);
  }
}
