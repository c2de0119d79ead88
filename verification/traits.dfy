/** The capability every storable value has: rendering as text, a type identity,
    cloning into a new handle, a checked downcast and an optional JSON projection.
    A stored value is a `Val`, tagged by the concrete Rust type it was inserted as. */
module ValueTraits {
  import opened Wrappers
  import opened Errors
  import opened Decimal
  import opened IntValues

  /** The concrete Rust types a value can be stored as. `String` and `&str`
      are different types, and so different tags. */
  datatype TypeId =
    | StringType      // String
    | StrType         // &'static str
    | I32Type         // i32
    | BoolType        // bool
    | F64Type         // f64
    | IntVecI32Type   // IntVec<i32>
    | PersonType      // a user struct { name: String, age: i32 }

  /** A type-erased value: the payload together with its concrete type.
      A float is opaque: its bit pattern and the text its `Display` gives. */
  datatype Val =
    | StringV(s: string)
    | StrV(s: string)
    | I32V(i: i32)
    | BoolV(b: bool)
    | F64V(bits: bv64, shown: string)
    | IntVecI32V(items: seq<i32>)
    | PersonV(name: string, age: i32)

  /** The concrete type of a stored value. */
  function TypeOf(v: Val): TypeId
  {
    match v
    case StringV(_) => StringType
    case StrV(_) => StrType
    case I32V(_) => I32Type
    case BoolV(_) => BoolType
    case F64V(_, _) => F64Type
    case IntVecI32V(_) => IntVecI32Type
    case PersonV(_, _) => PersonType
  }

  /** `std::any::type_name::<T>()`: a static name per type. The strings the
      compiler produces are its own; these stand for them. */
  function TypeName(t: TypeId): string
  {
    match t
    case StringType => "alloc::string::String"
    case StrType => "&str"
    case I32Type => "i32"
    case BoolType => "bool"
    case F64Type => "f64"
    case IntVecI32Type => "parameterx::value::values::IntVec<i32>"
    case PersonType => "parameterx::tests::test_custom_type::Person"
  }

  /** `type_name` of an erased value. */
  function ValTypeName(v: Val): (name: string)
    ensures name == TypeName(TypeOf(v))
  {
    match v
    case StringV(_) => TypeName(StringType)
    case StrV(_) => TypeName(StrType)
    case I32V(_) => TypeName(I32Type)
    case BoolV(_) => TypeName(BoolType)
    case F64V(_, _) => TypeName(F64Type)
    case IntVecI32V(_) => TypeName(IntVecI32Type)
    case PersonV(_, _) => TypeName(PersonType)
  }

  /** The name depends on the type alone: values of one type report one name. */
  lemma TypeNameByType(a: Val, b: Val)
    requires TypeOf(a) == TypeOf(b)
    ensures ValTypeName(a) == ValTypeName(b)
  {
  }

  function BoolToString(b: bool): string {
    if b then "true" else "false"
  }

  /** The user struct's own `to_string`: "name (age)". The name comes first,
      then " (", the age's decimal text and a closing ')'. */
  function PersonToString(name: string, age: int): (s: string)
    ensures var n, t := |name|, IntToString(age);
      && |s| == n + 2 + |t| + 1
      && s[..n] == name
      && s[n] == ' ' && s[n + 1] == '('
      && s[n + 2..|s| - 1] == t
      && s[|s| - 1] == ')'
  {
    name + " (" + IntToString(age) + ")"
  }

  /** Whether " (" starts at position `i` of `b`. */
  predicate OpensAt(b: string, i: int) {
    0 <= i && i + 1 < |b| && b[i] == ' ' && b[i + 1] == '('
  }

  /** The last position below `n - 1` where " (" starts, if any. */
  function LastOpen(b: string, n: nat): (r: Option<nat>)
    requires n <= |b|
    ensures r.Some? ==> r.value + 2 <= n && OpensAt(b, r.value)
    ensures r.Some? ==> forall j :: r.value < j && j + 2 <= n ==> !OpensAt(b, j)
    ensures r.None? ==> forall j :: 0 <= j && j + 2 <= n ==> !OpensAt(b, j)
  {
    if n < 2 then None
    else if b[n - 2] == ' ' && b[n - 1] == '(' then Some(n - 2)
    else LastOpen(b, n - 1)
  }

  /** Reads "name (age)" back: the name is everything before the last " (",
      the age the decimal text between it and the closing ')'. A name may
      itself contain " (", since the age text never does. */
  function ParsePerson(s: string): Option<(string, int)>
  {
    if |s| == 0 || s[|s| - 1] != ')' then None
    else
      var b := s[..|s| - 1];
      match LastOpen(b, |b|)
      case None => None
      case Some(i) =>
        match ParseInt(b[i + 2..])
        case None => None
        case Some(age) => Some((b[..i], age))
  }

  /** The struct's text reads back as its name and age, for every name. */
  lemma PersonRoundTrip(name: string, age: int)
    ensures ParsePerson(PersonToString(name, age)) == Some((name, age))
  {
    var s := PersonToString(name, age);
    var t := IntToString(age);
    var n := |name|;
    var b := s[..|s| - 1];
    assert b == name + " (" + t;
    assert OpensAt(b, n);
    forall j | n < j && j + 2 <= |b|
      ensures !OpensAt(b, j)
    {
      if j > n + 1 {
        assert b[j] == t[j - n - 2];
      }
    }
    assert LastOpen(b, |b|) == Some(n);
    assert b[n + 2..] == t;
    assert b[..n] == name;
    IntRoundTrip(age);
  }

  /** `to_string` of an erased value: the concrete type's own `ToString`.
      For the types whose text determines the value, the text reads back as it. */
  function Render(v: Val): (s: string)
    ensures v.StringV? || v.StrV? ==> s == v.s
    ensures v.I32V? ==> s == IntToString(v.i as int) && ParseInt(s) == Some(v.i as int)
    ensures v.BoolV? ==> (s == "true" <==> v.b) && (s == "false" <==> !v.b)
    ensures v.IntVecI32V? ==> s == IntVecToString(IntVec(v.items)) && ParseIntVec(s) == Some(IntVec(v.items))
    ensures v.F64V? ==> s == v.shown
    ensures v.PersonV? ==> s == PersonToString(v.name, v.age) && ParsePerson(s) == Some((v.name, v.age as int))
  {
    match v
    case StringV(s) => s
    case StrV(s) => s
    case I32V(i) =>
      IntRoundTrip(i);
      IntToString(i)
    case BoolV(b) => BoolToString(b)
    case F64V(_, shown) => shown
    case IntVecI32V(items) =>
      IntVecRoundTrip(IntVec(items));
      IntVecToString(IntVec(items))
    case PersonV(name, age) =>
      PersonRoundTrip(name, age);
      PersonToString(name, age)
  }

  /** Reads a rendering back as a value of type `t`, for the types whose text
      determines the value. Floats have no reader here. */
  function ParseAs(t: TypeId, s: string): Option<Val>
  {
    match t
    case StringType => Some(StringV(s))
    case StrType => Some(StrV(s))
    case I32Type =>
      (match ParseInt(s)
       case Some(x) => if IsI32(x) then Some(I32V(x)) else None
       case None => None)
    case BoolType =>
      if s == "true" then Some(BoolV(true))
      else if s == "false" then Some(BoolV(false))
      else None
    case IntVecI32Type =>
      (match ParseIntVec(s)
       case Some(v) =>
         if forall i :: 0 <= i < |v.elems| ==> IsI32(v.elems[i]) then Some(IntVecI32V(v.elems)) else None
       case None => None)
    case F64Type => None
    case PersonType =>
      (match ParsePerson(s)
       case Some((name, age)) => if IsI32(age) then Some(PersonV(name, age)) else None
       case None => None)
  }

  /** The erased rendering is the concrete type's own text and loses nothing:
      read back at the value's own type it gives the value again. */
  lemma RenderRoundTrip(v: Val)
    requires !v.F64V?
    ensures ParseAs(TypeOf(v), Render(v)) == Some(v)
  {
  }

  /** Two values of one such type with the same text are the same value. */
  lemma RenderInjective(a: Val, b: Val)
    requires TypeOf(a) == TypeOf(b) && !a.F64V?
    requires Render(a) == Render(b)
    ensures a == b
  {
    RenderRoundTrip(a);
    RenderRoundTrip(b);
  }

  /** `clone_arc`: clones the concrete value and wraps it in a new handle. */
  function CloneHandle(v: Val): (c: Val)
    ensures TypeOf(c) == TypeOf(v)
    ensures c == v
  {
    match v
    case StringV(s) => StringV(s)
    case StrV(s) => StrV(s)
    case I32V(i) => I32V(i)
    case BoolV(b) => BoolV(b)
    case F64V(bits, shown) => F64V(bits, shown)
    case IntVecI32V(items) => IntVecI32V(items)
    case PersonV(name, age) => PersonV(name, age)
  }

  /** `as_any().downcast_ref::<U>()`: succeeds exactly when `U` is the stored
      type, and then exposes the stored value itself. */
  function Downcast(v: Val, t: TypeId): (r: Option<Val>)
    ensures r.Some? <==> TypeOf(v) == t
    ensures r.Some? ==> r.value == v
  {
    match t
    case StringType => if v.StringV? then Some(v) else None
    case StrType => if v.StrV? then Some(v) else None
    case I32Type => if v.I32V? then Some(v) else None
    case BoolType => if v.BoolV? then Some(v) else None
    case F64Type => if v.F64V? then Some(v) else None
    case IntVecI32Type => if v.IntVecI32V? then Some(v) else None
    case PersonType => if v.PersonV? then Some(v) else None
  }

  /** A clone downcasts at the original's type, to a value with the same text. */
  lemma CloneDowncast(v: Val)
    ensures Downcast(CloneHandle(v), TypeOf(v)) == Some(v)
    ensures Render(CloneHandle(v)) == Render(v)
    ensures ValTypeName(CloneHandle(v)) == ValTypeName(v)
  {
  }

  /** A JSON document (the `serde_json::Value` shape, without numbers' float part). */
  datatype Json =
    | JNull
    | JBool(b: bool)
    | JNumber(n: int)
    | JString(s: string)
    | JArray(items: seq<Json>)
    | JObject(fields: map<string, Json>)

  /** A per-value JSON projection. */
  type Projection = Val -> Result<Json, ParameterError>

  /** The trait's default `to_json`: it always fails. */
  function DefaultToJson(v: Val): Result<Json, ParameterError>
  {
    Err(ConversionFailed(NotImplementedMessage))
  }

  /** `to_json` on an erased value. Every stored type gets the capability set
      from the one blanket impl, which does not override `to_json`, so the
      default answers for all of them. */
  function ToJsonOf(v: Val): (r: Result<Json, ParameterError>)
    ensures r == Err(ConversionFailed(NotImplementedMessage))
    ensures Display(r.error) == ConversionFailedPrefix + NotImplementedMessage
  {
    DefaultToJson(v)
  }
}
