/** Integer helpers: the inclusive range check every primitive integer type
    gets, and `IntVec`, a vector of integers rendered as its `Debug` list. */
module IntValues {
  import opened Wrappers
  import opened Decimal

  /** Rust's `i32`. */
  type i32 = x: int | -0x8000_0000 <= x < 0x8000_0000

  predicate IsI32(x: int) {
    -0x8000_0000 <= x < 0x8000_0000
  }

  /** `is_within_range(min, max)`: both bounds belong to the range. */
  function IsWithinRange(x: int, min: int, max: int): (r: bool)
    ensures r <==> min <= x <= max
    ensures min > max ==> !r
    ensures x == min == max ==> r
  {
    x >= min && x <= max
  }

  /** `IntVec<T>`: a newtype around a vector of integers. Elements are unbounded
      here; the element width matters only to the tag a stored value carries. */
  datatype IntVec = IntVec(elems: seq<int>)

  /** `From<IntVec<T>> for Vec<T>`: unwraps the vector. */
  function IntoVec(v: IntVec): (xs: seq<int>)
    ensures IntVec(xs) == v
  {
    v.elems
  }

  /** The elements' decimal texts, separated by ", ". */
  function JoinDecimal(xs: seq<int>): (s: string)
    ensures |xs| > 0 ==> |s| > 0
  {
    if |xs| == 0 then ""
    else if |xs| == 1 then IntToString(xs[0])
    else IntToString(xs[0]) + ", " + JoinDecimal(xs[1..])
  }

  /** `IntVec`'s `to_string`: the `Debug` form of the vector, "[1, -2, 3]", "[]" when empty. */
  function IntVecToString(v: IntVec): (s: string)
    ensures |s| >= 2 && s[0] == '[' && s[|s| - 1] == ']'
    ensures s == "[]" <==> |v.elems| == 0
    ensures s[1..|s| - 1] == JoinDecimal(v.elems)
  {
    "[" + JoinDecimal(v.elems) + "]"
  }

  /** Position of the first ',' in `s`, or `|s|` when there is none. */
  function CommaIndex(s: string): (i: nat)
    ensures i <= |s|
    ensures i < |s| ==> s[i] == ','
    ensures forall j :: 0 <= j < i ==> s[j] != ','
  {
    if |s| == 0 || s[0] == ',' then 0 else 1 + CommaIndex(s[1..])
  }

  /** Reads a non-empty ", "-separated list of decimal integers. */
  function ParseItems(s: string): Option<seq<int>>
    decreases |s|
  {
    var i := CommaIndex(s);
    if i == |s| then
      match ParseInt(s)
      case None => None
      case Some(x) => Some([x])
    else if i + 1 < |s| && s[i + 1] == ' ' then
      match ParseInt(s[..i])
      case None => None
      case Some(x) =>
        match ParseItems(s[i + 2..])
        case None => None
        case Some(rest) => Some([x] + rest)
    else None
  }

  /** Reads the `Debug` list form back into a vector. */
  function ParseIntVec(s: string): Option<IntVec>
  {
    if |s| < 2 || s[0] != '[' || s[|s| - 1] != ']' then None
    else if |s| == 2 then Some(IntVec([]))
    else
      match ParseItems(s[1..|s| - 1])
      case None => None
      case Some(xs) => Some(IntVec(xs))
  }

  lemma {:induction false} ItemsRoundTrip(xs: seq<int>)
    requires |xs| > 0
    ensures ParseItems(JoinDecimal(xs)) == Some(xs)
  {
    var a := IntToString(xs[0]);
    IntRoundTrip(xs[0]);
    if |xs| == 1 {
      assert CommaIndex(a) == |a|;
      assert xs == [xs[0]];
    } else {
      var s := JoinDecimal(xs);
      assert s == a + ", " + JoinDecimal(xs[1..]);
      var i := CommaIndex(s);
      assert s[|a|] == ',';
      assert i == |a|;
      assert s[..i] == a;
      assert s[i + 2..] == JoinDecimal(xs[1..]);
      ItemsRoundTrip(xs[1..]);
      assert [xs[0]] + xs[1..] == xs;
    }
  }

  /** The rendering of an `IntVec` loses nothing: it reads back as the same vector. */
  lemma IntVecRoundTrip(v: IntVec)
    ensures ParseIntVec(IntVecToString(v)) == Some(v)
  {
    var s := IntVecToString(v);
    if |v.elems| > 0 {
      assert s[1..|s| - 1] == JoinDecimal(v.elems);
      ItemsRoundTrip(v.elems);
    }
  }
}
