/** `Parameters`: an ordered map from string keys to type-erased values. */
module Container {
  import opened Wrappers
  import opened Errors
  import opened ValueTraits
  import opened KeyOrder

  /** The container. Keys are unique; enumeration is in ascending key order. */
  datatype Parameters = Parameters(entries: map<string, Val>)

  /** `Parameters::new()` (also `Default`): no entries. */
  function New(): (p: Parameters)
    ensures p.entries.Keys == {}
  {
    Parameters(map[])
  }

  /** `get::<T>(key)`: the stored value when the key is present and was stored
      with exactly type `t`; `None` otherwise, never an error. */
  function Get(p: Parameters, key: string, t: TypeId): (r: Option<Val>)
    ensures r.Some? <==> key in p.entries && TypeOf(p.entries[key]) == t
    ensures r.Some? ==> r.value == p.entries[key]
  {
    if key in p.entries then Downcast(p.entries[key], t) else None
  }

  /** `insert(key, value)`: the key now holds `value`, a previous value under
      the same key is replaced, and no other entry changes. */
  function Insert(p: Parameters, key: string, value: Val): (r: Parameters)
    ensures r.entries.Keys == p.entries.Keys + {key}
    ensures Get(r, key, TypeOf(value)) == Some(value)
    ensures forall k :: k in p.entries && k != key ==> r.entries[k] == p.entries[k]
  {
    Parameters(p.entries[key := value])
  }

  /** `with(key, value)`: `insert` that hands the container back for chaining. */
  function With(p: Parameters, key: string, value: Val): (r: Parameters)
    ensures r.entries.Keys == p.entries.Keys + {key}
    ensures Get(r, key, TypeOf(value)) == Some(value)
    ensures forall k :: k in p.entries && k != key ==> r.entries[k] == p.entries[k]
    ensures r == Insert(p, key, value)
  {
    Insert(p, key, value)
  }

  /** `get_required::<T>(key)`: `get`, with a missing or wrongly typed value
      both reported as `KeyNotFound(key)`. */
  function GetRequired(p: Parameters, key: string, t: TypeId): (r: Result<Val, ParameterError>)
    ensures r.Ok? <==> Get(p, key, t).Some?
    ensures r.Ok? ==> r.value == p.entries[key]
    ensures r.Err? ==> r.error == KeyNotFound(key)
  {
    match Get(p, key, t)
    case Some(v) => Ok(v)
    case None => Err(KeyNotFound(key))
  }

  /** `get_string(key)`: the text of whatever is stored, `None` when absent. */
  function GetString(p: Parameters, key: string): (r: Option<string>)
    ensures r.Some? <==> key in p.entries
    ensures r.Some? ==> r.value == Render(p.entries[key])
  {
    if key in p.entries then Some(Render(p.entries[key])) else None
  }

  /** `contains_key(key)`. */
  function ContainsKey(p: Parameters, key: string): (r: bool)
    ensures r <==> key in p.entries
    ensures r <==> GetString(p, key).Some?
    ensures r <==> exists t :: Get(p, key, t).Some?
  {
    assert key in p.entries ==> Get(p, key, TypeOf(p.entries[key])).Some?;
    key in p.entries
  }

  /** `contains_type::<T>(key)`: present, and stored with exactly type `t`. */
  function ContainsType(p: Parameters, key: string, t: TypeId): (r: bool)
    ensures r <==> key in p.entries && TypeOf(p.entries[key]) == t
  {
    if key in p.entries then Downcast(p.entries[key], t).Some? else false
  }

  /** The two queries agree with `get`: the type query holds exactly when `get`
      succeeds, and a value stored with another type is present but not gettable. */
  lemma ContainsAgreesWithGet(p: Parameters, key: string, t: TypeId)
    ensures ContainsType(p, key, t) <==> Get(p, key, t).Some?
    ensures ContainsType(p, key, t) ==> ContainsKey(p, key)
    ensures ContainsKey(p, key) <==> GetString(p, key).Some?
    ensures ContainsKey(p, key) && !ContainsType(p, key, t) ==>
      Get(p, key, t) == None && GetRequired(p, key, t) == Err(KeyNotFound(key))
  {
  }

  /** `try_get::<T>(key)` with `T: TryFrom<String>`: the conversion is applied to
      the stored value's text; a missing key is `KeyNotFound`, a rejected text is
      `ConversionFailed` carrying the conversion's own error message. */
  function TryGet<T>(p: Parameters, key: string, convert: string -> Result<T, string>): (r: Result<T, ParameterError>)
    ensures key !in p.entries ==> r == Err(KeyNotFound(key))
    ensures key in p.entries && convert(Render(p.entries[key])).Ok? ==>
      r == Ok(convert(Render(p.entries[key])).value)
    ensures key in p.entries && convert(Render(p.entries[key])).Err? ==>
      r == Err(ConversionFailed(convert(Render(p.entries[key])).error))
  {
    match GetString(p, key)
    case None => Err(KeyNotFound(key))
    case Some(text) =>
      match convert(text)
      case Ok(x) => Ok(x)
      case Err(e) => Err(FromCause(e))
  }

  /** `merge(other)`: the union of both key sets; on a shared key `other` wins. */
  function Merge(p: Parameters, other: Parameters): (r: Parameters)
    ensures r.entries.Keys == p.entries.Keys + other.entries.Keys
    ensures forall k :: k in other.entries ==> r.entries[k] == other.entries[k]
    ensures forall k :: k in p.entries && k !in other.entries ==> r.entries[k] == p.entries[k]
  {
    Parameters(p.entries + other.entries)
  }

  /** `keys()`: every key exactly once, in strictly ascending order. */
  function Keys(p: Parameters): (ks: seq<string>)
    ensures |ks| == |p.entries|
    ensures forall k :: k in ks <==> k in p.entries
    ensures StrictlyAscending(ks)
    ensures forall i, j :: 0 <= i < j < |ks| ==> ks[i] != ks[j]
  {
    var ks := SortedKeys(p.entries.Keys);
    AscendingDistinct(ks);
    ks
  }

  /** `iter()`: the entries as (key, value) pairs, in the order of `keys()`. */
  function Iter(p: Parameters): (es: seq<(string, Val)>)
    ensures |es| == |p.entries|
    ensures forall i :: 0 <= i < |es| ==> es[i].0 in p.entries && es[i].1 == p.entries[es[i].0]
    ensures forall k :: k in p.entries ==> exists i :: 0 <= i < |es| && es[i].0 == k
    ensures forall i, j :: 0 <= i < j < |es| ==> Below(es[i].0, es[j].0)
  {
    var ks := Keys(p);
    var es := seq(|ks|, i requires 0 <= i < |ks| => (ks[i], p.entries[ks[i]]));
    assert forall k :: k in p.entries ==> exists i :: 0 <= i < |es| && es[i].0 == k by {
      forall k | k in p.entries
        ensures exists i :: 0 <= i < |es| && es[i].0 == k
      {
        var i :| 0 <= i < |ks| && ks[i] == k;
        assert es[i].0 == k;
      }
    }
    es
  }

  /** The keys of a pair sequence. */
  function KeysOf<V>(pairs: seq<(string, V)>): set<string>
  {
    set i | 0 <= i < |pairs| :: pairs[i].0
  }

  /** Entry `i` is the last in `pairs` with its key. */
  predicate LastWithKey<V>(pairs: seq<(string, V)>, i: int)
    requires 0 <= i < |pairs|
  {
    forall j :: i < j < |pairs| ==> pairs[j].0 != pairs[i].0
  }

  /** Inserting `pairs` into `p` gave `r` the old keys plus the pairs' keys. */
  ghost predicate GainsKeys(p: Parameters, pairs: seq<(string, Val)>, r: Parameters)
  {
    r.entries.Keys == p.entries.Keys + KeysOf(pairs)
  }

  /** In `r`, each key of `pairs` holds the value of its last pair. */
  ghost predicate LastPairWins(pairs: seq<(string, Val)>, r: Parameters)
  {
    forall i :: 0 <= i < |pairs| && LastWithKey(pairs, i) ==>
      pairs[i].0 in r.entries && r.entries[pairs[i].0] == pairs[i].1
  }

  /** In `r`, each key of `p` that no pair mentions keeps its value. */
  ghost predicate OthersKept(p: Parameters, pairs: seq<(string, Val)>, r: Parameters)
  {
    forall k :: k in p.entries && k !in KeysOf(pairs) ==> k in r.entries && r.entries[k] == p.entries[k]
  }

  /** `r` is `p` after inserting `pairs` one after another, first to last. */
  ghost predicate InsertedInOrder(p: Parameters, pairs: seq<(string, Val)>, r: Parameters)
  {
    GainsKeys(p, pairs, r) && LastPairWins(pairs, r) && OthersKept(p, pairs, r)
  }

  lemma InsertedInOrderStep(p: Parameters, pairs: seq<(string, Val)>, q: Parameters)
    requires |pairs| > 0
    requires InsertedInOrder(p, pairs[..|pairs| - 1], q)
    ensures InsertedInOrder(p, pairs, Insert(q, pairs[|pairs| - 1].0, pairs[|pairs| - 1].1))
  {
    var n := |pairs| - 1;
    var front := pairs[..n];
    var r := Insert(q, pairs[n].0, pairs[n].1);
    assert KeysOf(pairs) == KeysOf(front) + {pairs[n].0} by {
      forall k | k in KeysOf(pairs) ensures k in KeysOf(front) + {pairs[n].0} {
        var i :| 0 <= i < |pairs| && pairs[i].0 == k;
        if i < n { assert front[i] == pairs[i]; }
      }
      forall k | k in KeysOf(front) ensures k in KeysOf(pairs) {
        var i :| 0 <= i < |front| && front[i].0 == k;
        assert pairs[i] == front[i];
      }
    }
    forall i | 0 <= i < |pairs| && LastWithKey(pairs, i)
      ensures r.entries[pairs[i].0] == pairs[i].1
    {
      if i < n {
        assert front[i] == pairs[i];
        assert LastWithKey(front, i) by {
          forall j | i < j < |front| ensures front[j].0 != front[i].0 {
            assert front[j] == pairs[j];
          }
        }
        assert pairs[n].0 != pairs[i].0;
      }
    }
  }

  /** Inserts the pairs one after another, first to last. */
  function InsertAll(p: Parameters, pairs: seq<(string, Val)>): (r: Parameters)
    ensures InsertedInOrder(p, pairs, r)
  {
    if |pairs| == 0 then
      assert KeysOf(pairs) == {};
      p
    else
      var n := |pairs| - 1;
      var q := InsertAll(p, pairs[..n]);
      InsertedInOrderStep(p, pairs, q);
      Insert(q, pairs[n].0, pairs[n].1)
  }

  /** `From<String>`: a single entry `"text"` holding the string as a `String`. */
  function FromString(text: string): (p: Parameters)
    ensures p.entries.Keys == {"text"}
    ensures Get(p, "text", StringType) == Some(StringV(text))
  {
    With(New(), "text", StringV(text))
  }

  /** `From<&str>`: the text is converted with `to_string`, so it is stored as a
      `String`, not as a `&str`. */
  function FromStrSlice(text: string): (p: Parameters)
    ensures p.entries.Keys == {"text"}
    ensures Get(p, "text", StringType) == Some(StringV(text))
    ensures Get(p, "text", StrType) == None
  {
    With(New(), "text", StringV(text))
  }

  /** The pairs with each value wrapped as a `String`. */
  function AsStringEntries(pairs: seq<(string, string)>): (es: seq<(string, Val)>)
    ensures |es| == |pairs|
    ensures forall i :: 0 <= i < |pairs| ==> es[i] == (pairs[i].0, StringV(pairs[i].1))
  {
    seq(|pairs|, i requires 0 <= i < |pairs| => (pairs[i].0, StringV(pairs[i].1)))
  }

  /** `FromIterator<(String, String)>`: the pairs inserted in order as `String`
      values; the last pair with a key decides its value. */
  function FromIter(pairs: seq<(string, string)>): (p: Parameters)
    ensures p.entries.Keys == KeysOf(pairs)
    ensures forall i :: 0 <= i < |pairs| && LastWithKey(pairs, i) ==> p.entries[pairs[i].0] == StringV(pairs[i].1)
  {
    var es := AsStringEntries(pairs);
    assert KeysOf(es) == KeysOf(pairs) by {
      forall k | k in KeysOf(pairs) ensures k in KeysOf(es) {
        var i :| 0 <= i < |pairs| && pairs[i].0 == k;
        assert es[i].0 == k;
      }
    }
    assert forall i :: 0 <= i < |pairs| && LastWithKey(pairs, i) ==> LastWithKey(es, i);
    InsertAll(New(), es)
  }

  /** `Clone`: every value cloned into a new handle. The copy has the same keys,
      and under each key an equal value of the same type. */
  function Clone(p: Parameters): (c: Parameters)
    ensures c.entries.Keys == p.entries.Keys
    ensures forall k :: k in c.entries ==> TypeOf(c.entries[k]) == TypeOf(p.entries[k]) && c.entries[k] == p.entries[k]
    ensures c == p
  {
    Parameters(map k | k in p.entries :: CloneHandle(p.entries[k]))
  }

  /** `ks[i]` is the first key, in the given order, whose value has no projection. */
  predicate FirstFailureAt(m: map<string, Val>, ks: seq<string>, proj: Projection, i: int, e: ParameterError)
    requires forall j :: 0 <= j < |ks| ==> ks[j] in m
  {
    && 0 <= i < |ks|
    && proj(m[ks[i]]) == Err(e)
    && forall j :: 0 <= j < i ==> proj(m[ks[j]]).Ok?
  }

  lemma FirstFailureShift(m: map<string, Val>, ks: seq<string>, proj: Projection, e: ParameterError)
    requires |ks| > 0 && forall j :: 0 <= j < |ks| ==> ks[j] in m
    requires proj(m[ks[0]]).Ok?
    requires exists i :: FirstFailureAt(m, ks[1..], proj, i, e)
    ensures exists i :: FirstFailureAt(m, ks, proj, i, e)
  {
    var i :| FirstFailureAt(m, ks[1..], proj, i, e);
    assert FirstFailureAt(m, ks, proj, i + 1, e);
  }

  /** The loop of `to_json`: projects the values of `ks` in order into `acc`,
      and stops at the first value whose projection fails. */
  function CollectJson(m: map<string, Val>, ks: seq<string>, proj: Projection, acc: map<string, Json>)
    : (r: Result<map<string, Json>, ParameterError>)
    requires forall j :: 0 <= j < |ks| ==> ks[j] in m
    requires forall i, j :: 0 <= i < j < |ks| ==> ks[i] != ks[j]
    ensures r.Ok? <==> forall j :: 0 <= j < |ks| ==> proj(m[ks[j]]).Ok?
    ensures r.Ok? ==> r.value.Keys == acc.Keys + (set j | 0 <= j < |ks| :: ks[j])
    ensures r.Ok? ==> forall j :: 0 <= j < |ks| ==> r.value[ks[j]] == proj(m[ks[j]]).value
    ensures r.Ok? ==> forall k :: k in acc && k !in ks ==> r.value[k] == acc[k]
    ensures r.Err? ==> exists i :: FirstFailureAt(m, ks, proj, i, r.error)
    decreases |ks|
  {
    if |ks| == 0 then Ok(acc)
    else
      match proj(m[ks[0]])
      case Err(e) =>
        assert FirstFailureAt(m, ks, proj, 0, e);
        Err(e)
      case Ok(j) =>
        var r := CollectJson(m, ks[1..], proj, acc[ks[0] := j]);
        if r.Err? then
          FirstFailureShift(m, ks, proj, r.error);
          r
        else
          assert (set j | 0 <= j < |ks| :: ks[j]) == {ks[0]} + (set j | 0 <= j < |ks[1..]| :: ks[1..][j]);
          assert forall j :: 0 <= j < |ks| ==> proj(m[ks[j]]).Ok? by {
            forall j | 0 <= j < |ks| ensures proj(m[ks[j]]).Ok? {
              if j > 0 { assert ks[j] == ks[1..][j - 1]; }
            }
          }
          r
  }

  /** What a successful collection over the container's keys yields. */
  lemma CollectedFields(p: Parameters, proj: Projection, fields: map<string, Json>)
    requires CollectJson(p.entries, Keys(p), proj, map[]) == Ok(fields)
    ensures forall k :: k in p.entries ==> proj(p.entries[k]).Ok?
    ensures fields.Keys == p.entries.Keys
    ensures forall k :: k in p.entries ==> fields[k] == proj(p.entries[k]).value
  {
  }

  /** `to_json` with a given per-value projection: `Ok` with an object holding
      exactly the container's keys when every value projects, otherwise the
      error of the first failing key in ascending order. */
  function ToJsonWith(p: Parameters, proj: Projection): (r: Result<Json, ParameterError>)
    ensures r.Ok? <==> forall k :: k in p.entries ==> proj(p.entries[k]).Ok?
    ensures r.Ok? ==> r.value.JObject? && r.value.fields.Keys == p.entries.Keys
    ensures r.Ok? ==> forall k :: k in p.entries ==> r.value.fields[k] == proj(p.entries[k]).value
    ensures r.Err? ==> exists i :: FirstFailureAt(p.entries, Keys(p), proj, i, r.error)
  {
    var ks := Keys(p);
    match CollectJson(p.entries, ks, proj, map[])
    case Err(e) =>
      var i :| FirstFailureAt(p.entries, ks, proj, i, e);
      assert ks[i] in p.entries && !proj(p.entries[ks[i]]).Ok?;
      Err(e)
    case Ok(fields) =>
      CollectedFields(p, proj, fields);
      Ok(JObject(fields))
  }

  /** `to_json` as the source has it: every stored type takes the trait's
      default, so an empty container gives the empty object and any other
      fails with the "not implemented" conversion error. */
  function ToJson(p: Parameters): (r: Result<Json, ParameterError>)
    ensures |p.entries| == 0 ==> r == Ok(JObject(map[]))
    ensures |p.entries| > 0 ==> r == Err(ConversionFailed(NotImplementedMessage))
  {
    assert |p.entries| > 0 <==> p.entries.Keys != {};
    ToJsonWith(p, ToJsonOf)
  }
}
