# parameterx in Dafny

A model of parameterx, a string-keyed container of type-erased values. A caller
stores values of any qualifying Rust type under string keys. It reads them back
with a checked downcast to the exact type they were stored as. It can also use
operations that do not need the type: textual rendering, existence and type
queries, merge, and JSON aggregation.

The model is functional. The container `Parameters` is a `map<string, Val>`.
`Val` is a tagged datatype whose tag (`TypeId`) is the concrete Rust type the
value was inserted as. It covers `String`, `&str`, `i32`, `bool`, `f64`,
`IntVec<i32>` and the user struct of the library's tests. `String` and `&str`
are different tags. A downcast is a tag-equality check. Key enumeration
follows a strict lexicographic order on `seq<char>`. Comparing code points this
way gives the same order as comparing UTF-8 bytes, which is what `String: Ord`
does in a `BTreeMap`.

Modules, one per source file or component:

- `Wrappers`: `Option` and `Result`.
- `Errors` (src/error.rs): `ParameterError` and its display messages.
- `Decimal`: decimal text of integers and the reading-back direction.
- `IntValues` (src/value/values.rs): `is_within_range`, `IntVec`, and its `Debug` list rendering.
- `ValueTraits` (src/value/traits.rs): `Val` and the capability set. This is `to_string`, `type_name`, `clone_arc`, `as_any` downcast and `to_json`.
- `KeyOrder`: the key order and the sorted enumeration of a key set.
- `Container` (src/parameters/core.rs): `Parameters` and all of its operations.
- `Builder` (src/parameters/builder.rs): `ParametersBuilder` as a fold over the container.
- `Macro` (src/lib.rs): the three forms of `parameters!`.
- `Usage`: the library's four tests (src/lib.rs), plus worked examples of `merge` and `try_get`, as lemmas.

The blanket `impl<T> ParameterValue for T` does not override `to_json`, and
every type that meets the blanket impl's bounds gets its capability set from
that impl. So `to_json` on such a value always fails with `ConversionFailed("JSON serialization not implemented
for this type")`. `Parameters::to_json` is modelled in general, as
`ToJsonWith`, over any per-value projection: the result is the object of all
projections, or the error of the first failing key in ascending order.
`ToJson` then instantiates it with the projection the source actually yields.
The empty container gives `Ok({})`, and every other container gives that
conversion error.

`try_get::<T>` needs `T: TryFrom<String>`. The model takes that conversion as a
parameter `string -> Result<T, string>`, where the error is the message of the
conversion's error. `try_get::<i32>` does not compile, because `i32` has no
`TryFrom<String>` impl. Its decimal example,
`Usage.DecimalConversion`, stands for a caller-defined type with such an impl.

Value semantics replace `Arc` sharing. A container never changes in place, so a
clone is independent of its original by construction. Also, a failed `try_get`
or `to_json` cannot alter the container.

## Model

| member | source | states |
|---|---|---|
| `Errors.Display` | src/error.rs:4-17 | each variant's message starts with that variant's fixed prefix, and after the prefix comes the key, the cause, or "expected, found actual" |
| `Errors.DisplayInjective` | src/error.rs:4-17 | the message tells the three variants apart, and two KeyNotFound or two ConversionFailed errors with the same message are the same error |
| `Errors.FromCause` | src/error.rs:9-10 | `#[from]`: any underlying error becomes ConversionFailed carrying its message, displayed after the fixed prefix |
| `Decimal.IntToString` | src/value/traits.rs:26-28 | an i32's `to_string` (its `Display`) is canonical: '-' only for a negative value, no leading zero, "0" only for zero, never "-0" |
| `Decimal.CanonicalUnique` | src/value/traits.rs:26-28 | any canonical text that reads back as x is exactly the text of x, so the i32 rendering is the one canonical spelling of its value |
| `IntValues.IsWithinRange` | src/value/values.rs:17-19 | true iff min <= x <= max, so both bounds are included; an inverted range contains nothing; the one-point range [x, x] contains x |
| `IntValues.IntoVec` | src/value/values.rs:47-51 | converting an IntVec to a Vec gives exactly the wrapped elements: wrapping the result again gives the original IntVec |
| `IntValues.IntVecToString` | src/value/values.rs:42-44 | the rendering is bracketed by '[' and ']', is "[]" exactly for the empty vector, and between the brackets holds the elements' canonical decimal texts joined by ", " |
| `IntValues.IntVecRoundTrip` | src/value/values.rs:42-44 | the `Debug` list rendering (decimal elements joined by ", " inside brackets) reads back as the same vector, so it keeps every element and the order |
| `ValueTraits.ValTypeName` | src/value/traits.rs:30-32 | `type_name` of an erased value is the name of its concrete type |
| `ValueTraits.TypeNameByType` | src/value/traits.rs:30-32 | two values of the same type report the same name |
| `ValueTraits.Render` | src/value/traits.rs:26-28 | a String or &str renders as itself; an i32 renders as its canonical decimal text, which reads back as the same integer; a bool as "true"/"false"; an IntVec as its list text, which reads back as the same vector; an f64 as its display text; the struct renders as "name (age)", which reads back as the same name and age |
| `ValueTraits.PersonToString` | src/lib.rs:81-85 | the test struct's text is its name, then " (", the age in decimal, then ")" |
| `ValueTraits.PersonRoundTrip` | src/lib.rs:81-85 | the struct's text reads back as the same name and age, even when the name itself contains " (" |
| `ValueTraits.RenderRoundTrip` | src/value/traits.rs:26-28 | the text of an erased value (the string itself, decimal, true/false, the list form, "name (age)"), read back at the value's type, gives the value again |
| `ValueTraits.RenderInjective` | src/value/traits.rs:26-28 | two values of one such type with the same text are equal |
| `ValueTraits.CloneHandle` | src/value/traits.rs:34-36 | `clone_arc` gives a value of the same concrete type, equal to the original |
| `ValueTraits.CloneDowncast` | src/value/traits.rs:34-40 | a clone downcasts at the original's type to the original value and has the same text and type name |
| `ValueTraits.Downcast` | src/value/traits.rs:38-40 | downcast to type t succeeds iff t is exactly the stored type, and then yields the stored value |
| `ValueTraits.ToJsonOf` | src/value/traits.rs:15-41 | every value's `to_json` is Err(ConversionFailed("JSON serialization not implemented for this type")): the blanket impl never overrides the default |
| `KeyOrder.SortedKeys` | src/parameters/core.rs:85-87 | a key set enumerates as a sequence holding each key exactly once, in strictly ascending lexicographic order |
| `Container.New` | src/parameters/core.rs:26-28 | a new container has no keys |
| `Container.Get` | src/parameters/core.rs:38-41 | `get` returns the stored value iff the key is present and was stored with exactly the requested type, otherwise None |
| `Container.Insert` | src/parameters/core.rs:30-36 | after `insert(k, v)` the key set is the old one plus k, `get` at k with v's type returns v, and every other key keeps its value |
| `Container.With` | src/parameters/core.rs:72-79 | `with(k, v)` returns the container with key set old + {k}, `get` at k with v's type gives v, and every other key keeps its value; this is `insert`'s effect |
| `Container.GetRequired` | src/parameters/core.rs:43-45 | Ok exactly when `get` is Some, with the stored value; otherwise KeyNotFound(key), for an absent key and for a wrong type alike, never TypeMismatch |
| `Container.GetString` | src/parameters/core.rs:47-49 | Some iff the key is present, holding the stored value's rendering |
| `Container.ContainsKey` | src/parameters/core.rs:51-53 | true iff the key is present, whatever its type; equivalently iff `get_string` is Some, and iff `get` succeeds at some type |
| `Container.ContainsType` | src/parameters/core.rs:55-59 | holds iff the key is present and its stored type is exactly the one asked for |
| `Container.ContainsAgreesWithGet` | src/parameters/core.rs:38-59 | `contains_type` agrees with `get`; `contains_key` agrees with `get_string`; a present key of another type has `contains_key` true while `get` is None and `get_required` is KeyNotFound |
| `Container.TryGet` | src/parameters/core.rs:61-70 | absent key gives KeyNotFound(key); otherwise the conversion is applied to the stored value's text, its success returned, and its error wrapped as ConversionFailed |
| `Container.Merge` | src/parameters/core.rs:81-83 | the key set is the union; keys of `other` take `other`'s value; the remaining keys keep the original value |
| `Container.Keys` | src/parameters/core.rs:85-87 | `keys()` lists exactly the container's keys, without duplicates, in strictly ascending order |
| `Container.Iter` | src/parameters/core.rs:89-91 | `iter()` lists every entry once as (key, stored value), keys strictly ascending |
| `Container.InsertAll` | src/parameters/core.rs:115-123 | inserting pairs first to last: the key set grows by the pairs' keys, each key holds the value of its last pair, untouched keys keep their value |
| `Container.FromIter` | src/parameters/core.rs:115-123 | `from_iter` gives exactly the pairs' keys, each holding as a String the value of its last pair, so a later duplicate wins |
| `Container.FromString` | src/parameters/core.rs:103-107 | `From<String>` gives the single key "text" holding the text as a String |
| `Container.FromStrSlice` | src/parameters/core.rs:109-113 | `From<&str>` gives the single key "text" holding the text as a String, not as a &str |
| `Container.Clone` | src/parameters/core.rs:14-22 | cloning gives the same key set and, per key, an equal value of the same type |
| `Container.CollectJson` | src/parameters/core.rs:93-97 | the `to_json` loop succeeds iff every value in the sequence projects, filling in each key's projection; otherwise it returns the error of the first failing key |
| `Container.ToJsonWith` | src/parameters/core.rs:93-99 | Ok(object) with exactly the container's keys and each value's projection iff every projection succeeds; otherwise the error of the first failing key in ascending order |
| `Container.ToJson` | src/parameters/core.rs:93-99 | when every stored value uses the blanket impl: Ok({}) for the empty container, Err(ConversionFailed("JSON serialization not implemented for this type")) for any other |
| `Builder.New` | src/parameters/builder.rs:27-29 | a new builder holds the empty container |
| `Builder.Add` | src/parameters/builder.rs:31-38 | `add(k, v)` has `insert`'s effect on the accumulated container |
| `Builder.Merge` | src/parameters/builder.rs:40-43 | builder `merge` is the container's right-biased merge |
| `Builder.Build` | src/parameters/builder.rs:45-47 | `build()` hands out the accumulated container: the same keys, each with the same value |
| `Builder.RunBuilderDelegates` | src/parameters/builder.rs:26-47 | from any builder state, a chain of `add`/`merge` calls then `build` equals the same `insert`/`merge` calls on the accumulated container |
| `Builder.BuildChain` | src/parameters/builder.rs:45-47 | `new()`, a chain of calls and `build()` equal the same `insert`/`merge` calls on an empty container; `new().build()` is empty |
| `Builder.LaterAddWins` | src/parameters/builder.rs:31-38 | a later `add` to the same key overwrites the earlier one |
| `Macro.Expand` | src/lib.rs:13-29 | the empty form has no keys; the text form has exactly the key "text" holding the argument as a String; the pair form inserts the pairs in order, so it gains their keys and each holds its last pair's value |
| `Macro.ExpandEmptyAndText` | src/lib.rs:14-20 | `parameters!()` is empty; `parameters!(text)` is the single "text" entry holding a String, for a String or a &str argument |
| `Macro.FoldWithIsInsertAll` | src/lib.rs:22-28 | folding `with` over the pairs left to right is inserting them in order |
| `Macro.ExpandPairs` | src/lib.rs:22-28 | the `k => v` form has exactly the pairs' keys, and each key returns its last pair's value at that value's type |
| `Usage.BasicUsage` | src/lib.rs:38-49 | "Alice" as &str, 30 as i32, 5.9 as f64 and false as bool come back from `get` at those types; "name" is not a String; the text of 30 is "30" |
| `Usage.BuilderPattern` | src/lib.rs:52-60 | an IntVec<i32> added through the builder comes back at its type with elements [85, 92, 78] |
| `Usage.MacroPairs` | src/lib.rs:63-71 | the macro pairs "name" => "Charlie", "age" => "25" give `get_string` results "Charlie" and "25" |
| `Usage.CustomType` | src/lib.rs:74-97 | the test's struct stored with `with` comes back at its type with name "Dave" and age 35 |
| `Usage.MergeExample` | src/parameters/core.rs:81-83 | merging {"x": 2, "y": 3} into {"x": 1} gives {"x": 2, "y": 3} |
| `Usage.TryGetAsString` | src/parameters/core.rs:61-70 | `try_get::<String>` returns exactly the `get_string` text, or KeyNotFound for an absent key |
| `Usage.TryGetDecimal` | src/parameters/core.rs:61-70 | with a decimal conversion, a stored i32 comes back through its text unchanged |
| `Usage.TryGetExamples` | src/parameters/core.rs:61-70 | text "25" converts to 25, text "abc" gives ConversionFailed, an absent key gives KeyNotFound |

## Left out

- `Arc` reference counting and the `Send`/`Sync` bounds. They concern sharing and threads; value semantics already give independence after a clone.
- Building a `serde_json::Value`: `Json` is an abstract datatype, and only the object shape and the success or failure of `to_json` are modelled.
- The exact strings of `std::any::type_name`, which the compiler chooses: `TypeName` returns representative names, and only "one name per type" is stated.
- `f64` payloads: a float is its bit pattern plus its display text, with no arithmetic and no formatting.
- Hand-written `ParameterValue` impls: a type outside the blanket impl's bounds may implement the trait itself and override the default `to_json` (src/value/traits.rs:15-19), which is the only way a `to_json` can succeed. Such impls are covered only by `ToJsonWith`'s general projection, not by `ToJson`.
- Arbitrary user types: stored values range over the seven concrete types listed above, not over every `T` that meets the blanket impl's bounds.
- `PrimInt` width details and the arithmetic operator bounds: `IsWithinRange` and `IntVec` elements use unbounded integers. Only the `i32` payloads of `Val` carry the 32-bit range.
- Boxed `dyn Error` cause chains: a conversion error is represented by its message string.
- Macro hygiene and expansion mechanics: only the resulting fold is modelled. The pair form's "at least one pair" grammar rule is not enforced, and an empty pair list folds to the empty container.
- The derived `Debug` for `Parameters`: not modelled, because it only formats the container for diagnostics.
- Laziness of `keys()`/`iter()`: both are modelled as finite sequences.
- `ValueTraits.RenderRoundTrip`: stated for all types but `f64`, whose display text is not read back.
- `Errors.DisplayInjective`: excludes two TypeMismatch errors, because a type name containing ", found " can make two of them display alike.
