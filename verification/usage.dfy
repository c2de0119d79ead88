/** The library's four tests, plus worked examples of `merge` and `try_get`,
    stated as facts about the model. */
module Usage {
  import opened Wrappers
  import opened Errors
  import opened Decimal
  import opened IntValues
  import opened ValueTraits
  import opened Container
  import Builder
  import Macro

  /** A conversion in the shape `try_get` takes (`TryFrom<String>`): decimal text
      to an integer, failing with a message on anything else. */
  function DecimalConversion(s: string): Result<int, string>
  {
    match ParseInt(s)
    case Some(x) => Ok(x)
    case None => Err("invalid digit found in string")
  }

  /** `String: TryFrom<String>` never fails: the conversion hands the text over. */
  function StringConversion(s: string): Result<string, string>
  {
    Ok(s)
  }

  /** `try_get` into `String` gives exactly `get_string`'s text. */
  lemma TryGetAsString(p: Parameters, key: string)
    ensures key in p.entries ==> TryGet(p, key, StringConversion) == Ok(GetString(p, key).value)
    ensures key !in p.entries ==> TryGet(p, key, StringConversion) == Err(KeyNotFound(key))
  {
  }

  /** An integer stored under a key comes back through its text with a decimal
      conversion, and so does decimal text stored as a string. */
  lemma TryGetDecimal(p: Parameters, key: string)
    requires key in p.entries && (p.entries[key].I32V? || p.entries[key].StrV?)
    ensures p.entries[key].I32V? ==> TryGet(p, key, DecimalConversion) == Ok(p.entries[key].i)
    ensures p.entries[key].StrV? ==>
      (TryGet(p, key, DecimalConversion).Ok? <==> ParseInt(p.entries[key].s).Some?)
  {
    if p.entries[key].I32V? {
      IntRoundTrip(p.entries[key].i);
    }
  }

  /** Text "25" converts to 25; text "abc" is a `ConversionFailed`. */
  lemma TryGetExamples()
    ensures TryGet(With(New(), "age", StrV("25")), "age", DecimalConversion) == Ok(25)
    ensures TryGet(With(New(), "age", StrV("abc")), "age", DecimalConversion).Err?
    ensures TryGet(With(New(), "age", StrV("abc")), "age", DecimalConversion).error.ConversionFailed?
    ensures TryGet(New(), "age", DecimalConversion) == Err(KeyNotFound("age"))
  {
  }

  /** `5.9f64` as an opaque float: its IEEE-754 bits and its text. */
  const FivePointNine: Val := F64V(0x4017_9999_9999_999A, "5.9")

  /** `test_basic_usage`: values inserted as `&str`, `i32`, `f64` and `bool` come
      back from `get` at exactly those types, and not at another. */
  lemma BasicUsage()
    ensures var p := Insert(Insert(Insert(Insert(New(),
              "name", StrV("Alice")), "age", I32V(30)), "height", FivePointNine), "deceased", BoolV(false));
      && Get(p, "name", StrType) == Some(StrV("Alice"))
      && Get(p, "age", I32Type) == Some(I32V(30))
      && Get(p, "height", F64Type) == Some(FivePointNine)
      && Get(p, "deceased", BoolType) == Some(BoolV(false))
      && Get(p, "name", StringType) == None
      && GetString(p, "age") == Some("30")
  {
    assert NatToString(30) == "30";
  }

  /** `test_builder_pattern`: an `IntVec<i32>` added through the builder comes
      back at its own type with the same elements. */
  lemma BuilderPattern()
    ensures var p := Builder.Build(Builder.Add(Builder.Add(Builder.New(),
              "name", StrV("Bob")), "scores", IntVecI32V([85, 92, 78])));
      && Get(p, "name", StrType) == Some(StrV("Bob"))
      && Get(p, "scores", IntVecI32Type).Some?
      && IntoVec(IntVec(Get(p, "scores", IntVecI32Type).value.items)) == [85, 92, 78]
  {
  }

  /** `test_macro`: the pair form with two `&str` values renders them back. */
  lemma MacroPairs()
    ensures var p := Macro.Expand(Macro.Pairs([("name", StrV("Charlie")), ("age", StrV("25"))]));
      && GetString(p, "name") == Some("Charlie")
      && GetString(p, "age") == Some("25")
  {
  }

  /** `test_custom_type`: a user struct stored with `with` comes back at its own
      type with its fields intact. */
  lemma CustomType()
    ensures var p := With(New(), "person", PersonV("Dave", 35));
      && Get(p, "person", PersonType).Some?
      && Get(p, "person", PersonType).value.name == "Dave"
      && Get(p, "person", PersonType).value.age == 35
  {
  }

  /** Merging `{"x": 2, "y": 3}` into `{"x": 1}` gives `{"x": 2, "y": 3}`. */
  lemma MergeExample()
    ensures Merge(With(New(), "x", I32V(1)), With(With(New(), "x", I32V(2)), "y", I32V(3))).entries
      == map["x" := I32V(2), "y" := I32V(3)]
  {
  }
}
