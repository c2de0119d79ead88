/** `ParametersBuilder`: a fluent wrapper whose only state is the container it
    is building; every call delegates to the container. */
module Builder {
  import opened Wrappers
  import opened ValueTraits
  import Container

  datatype ParametersBuilder = ParametersBuilder(params: Container.Parameters)

  /** `ParametersBuilder::new()`: starts from the empty container. */
  function New(): (b: ParametersBuilder)
    ensures b.params.entries.Keys == {}
  {
    ParametersBuilder(Container.New())
  }

  /** `add(key, value)`: the key now holds `value` with its own type, a previous
      value under it is replaced, and no other entry changes. */
  function Add(b: ParametersBuilder, key: string, value: Val): (r: ParametersBuilder)
    ensures r.params.entries.Keys == b.params.entries.Keys + {key}
    ensures Container.Get(r.params, key, TypeOf(value)) == Some(value)
    ensures forall k :: k in b.params.entries && k != key ==> r.params.entries[k] == b.params.entries[k]
  {
    ParametersBuilder(Container.Insert(b.params, key, value))
  }

  /** `merge(other)`: the container's right-biased merge. */
  function Merge(b: ParametersBuilder, other: Container.Parameters): (r: ParametersBuilder)
    ensures r.params.entries.Keys == b.params.entries.Keys + other.entries.Keys
    ensures forall k :: k in other.entries ==> r.params.entries[k] == other.entries[k]
    ensures forall k :: k in b.params.entries && k !in other.entries ==> r.params.entries[k] == b.params.entries[k]
  {
    ParametersBuilder(Container.Merge(b.params, other))
  }

  /** `build()`: hands back the accumulated container. */
  function Build(b: ParametersBuilder): (p: Container.Parameters)
    ensures p.entries.Keys == b.params.entries.Keys
    ensures forall k :: k in p.entries ==> p.entries[k] == b.params.entries[k]
  {
    b.params
  }

  /** A builder call: `add(key, value)` or `merge(other)`. */
  datatype Step = AddStep(key: string, value: Val) | MergeStep(other: Container.Parameters)

  /** A chain of builder calls, first to last. */
  function RunBuilder(b: ParametersBuilder, steps: seq<Step>): ParametersBuilder
    decreases |steps|
  {
    if |steps| == 0 then b
    else
      var b' := match steps[0]
        case AddStep(k, v) => Add(b, k, v)
        case MergeStep(o) => Merge(b, o);
      RunBuilder(b', steps[1..])
  }

  /** The same calls made directly on a container: `insert` and `merge`. */
  function RunContainer(p: Container.Parameters, steps: seq<Step>): Container.Parameters
    decreases |steps|
  {
    if |steps| == 0 then p
    else
      var p' := match steps[0]
        case AddStep(k, v) => Container.Insert(p, k, v)
        case MergeStep(o) => Container.Merge(p, o);
      RunContainer(p', steps[1..])
  }

  lemma {:induction false} RunBuilderDelegates(b: ParametersBuilder, steps: seq<Step>)
    ensures Build(RunBuilder(b, steps)) == RunContainer(Build(b), steps)
    decreases |steps|
  {
    if |steps| > 0 {
      match steps[0]
      case AddStep(k, v) => RunBuilderDelegates(Add(b, k, v), steps[1..]);
      case MergeStep(o) => RunBuilderDelegates(Merge(b, o), steps[1..]);
    }
  }

  /** `new()`, a chain of `add`/`merge` calls and `build()` give the container the
      same `insert`/`merge` calls make from an empty one; with no calls, the
      empty container. */
  lemma BuildChain(steps: seq<Step>)
    ensures Build(RunBuilder(New(), steps)) == RunContainer(Container.New(), steps)
    ensures Build(New()).entries.Keys == {}
  {
    RunBuilderDelegates(New(), steps);
  }

  /** A later `add` to the same key replaces the earlier value. */
  lemma LaterAddWins(b: ParametersBuilder, key: string, v1: Val, v2: Val)
    ensures Add(Add(b, key, v1), key, v2) == Add(b, key, v2)
    ensures Container.Get(Build(Add(Add(b, key, v1), key, v2)), key, TypeOf(v2)) == Some(v2)
  {
  }
}
