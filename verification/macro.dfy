/** The `parameters!` macro: three forms, each a fold of container operations. */
module Macro {
  import opened Wrappers
  import opened ValueTraits
  import Container

  /** The single-argument form accepts a `String` or a `&str`. */
  datatype TextArg = OwnedText(s: string) | BorrowedText(s: string)

  /** `parameters!()`, `parameters!(text)`, `parameters!(k1 => v1, k2 => v2, ...)`. */
  datatype Invocation =
    | NoArgs
    | Text(arg: TextArg)
    | Pairs(pairs: seq<(string, Val)>)

  /** `with` applied to the pairs from left to right. */
  function FoldWith(p: Container.Parameters, pairs: seq<(string, Val)>): Container.Parameters
    decreases |pairs|
  {
    if |pairs| == 0 then p
    else
      var n := |pairs| - 1;
      Container.With(FoldWith(p, pairs[..n]), pairs[n].0, pairs[n].1)
  }

  /** What an invocation expands to. */
  function Expand(inv: Invocation): (p: Container.Parameters)
    ensures inv.NoArgs? ==> p.entries.Keys == {}
    ensures inv.Text? ==> p.entries.Keys == {"text"} && p.entries["text"] == StringV(inv.arg.s)
    ensures inv.Pairs? ==> Container.InsertedInOrder(Container.New(), inv.pairs, p)
  {
    match inv
    case NoArgs => Container.New()
    case Text(OwnedText(s)) => Container.FromString(s)
    case Text(BorrowedText(s)) => Container.FromStrSlice(s)
    case Pairs(pairs) =>
      FoldWithIsInsertAll(Container.New(), pairs);
      FoldWith(Container.New(), pairs)
  }

  lemma {:induction false} FoldWithIsInsertAll(p: Container.Parameters, pairs: seq<(string, Val)>)
    ensures FoldWith(p, pairs) == Container.InsertAll(p, pairs)
    decreases |pairs|
  {
    if |pairs| > 0 {
      FoldWithIsInsertAll(p, pairs[..|pairs| - 1]);
    }
  }

  /** The empty form is the empty container; the text form is the single entry
      `"text"` holding a `String`, whichever string type was passed. */
  lemma ExpandEmptyAndText(arg: TextArg)
    ensures Expand(NoArgs).entries.Keys == {}
    ensures Expand(Text(arg)).entries.Keys == {"text"}
    ensures Container.Get(Expand(Text(arg)), "text", StringType) == Some(StringV(arg.s))
  {
  }

  /** The pair form: the keys are exactly the pairs' keys, and a key takes the
      value of its last pair, so a later duplicate overwrites an earlier one. */
  lemma ExpandPairs(pairs: seq<(string, Val)>)
    ensures Expand(Pairs(pairs)).entries.Keys == Container.KeysOf(pairs)
    ensures forall i :: 0 <= i < |pairs| && Container.LastWithKey(pairs, i) ==>
      Container.Get(Expand(Pairs(pairs)), pairs[i].0, TypeOf(pairs[i].1)) == Some(pairs[i].1)
  {
    FoldWithIsInsertAll(Container.New(), pairs);
  }
}
