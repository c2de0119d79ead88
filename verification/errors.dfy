/** The container's error type: three variants, each with a fixed display message. */
module Errors {

  /** `KeyNotFound` names the missing key; `ConversionFailed` carries the message
      of the underlying boxed error; `TypeMismatch` names two type names. */
  datatype ParameterError =
    | KeyNotFound(key: string)
    | ConversionFailed(cause: string)
    | TypeMismatch(expected: string, actual: string)

  const KeyNotFoundPrefix: string := "Parameter not found: "
  const ConversionFailedPrefix: string := "Type conversion failed: "
  const TypeMismatchPrefix: string := "Type mismatch: expected "
  const TypeMismatchSeparator: string := ", found "

  /** The message of the error a value returns when it has no JSON projection. */
  const NotImplementedMessage: string := "JSON serialization not implemented for this type"

  /** The `Display` rendering of an error. */
  function Display(e: ParameterError): (s: string)
    ensures e.KeyNotFound? ==>
      |s| >= |KeyNotFoundPrefix| && s[..|KeyNotFoundPrefix|] == KeyNotFoundPrefix && s[|KeyNotFoundPrefix|..] == e.key
    ensures e.ConversionFailed? ==>
      |s| >= |ConversionFailedPrefix| && s[..|ConversionFailedPrefix|] == ConversionFailedPrefix
      && s[|ConversionFailedPrefix|..] == e.cause
    ensures e.TypeMismatch? ==>
      |s| >= |TypeMismatchPrefix| && s[..|TypeMismatchPrefix|] == TypeMismatchPrefix
      && s[|TypeMismatchPrefix|..] == e.expected + TypeMismatchSeparator + e.actual
  {
    match e
    case KeyNotFound(k) => KeyNotFoundPrefix + k
    case ConversionFailed(c) => ConversionFailedPrefix + c
    case TypeMismatch(x, y) => TypeMismatchPrefix + (x + TypeMismatchSeparator + y)
  }

  /** `From<Box<dyn Error>>`: any underlying error becomes `ConversionFailed`,
      which displays the fixed prefix followed by the cause's own message. */
  function FromCause(cause: string): (e: ParameterError)
    ensures e.ConversionFailed? && e.cause == cause
    ensures Display(e) == ConversionFailedPrefix + cause
  {
    ConversionFailed(cause)
  }

  /** The first and sixth characters of a message identify its variant. */
  lemma DisplayHead(e: ParameterError)
    ensures |Display(e)| > 5
    ensures Display(e)[0] == (if e.KeyNotFound? then 'P' else 'T')
    ensures Display(e)[5] == (if e.KeyNotFound? then 'e' else if e.ConversionFailed? then 'c' else 'm')
  {
  }

  /** Display tells the variants apart, and it is injective except between two
      `TypeMismatch` values (whose type names may themselves contain ", found "). */
  lemma DisplayInjective(e1: ParameterError, e2: ParameterError)
    requires !(e1.TypeMismatch? && e2.TypeMismatch?)
    requires Display(e1) == Display(e2)
    ensures e1 == e2
  {
    if e1.KeyNotFound? && e2.KeyNotFound? {
    } else if e1.ConversionFailed? && e2.ConversionFailed? {
    } else {
      // The variants differ, and so do the messages, at index 0 or index 5.
      DisplayHead(e1);
      DisplayHead(e2);
      assert false;
    }
  }
}
