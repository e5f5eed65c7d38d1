/** The base error categories a coded error can extend, and the coded error
    classes the registry synthesizes from them. The source builds a real
    subclass at run time (`makeNodeErrorWithCode`); here a class is the pair
    of its base category and the code it was synthesized for. */
module Kinds {

  type Code = string

  datatype BaseKind = Error | RangeError | TypeError | SystemError

  /** The base class's `name`, which is both the key a sibling variant is
      published under and the name an instance inherits. */
  function BaseName(k: BaseKind): string {
    match k
    case Error => "Error"
    case RangeError => "RangeError"
    case TypeError => "TypeError"
    case SystemError => "SystemError"
  }

  /** Distinct base kinds publish under distinct names, so a sibling key
      identifies the base kind it was made for. */
  lemma BaseNameInjective(a: BaseKind, b: BaseKind)
    ensures BaseName(a) == BaseName(b) <==> a == b
  {
  }

  /** The class `makeNodeErrorWithCode(base, key)` returns. */
  datatype NodeErrorClass = NodeErrorClass(base: BaseKind, key: Code)
}
