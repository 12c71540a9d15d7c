/** The transition dictionaries of the pmjq DSL, shared by its two versions. */
module Transitions {
  import opened Wrappers

  /** A value of a transition dictionary: a string, a list of strings or a flag */
  datatype Value = Str(s: string) | List(items: seq<string>) | Flag(b: bool)

  /** Python's truth value of a dictionary value */
  predicate Truthy(v: Value)
  {
    match v
    case Str(s) => s != ""
    case List(xs) => xs != []
    case Flag(b) => b
  }

  type Dict = map<string, Value>

  predicate StrAt(m: Dict, k: string)
  {
    k in m ==> m[k].Str?
  }

  predicate ListAt(m: Dict, k: string)
  {
    k in m ==> m[k].List?
  }

  /** The keys the DSL reads hold values of the type it gives them; other keys are free. */
  predicate WellTyped(m: Dict)
  {
    && StrAt(m, "stdin") && StrAt(m, "stdout") && StrAt(m, "error") && StrAt(m, "cmd") && StrAt(m, "id")
    && StrAt(m, "log") && StrAt(m, "stderr") && StrAt(m, "invariant")
    && ListAt(m, "inputs") && ListAt(m, "outputs") && ListAt(m, "errors") && ListAt(m, "side_effects")
  }

  /** The assertion of `normalize` that fails */
  datatype NormError = StdinXorInputs | StdoutXorOutputs | ErrorNandErrors | MissingCmd

  /** The shorthand checks both versions of `normalize` make, in their order; the first that fails */
  function ShorthandError(m: Dict): (r: Option<NormError>)
    ensures r.None? <==> ("stdin" in m) != ("inputs" in m) && ("stdout" in m) != ("outputs" in m)
                         && !("error" in m && "errors" in m)
    ensures r.Some? ==> r.value != MissingCmd
  {
    if ("stdin" in m) == ("inputs" in m) then Some(StdinXorInputs)
    else if ("stdout" in m) == ("outputs" in m) then Some(StdoutXorOutputs)
    else if "error" in m && "errors" in m then Some(ErrorNandErrors)
    else None
  }

  /** A Python dict describing one transition; the DSL functions update it in place. */
  class TransitionDict {
    var entries: Dict

    constructor (entries: Dict)
      ensures this.entries == entries
    {
      this.entries := entries;
    }
  }
}
