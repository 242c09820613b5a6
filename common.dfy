/** Option and Result values shared by every stage, and the exceptions the
    pipeline can raise (each one ends up in the catch of transformFile). */
module Common {

  datatype Option<+T> = None | Some(value: T)

  /** A computation that either produced a value or threw. */
  datatype Result<+T> = Ok(value: T) | Fail(error: Error) {
    predicate IsFailure() { Fail? }

    function PropagateFailure<U>(): Result<U>
      requires Fail?
    {
      Fail(error)
    }

    function Extract(): T
      requires Ok?
    {
      value
    }
  }

  /** The exceptions thrown by the core, each named after its cause. */
  datatype Error =
    | UnsupportedNodeType(tag: string)    // generateValidationCode's default branch
    | UndefinedNode                       // reading `.type` of an undefined schema
    | BigIntNotSerializable               // JSON.stringify of a bigint literal value
    | MissingTypeAnnotation               // property signature without a type annotation
    | ModuleNotLoaded(specifier: string)  // the loader has no module for the specifier
    | ReexportWithoutSource               // `export { … }` without `from` met while following re-exports
    | StackOverflow                       // RangeError: synchronous recursion deeper than the stack
    | Unfinished                          // not an exception: the resolution has not finished within the model's bound
    | SyntaxError                         // the parser refused the generated validator text
    | NoStatement                         // reading `.type` of the first statement of an empty program

  /** Concatenation is associative; stated once so that proofs about long
      texts need not unfold them. */
  lemma Assoc<T>(a: seq<T>, b: seq<T>, c: seq<T>)
    ensures a + b + c == a + (b + c)
  {
  }
}
