/** Values shared by the whole model: bytes, the Ruby objects the generated
    routines pass around, and the Option/Result wrappers used for the
    generator's error paths. */
module Values {

  /** One byte of parser input. */
  newtype byte = b: int | 0 <= b < 256

  datatype Option<+T> = None | Some(value: T)

  /** The generator either produces its artefact or raises an error. */
  datatype Result<+T> = Ok(value: T) | Err(message: string) {
    predicate IsFailure() {
      Err?
    }

    function PropagateFailure<U>(): Result<U>
      requires Err?
    {
      Err(message)
    }

    function Extract(): T
      requires Ok?
    {
      value
    }
  }

  /** The Ruby objects that generated code stores in `_tmp`, `@result`,
      `_ary`, `text` and tag variables. `Obj` stands for any object an
      action or another rule returns. */
  datatype Value =
    | Nil
    | False
    | True
    | Int(i: int)
    | Str(bytes: seq<byte>)
    | Ary(items: seq<Value>)
    | Obj(id: nat)

  /** Ruby truthiness: everything except `nil` and `false`. */
  predicate Truthy(v: Value) {
    !(v.Nil? || v.False?)
  }
}
