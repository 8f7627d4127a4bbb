/** The message values that travel between workers, Lua and the wire protocols. */
module Variants {

  datatype Option<+T> = None | Some(value: T)

  /** A scalar payload: a text, or any other scalar (number, boolean, ...) named by a number. */
  datatype Scalar = Text(s: string) | Plain(n: int)

  /** QVariant: invalid, a scalar, a QVariantMap or a QVariantList. */
  datatype QVar =
    | Null
    | Leaf(x: Scalar)
    | Map(m: map<string, QVar>)
    | List(l: seq<QVar>)

  predicate IsContainer(t: QVar) {
    t.Map? || t.List?
  }

  function Fields(t: QVar): map<string, QVar> {
    if t.Map? then t.m else map[]
  }

  function Items(t: QVar): seq<QVar> {
    if t.List? then t.l else []
  }

  function Field(m: map<string, QVar>, k: string): QVar {
    if k in m then m[k] else Null
  }
}
