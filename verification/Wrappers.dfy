/** The optional value, used for nullable columns and absent JSON members. */
module Wrappers {
  datatype Option<+T> = None | Some(value: T)

  lemma Associates<T>(x: seq<T>, y: seq<T>, z: seq<T>)
    ensures (x + y) + z == x + (y + z)
  {
  }

  lemma SameRest<T>(x: seq<T>, y: seq<T>, z: seq<T>)
    ensures x + y == x + z <==> y == z
  {
    assert (x + y)[|x|..] == y && (x + z)[|x|..] == z;
  }

  function Min(a: int, b: int): int {
    if a < b then a else b
  }
}

/** SHA-256 as an arbitrary function: no result here depends on its value. */
module Hashing {
  import opened Utf8

  type Digest = string

  const Sha256: Bytes -> Digest
}
