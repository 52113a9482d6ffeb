/** Small shared vocabulary: an optional value, standing in for JavaScript's
    `null`/`undefined` wherever the coordinator stores "no value yet". */
module Basics {

  datatype Option<T> = None | Some(value: T)

  function Min(a: int, b: int): (r: int)
    ensures r <= a && r <= b && (r == a || r == b)
  {
    if a <= b then a else b
  }
}
