/** Conventions for the JavaScript values the engine passes around. */
module JsValues {

  /** `null` or `undefined` (None) versus a defined value (Some). The engine only
      ever compares such a value against a number with `===`, so null and
      undefined never need to be told apart. */
  datatype Option<+T> = None | Some(value: T)

  /** The `x || -1` idiom applied to an item id: JavaScript treats the number 0
      as falsy, so a real item with id 0 is read as "no last roll" (-1). */
  function OrMinusOne(x: Option<int>): (r: int)
    ensures x.None? ==> r == -1
    ensures x.Some? && x.value != 0 ==> r == x.value
    ensures x == Some(0) ==> r == -1
  {
    if x.Some? && x.value != 0 then x.value else -1
  }

  function Max(a: int, b: int): (r: int)
    ensures r >= a && r >= b && (r == a || r == b)
  {
    if a >= b then a else b
  }

  /** Sequence concatenation is associative. */
  lemma AppendAssoc<T>(a: seq<T>, b: seq<T>, c: seq<T>)
    ensures (a + b) + c == a + (b + c)
  {
  }
}
