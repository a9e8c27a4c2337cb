/** Values that may be absent: an optional request field, a lookup that found nothing,
    a `null` the source passes around. */
module Base {

  datatype Option<+T> = None | Some(value: T)

  function Min(a: nat, b: nat): nat {
    if a <= b then a else b
  }
}
