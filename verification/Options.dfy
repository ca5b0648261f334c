/** Just enough of an optional value, and the lesser of two numbers. */
module Options {
  datatype Option<+T> = None | Some(value: T)

  function Least(a: nat, b: nat): nat { if a <= b then a else b }
}
