/** Stock definitions. */
module Common {
  datatype Option<T> = None | Some(value: T)

  function Least(x: nat, y: nat): nat {
    if x <= y then x else y
  }

  function Greatest(x: nat, y: nat): nat {
    if x <= y then y else x
  }
}
