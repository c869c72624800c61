/** What several modules share. */
module Basics {

  datatype Option<T> = None | Some(v: T)

  function Min(a: nat, b: nat): nat { if a <= b then a else b }
}
