/** Small vocabulary shared by the modules. */
module Common {

  datatype Option<+T> = None | Some(value: T)

  datatype Result<+T> = Ok(value: T) | Err

  function Min(a: nat, b: nat): nat { if a < b then a else b }
}
