/** Small value types shared by every module of the model. */
module Common {

  datatype Option<T> = None | Some(value: T)

  /** Instants are whole milliseconds, read in one fixed time zone. */
  type Millis = int

  function Abs(x: int): (r: nat)
    ensures r == x || r == -x
  {
    if x < 0 then -x else x
  }
}
