/** Small vocabulary shared by every other module. */
module Common {
  datatype Option<+T> = None | Some(value: T)

  function Max(x: real, y: real): real {
    if x < y then y else x
  }

  function Min(x: real, y: real): real {
    if y < x then y else x
  }

  /** Costs closer than this count as equal. */
  const COST_TOLERANCE := 0.000000001
}
