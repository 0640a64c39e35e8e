/** Definitions shared by every model. */
module Common {
  datatype Option<+T> = None | Some(value: T)

  predicate IsBlank(c: char) {
    c == ' ' || c == '\t'
  }

  function Digit(d: nat): char
    requires d < 10
  {
    "0123456789"[d]
  }
}
