/** SQL three-valued logic: None is NULL. */
module Sql {
  import opened Options

  type Tri = Option<bool>

  function Or(a: Tri, b: Tri): Tri {
    if a == Some(true) || b == Some(true) then Some(true)
    else if a == None || b == None then None
    else Some(false)
  }

  function And(a: Tri, b: Tri): Tri {
    if a == Some(false) || b == Some(false) then Some(false)
    else if a == None || b == None then None
    else Some(true)
  }

  /** A condition is met only when it is true, not when it is NULL. */
  predicate Holds(a: Tri) {
    a == Some(true)
  }
}
