/** Small vocabulary shared by every module: JavaScript's `null`/`undefined`,
    thrown errors, string truthiness and the `%` operator. */
module Base {

  /** A value that may be absent. `None` stands for both `null` and
      `undefined`: the modelled code never tells the two apart. */
  datatype Option<+T> = None | Some(value: T)

  /** The outcome of a call that may throw: `Err` carries the message of the
      thrown `Error`. */
  datatype Result<+T> = Ok(value: T) | Err(message: string)

  /** JavaScript truthiness of a `string | null` value: absent and `""` are falsy. */
  predicate Truthy(s: Option<string>)
  {
    s.Some? && s.value != ""
  }

  /** JavaScript's `a || b` on two `string | null` values. */
  function Or(a: Option<string>, b: Option<string>): (r: Option<string>)
    ensures Truthy(r) <==> Truthy(a) || Truthy(b)
    ensures Truthy(a) ==> r == a
    ensures !Truthy(a) ==> r == b
  {
    if Truthy(a) then a else b
  }

  /** JavaScript's `a % b` for a positive divisor: the remainder truncates
      toward zero, so it takes the sign of `a` (Dafny's own `%` never goes negative). */
  function JsRem(a: int, b: int): (r: int)
    requires b > 0
    ensures -b < r < b
    ensures a >= 0 ==> 0 <= r && r == a % b
    ensures a < 0 ==> r <= 0
  {
    if a >= 0 then a % b else -((-a) % b)
  }
}
