/** Nullable values and SQL's three-valued logic. */
module Sql {
  datatype Option<+T> = None | Some(value: T)

  /** A JavaScript optional string that passes a truthiness test. */
  predicate Truthy(o: Option<string>) {
    o.Some? && o.value != ""
  }

  datatype Bool3 = True | False | Null

  function Lift(b: bool): Bool3 {
    if b then True else False
  }

  function Not(a: Bool3): Bool3 {
    match a
    case True => False
    case False => True
    case Null => Null
  }

  function And(a: Bool3, b: Bool3): Bool3 {
    if a == False || b == False then False
    else if a == True && b == True then True
    else Null
  }

  function Or(a: Bool3, b: Bool3): Bool3 {
    Not(And(Not(a), Not(b)))
  }

  function IsNull<T>(a: Option<T>): Bool3 {
    Lift(a.None?)
  }

  function NotNull<T>(a: Option<T>): Bool3 {
    Lift(a.Some?)
  }

  function Eq(a: Option<string>, b: Option<string>): Bool3 {
    if a.None? || b.None? then Null else Lift(a.value == b.value)
  }

  /** `a IS DISTINCT FROM b`: never NULL. */
  function Distinct(a: Option<string>, b: Option<string>): Bool3 {
    Lift(a != b)
  }

  function AtMost(a: Option<int>, b: int): Bool3 {
    if a.None? then Null else Lift(a.value <= b)
  }

  function Above(a: Option<int>, b: int): Bool3 {
    if a.None? then Null else Lift(a.value > b)
  }

  /** A WHERE clause keeps a row only when its condition is True, not when it is Null. */
  predicate Holds(a: Bool3) {
    a == True
  }
}
