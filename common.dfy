/** Small value types shared by the modules: optional values and absolute value. */
module Common {

  /** A JavaScript value that may be `undefined`/`null`. */
  datatype Option<+T> = None | Some(value: T)

  /** `Math.abs` on numbers, taken as exact reals. */
  function Abs(x: real): (r: real)
    ensures r >= 0.0 && (r == x || r == -x)
  {
    if x < 0.0 then -x else x
  }

  /** JavaScript truthiness of an optional string: absent and `""` are falsy. */
  predicate Truthy(s: Option<string>)
  {
    s.Some? && s.value != ""
  }
}

/** The record shapes of the client (`Video`, `Category`). */
module Types {

  datatype Video = Video(
    id: int,
    title: string,
    categoryId: int,
    categoryName: string,
    url: string,
    duration: string,
    displayOrder: int,
    createdAt: string)

  datatype Category = Category(id: int, name: string, createdAt: string)
}
