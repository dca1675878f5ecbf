/** Values shared by the REST handlers and the dashboard model. */
module Common {

  /** An optional value: a request-body field that may be absent, or a nullable column. */
  datatype Option<T> = None | Some(value: T)

  /** What an Express handler answers: a JSON body with status 200, or an error status
      with the `message` of its JSON body. */
  datatype Reply<T> = Ok(body: T) | Error(code: int, message: string)

  /** The value `new Date(text)` produces from a request field. Date parsing is not
      modelled: two dates are equal exactly when they were built from the same text. */
  datatype Date = DateOf(text: Option<string>)

  /** JavaScript truthiness of a string field: present and not the empty string. */
  predicate Truthy(field: Option<string>) {
    field.Some? && field.value != ""
  }

  /** Prisma's treatment of an `undefined` column in an update: a present field replaces
      the column, an absent one keeps it. */
  function Overwrite<T>(current: Option<T>, field: Option<T>): Option<T> {
    if field.Some? then field else current
  }
}
