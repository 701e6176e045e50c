/** Vocabulary shared by every service: keys, optional values, and the kinds of error the services raise. */
module Common {

  /** Primary keys. Each store allocates them from a counter, so a row's key is also its place in creation order. */
  type Id = nat

  /** An optional value: an absent DTO field, a `null` lookup result. */
  datatype Option<T> = None | Some(value: T) {
    function GetOr(default: T): T {
      if Some? then value else default
    }
  }

  /** The exceptions a service throws, by kind (the HTTP layer maps each to a status code). */
  datatype ServiceError =
    | NotFound          // NotFoundException, 404
    | Forbidden         // ForbiddenException, 403
    | BadRequest        // BadRequestException, 400
    | Conflict          // ConflictException, 409
    | InvalidOperation  // System.InvalidOperationException in the .NET backend
    | StoreError        // an error raised by the database layer that the service does not catch
    | TypeError         // a JavaScript TypeError, such as a method called on `undefined`

  /** The outcome of an operation that may throw. */
  datatype Result<T> = Ok(value: T) | Err(error: ServiceError)

  function Min(a: int, b: int): int {
    if a <= b then a else b
  }

  /** No element occurs twice. */
  predicate NoDups<T(==)>(s: seq<T>) {
    forall i, j :: 0 <= i < j < |s| ==> s[i] != s[j]
  }
}
