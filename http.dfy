/** What the FastAPI layer adds around the handlers: `HTTPException`
    (status code and detail), the authenticated caller that
    `get_current_user` resolves, and the admin gate of
    `get_current_admin_user` (backend/app/core/security.py). */
module Http {
  import opened Models

  datatype ApiError = ApiError(status: nat, detail: string)

  datatype Result<+T> = Ok(value: T) | Err(error: ApiError)

  /** The (id, role) of the user row the bearer token resolved to. */
  datatype Caller = Caller(id: nat, role: Role)

  predicate Authenticated(c: Caller, us: seq<User>) {
    exists i :: 0 <= i < |us| && us[i].id == c.id && us[i].role == c.role
  }

  const NotEnoughPrivileges: ApiError := ApiError(403, "The user does not have enough privileges")

  /** A commit the database refuses (a CHECK, UNIQUE or length violation)
      raises out of the handler; the session is rolled back and the client
      receives a 500 response. */
  const CommitRefused: ApiError := ApiError(500, "Internal Server Error")
}
