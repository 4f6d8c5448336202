/**
 * Values shared by every route of the budget server: optional values, the
 * response status of a handler, the session a handler reads, and the two
 * middleware guards (requireAuth and requireAdmin) that gate the routes.
 */
module Common {

  datatype Option<+T> = None | Some(value: T)

  /**
   * The outcome of one request. `Fail` is a JSON `{error: message}` reply
   * with its HTTP code; `ServerError` is the generic 500 reply that echoes a
   * raw driver or runtime exception, whose text is not modelled.
   */
  datatype Status = Ok | Fail(code: int, message: string) | ServerError

  /** The server-side session: who is logged in and whether they were an admin then. */
  datatype Session = Session(userId: int, username: string, isAdmin: bool)

  /** A read-only reply: a body exactly when the status is Ok. */
  datatype Answer<T> = Answer(status: Status, body: Option<T>)

  const Unauthorized: Status := Fail(401, "Unauthorized")
  const AdminRequired: Status := Fail(403, "Forbidden - Admin access required")

  /** requireAuth: a session whose userId is truthy (a JavaScript 0 is falsy). */
  predicate Authenticated(s: Option<Session>)
  {
    s.Some? && s.value.userId != 0
  }

  /** requireAdmin: the session flag alone decides; the users table is not consulted. */
  predicate AdminSession(s: Option<Session>)
  {
    Authenticated(s) && s.value.isAdmin
  }

  /** The reply of a read-only route: 401 without a session, the body otherwise. */
  function Guarded<T>(s: Option<Session>, body: T): (r: Answer<T>)
    ensures r.status == Ok <==> Authenticated(s)
    ensures r.status != Ok ==> r == Answer(Unauthorized, None)
    ensures r.status == Ok ==> r.body == Some(body)
  {
    if Authenticated(s) then Answer(Ok, Some(body)) else Answer(Unauthorized, None)
  }

  /** The reply of a read-only admin route: 403 without an admin session. */
  function AdminGuarded<T>(s: Option<Session>, body: T): (r: Answer<T>)
    ensures r.status == Ok <==> AdminSession(s)
    ensures r.status != Ok ==> r == Answer(AdminRequired, None)
    ensures r.status == Ok ==> r.body == Some(body)
  {
    if AdminSession(s) then Answer(Ok, Some(body)) else Answer(AdminRequired, None)
  }
}
