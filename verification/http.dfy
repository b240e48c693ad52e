/**
  What the route handlers share: the reply they send, the statuses they use,
  JavaScript truthiness of the request fields they check, and the way a
  failing store call is injected.
 */
module Http {
  import opened Wrappers

  /** A JSON reply: a body with its status, or an error object with its status. */
  datatype Reply<+T> = Json(status: nat, body: T) | Error(status: nat)
  {
    function Status(): nat {
      match this
      case Json(s, _) => s
      case Error(s) => s
    }
  }

  const OK: nat := 200
  const CREATED: nat := 201
  const BAD_REQUEST: nat := 400
  const NOT_FOUND: nat := 404
  const SERVER_ERROR: nat := 500

  /** The `{ success: true }` body. */
  datatype Ack = Acknowledged

  /**
    Which store call of a request throws, counting the calls the handler makes
    in order from 0. A call that is never made cannot fail.
   */
  datatype Fault = NoFault | FailsAt(call: nat)

  predicate Fails(f: Fault, call: nat)
  {
    f.FailsAt? && f.call == call
  }

  /** A request field passes the source's `if (!field)` check: present and not the empty string. */
  predicate Truthy(field: Option<string>)
  {
    field.Some? && field.value != ""
  }
}
