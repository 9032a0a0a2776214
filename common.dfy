/** Shared result types for the request handlers. Every handler of the
    library API either fails with one of the HTTP error classes below,
    leaving the store as it was, or applies its writes. */
module Common {

  datatype Option<+T> = None | Some(value: T) {
    function GetOr(default: T): T {
      match this
      case Some(v) => v
      case None => default
    }
  }

  /** The error classes the handlers raise: 404, 400, 403, a request body
      refused by schema validation (422), a constraint violation raised
      by the database at commit time (reported as a server error), and any
      other exception the handler does not catch (also a server error). */
  datatype Error = NotFound | BadRequest | Forbidden | Invalid | Integrity | Unhandled

  datatype Result<+T> = Ok(value: T) | Err(error: Error)

  datatype Outcome = Done | Failed(error: Error)

  /** The largest element of a non-empty list: Python's `max(numbers)`. */
  function MaxOf(ns: seq<int>): (r: int)
    requires ns != []
    ensures r in ns
    ensures forall x :: x in ns ==> x <= r
  {
    if |ns| == 1 then ns[0]
    else
      var rest := MaxOf(ns[1..]);
      assert forall x :: x in ns ==> x == ns[0] || x in ns[1..];
      if ns[0] >= rest then ns[0] else rest
  }
}
