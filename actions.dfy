/** What a strategy exchanges with the authentication framework and with the application:
    the request it reads, the arguments it hands to the verify callback, what that callback
    does, and the three actions (`success`, `fail`, `error`) it reports back. */
module PassportActions {
  import opened Wrappers
  import opened JsValue

  /** The parts of an incoming request that strategies read or pass on. A container the
      request does not carry is `undefined`. */
  datatype Request = Request(body: Value, query: Value, headers: Value)

  /** The leading arguments of one call of the verify callback: the request when it is passed
      through, then the username and the password. The completion callback that follows them
      is the strategy's own and is modelled by `VerifyResult`. */
  datatype Call = Call(req: Option<Request>, username: Value, password: Value)

  /** What one run of the verify callback does: throw synchronously, or invoke the completion
      callback with `(err, user, info)` (an argument it leaves out is `undefined`). */
  datatype VerifyResult = Throws(exception: Value) | Completes(err: Value, user: Value, info: Value)

  /** The action a strategy reports to the framework: `success(user, info)`,
      `fail(info, status)` or `error(err)`. An argument left out is `undefined`; a status
      left out is `None`. */
  datatype Outcome =
    | Success(user: Value, info: Value)
    | Fail(info: Value, status: Option<nat>)
    | Error(err: Value)
}
