/** What the XAPI server answers, how the client unwraps it, and how it routes an error
    (src/xapi.js, the `then`/`catch` handlers of `_call` and the test in `call`). */
module XapiProtocol {
  import opened Wrappers

  /** A value carried by the remote API: a result, a session id, a credential, or an object
      (an XML-RPC struct) with text members. */
  datatype Value = Undefined | Text(text: string) | Struct(members: map<string, string>)

  /** A result that is not an XAPI envelope: anything but an object with a `Status` member. */
  type Unwrapped = v: Value | !(v.Struct? && "Status" in v.members) witness Undefined

  /** A rejection reason. A transport error is an object with a `code` property; an XAPI
      error is the `ErrorDescription` list, headed by the error code. `code` is "" when the
      object has none (JavaScript's `||` treats both alike). `TypeError` is the error the
      JavaScript runtime raises at `site`: when the client calls a method of `undefined`
      ("xmlrpc", "connect"), or applies `in` to a value that is not an object ("in"). */
  datatype Error =
    | Raised(code: string, description: seq<string>)
    | TypeError(site: string)

  /** A response: a result without a `Status` member, or the XAPI envelope. */
  datatype Response =
    | Plain(result: Unwrapped)
    | Envelope(status: string, value: Value, errorDescription: Error)

  /** One answer of the server to one request. */
  datatype Reply = Returned(response: Response) | Failed(error: Error)

  /** How a call ends: with a value, with an error, or never (the server sends no reply). */
  datatype Outcome = Done(value: Value) | Thrown(error: Error) | NoReply

  /** The result of `_call`'s success handler: passed through untouched, unwrapped from a
      `'Success'` envelope (which also resets the backoff), or thrown into the catch handler.
      `'Status' in result` throws a TypeError unless the result is an object, so only an
      object without `Status` is passed through. */
  datatype Settled = Passed(value: Value) | Succeeded(value: Value) | Threw(error: Error)

  const SUCCESS := "Success"
  const HOST_IS_SLAVE := "HOST_IS_SLAVE"
  const SESSION_INVALID := "SESSION_INVALID"

  /** The codes after which `_call` backs off and tries again. */
  const TRANSIENT_CODES: set<string> :=
    {"ECONNRESET", "ECONNREFUSED", "EHOSTUNREACH", "HOST_STILL_BOOTING", "HOST_HAS_NO_MANAGEMENT_IP"}

  /** The names every JavaScript object literal inherits from `Object.prototype`, which the
      `in` operator also finds. */
  const OBJECT_PROTOTYPE_KEYS: set<string> :=
    {"constructor", "hasOwnProperty", "isPrototypeOf", "propertyIsEnumerable", "toLocaleString",
     "toString", "valueOf", "__proto__", "__defineGetter__", "__defineSetter__",
     "__lookupGetter__", "__lookupSetter__"}

  function Settle(reply: Reply): (r: Settled)
    ensures r.Passed? <==> reply.Returned? && reply.response.Plain? && reply.response.result.Struct?
    ensures r.Passed? ==> r.value == reply.response.result
    ensures reply.Returned? && reply.response.Plain? && !reply.response.result.Struct? ==> r == Threw(TypeError("in"))
    ensures r.Succeeded? <==> reply.Returned? && reply.response.Envelope? && reply.response.status == SUCCESS
    ensures r.Succeeded? ==> r.value == reply.response.value
    ensures r.Threw? && reply.Returned? && reply.response.Envelope? ==> r.error == reply.response.errorDescription
    ensures reply.Failed? ==> r == Threw(reply.error)
  {
    match reply
    case Failed(e) => Threw(e)
    case Returned(Plain(v)) => if v.Struct? then Passed(v) else Threw(TypeError("in"))
    case Returned(Envelope(status, v, d)) => if status == SUCCESS then Succeeded(v) else Threw(d)
  }

  /** `error.code || error[0]`; None stands for `undefined`. */
  function ErrorCode(e: Error): (r: Option<string>)
    ensures e.Raised? && e.code != "" ==> r == Some(e.code)
    ensures e.Raised? && e.code == "" && e.description != [] ==> r == Some(e.description[0])
    ensures r.None? <==> e.TypeError? || (e.code == "" && e.description == [])
  {
    match e
    case Raised(code, d) => if code != "" then Some(code) else if d != [] then Some(d[0]) else None
    case TypeError(_) => None
  }

  /** `error[1]`, the address of the pool master in a `HOST_IS_SLAVE` error; when it is
      missing the client's host becomes `undefined`, which `'http://' + host` spells out. */
  function NewMaster(e: Error): string {
    if e.Raised? && |e.description| > 1 then e.description[1] else "undefined"
  }

  /** `'SESSION_INVALID' === error[0]`: the session test of `call` looks at the first element only. */
  predicate IsSessionInvalid(e: Error) {
    e.Raised? && e.description != [] && e.description[0] == SESSION_INVALID
  }

  /** What the catch handler of `_call` does with an error. */
  datatype Route = Redirect(master: string) | Retry | Propagate

  /** The routing as written: `code in { ECONNRESET: true, ... }` is also true for every name
      inherited from `Object.prototype`. */
  function ClassifyAsWritten(e: Error): (r: Route)
    ensures r == Retry <==> ErrorCode(e).Some? && ErrorCode(e).value in TRANSIENT_CODES + OBJECT_PROTOTYPE_KEYS
  {
    match ErrorCode(e)
    case None => Propagate
    case Some(code) =>
      if code == HOST_IS_SLAVE then Redirect(NewMaster(e))
      else if code in TRANSIENT_CODES + OBJECT_PROTOTYPE_KEYS then Retry
      else Propagate
  }

  /** The routing as intended, used by the rest of the model: redirect on `HOST_IS_SLAVE`,
      back off on exactly the five transient codes, rethrow everything else. */
  function Classify(e: Error): (r: Route)
    ensures r.Redirect? <==> ErrorCode(e) == Some(HOST_IS_SLAVE)
    ensures r.Redirect? ==> r.master == NewMaster(e)
    ensures r == Retry <==> ErrorCode(e).Some? && ErrorCode(e).value in TRANSIENT_CODES
  {
    match ErrorCode(e)
    case None => Propagate
    case Some(code) =>
      if code == HOST_IS_SLAVE then Redirect(NewMaster(e))
      else if code in TRANSIENT_CODES then Retry
      else Propagate
  }

  /** An XAPI error whose code is `toString` is retried by the code as written, and
      rethrown by the intended routing. */
  lemma InheritedNameIsRetried()
    ensures ClassifyAsWritten(Raised("", ["toString"])) == Retry
    ensures Classify(Raised("", ["toString"])) == Propagate
  {
    assert ErrorCode(Raised("", ["toString"])) == Some("toString");
    assert "toString" in OBJECT_PROTOTYPE_KEYS;
  }

  /** The two routings differ exactly on codes that are inherited names. */
  lemma ClassifyDiffersOnlyOnInheritedNames(e: Error)
    ensures ClassifyAsWritten(e) != Classify(e) <==>
              ErrorCode(e).Some? && ErrorCode(e).value in OBJECT_PROTOTYPE_KEYS
  {
  }
}
