/** The XAPI client object of src/xapi.js: its fields are updated in place by `connect`,
    `_logIn`, `_call` and `call`, and each method is proved to compute the function of
    XapiSpec that describes it. The server is the `replies` script: each request consumes the
    next reply, and `sent` records the requests. */
module XapiClient {
  import opened Wrappers
  import opened XapiProtocol
  import opened BackOff
  import opened XapiSpec

  class Xapi {
    var host: string
    const username: Value
    const password: Value
    /** `xmlrpc`: the options of the current XML-RPC client, None before the first `connect`. */
    var client: Option<Endpoint>
    /** `_sessionId`: the settled promise of the latest login. */
    var session: Option<Outcome>
    var logins: nat
    /** `_backOff`: one backoff object shared by every call of this client. */
    var backOff: BackOffState
    var replies: seq<Reply>
    var sent: seq<Request>

    function Snapshot(): State
      reads this
    {
      State(host, username, password, client, session, logins, backOff, replies, sent)
    }

    /** `new Xapi(options)`: store the options, configure the backoff, then `connect()`. */
    constructor (host: string, username: Value, password: Value, failAfter: nat, replies: seq<Reply>)
      requires failAfter > 0
      ensures Snapshot() == Create(host, username, password, failAfter, replies)
    {
      this.host := host;
      this.username := username;
      this.password := password;
      client := None;
      session := None;
      logins := 0;
      backOff := Start(failAfter);
      this.replies := replies;
      sent := [];
      new;
      var _ := Connect(false);
    }

    /** `connect(force)`. The source also deletes `this.sessionId`, a property nothing reads;
        the session held in `_sessionId` is replaced only by the login started here. */
    method Connect(force: bool) returns (r: Option<Outcome>)
      modifies this
      decreases |replies|, 2
      ensures (r, Snapshot()) == XapiSpec.Connect(old(Snapshot()), force)
    {
      var hostname := ParseHost(host).0;
      if !force && client.Some? && hostname == client.value.hostname {
        return None;
      }
      client := Some(EndpointFor(host));
      var o := LogIn();
      r := Some(o);
    }

    /** `_logIn()`. */
    method LogIn() returns (o: Outcome)
      modifies this
      decreases |replies|, 1
      ensures (o, Snapshot()) == XapiSpec.LogIn(old(Snapshot()))
    {
      logins := logins + 1;
      var mine := logins;
      o := CallRaw(LOGIN_METHOD, [username, password]);
      if logins == mine {
        session := Some(o);
      }
    }

    /** `_call(name, args)`: the `loop` closure becomes the loop below; a redirect
        reissues the call once the new login has settled. */
    method CallRaw(name: string, args: seq<Value>) returns (o: Outcome)
      modifies this
      decreases |replies|, 0
      ensures (o, Snapshot()) == XapiSpec.CallRaw(old(Snapshot()), name, args)
    {
      while true
        invariant |replies| <= old(|replies|)
        invariant XapiSpec.CallRaw(Snapshot(), name, args) == XapiSpec.CallRaw(old(Snapshot()), name, args)
        decreases |replies|
      {
        ghost var before := Snapshot();
        if client.None? {
          return Thrown(TypeError("xmlrpc"));
        }
        sent := sent + [Request(client.value, name, args)];
        if replies == [] {
          return NoReply;
        }
        var reply := replies[0];
        replies := replies[1..];
        match Settle(reply)
        case Passed(v) =>
          return Done(v);
        case Succeeded(v) =>
          backOff := Reset(backOff);
          return Done(v);
        case Threw(e) =>
          assert XapiSpec.CallRaw(before, name, args) == XapiSpec.Recover(Snapshot(), name, args, e);
          match Classify(e)
          case Propagate =>
            return Thrown(e);
          case Redirect(master) =>
            host := master;
            var c := Connect(false);
            if c.None? {
              return Thrown(TypeError("connect"));
            }
            if !c.value.Done? {
              return c.value;
            }
            o := CallRaw(name, args);
            return;
          case Retry =>
            var b := Backoff(backOff, e);
            backOff := b.0;
            if b.1.GiveUp? {
              return Thrown(b.1.reason);
            }
      }
    }

    /** `call(name, ...args)`: the `loop` closure becomes the loop below. */
    method Call(name: string, args: seq<Value>) returns (o: Outcome)
      modifies this
      ensures (o, Snapshot()) == XapiSpec.Call(old(Snapshot()), name, args)
    {
      while true
        invariant XapiSpec.Call(Snapshot(), name, args) == XapiSpec.Call(old(Snapshot()), name, args)
        decreases |replies|
      {
        if session.Some? && !session.value.Done? {
          return session.value;
        }
        ghost var before := Snapshot();
        o := CallRaw(name, [SessionValue(session)] + args);
        if !(o.Thrown? && IsSessionInvalid(o.error)) {
          return;
        }
        var l := LogIn();
        if !l.Done? {
          return l;
        }
      }
    }
  }
}
