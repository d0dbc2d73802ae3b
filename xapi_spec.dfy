/** The XAPI client (src/xapi.js) as functions of its state: `connect`, `_logIn`, `_call`
    and `call`, run one request at a time against a server that answers from a script.
    The methods of XapiClient.Xapi are proved to compute exactly these functions. */
module XapiSpec {
  import opened Wrappers
  import opened XapiProtocol
  import opened BackOff

  const LOGIN_METHOD := "session.login_with_password"
  const DEFAULT_PORT := "443"

  /** The options of the XML-RPC client built by `connect`. */
  datatype Endpoint = Endpoint(hostname: string, port: string, rejectUnauthorized: bool)

  /** One `methodCall` sent to the server. */
  datatype Request = Request(to: Endpoint, name: string, args: seq<Value>)

  /** The client object (`host`, `username`, `password`, `xmlrpc`, `_sessionId`, `_backOff`)
      together with the server it talks to. `session` is the settled login promise held in
      `_sessionId` (None while it is unset); `logins` counts the logins started; `replies` is
      what the server will answer, in order; `sent` lists the requests issued so far. */
  datatype State = State(
    host: string,
    username: Value,
    password: Value,
    client: Option<Endpoint>,
    session: Option<Outcome>,
    logins: nat,
    backOff: BackOffState,
    replies: seq<Reply>,
    sent: seq<Request>)

  /** The hostname and port `parseUrl('http://' + host)` finds: what precedes the first
      colon, and what follows it ("" when there is no port). */
  function ParseHost(host: string): (r: (string, string))
    ensures ':' !in r.0
    ensures ':' in host ==> host == r.0 + [':'] + r.1
    ensures ':' !in host ==> r == (host, "")
  {
    if host == [] then ("", "")
    else if host[0] == ':' then ("", host[1..])
    else
      var rest := ParseHost(host[1..]);
      assert host == [host[0]] + host[1..];
      ([host[0]] + rest.0, rest.1)
  }

  /** The XML-RPC client options for a host: port 443 unless the host names one, and
      certificates are not checked. */
  function EndpointFor(host: string): (e: Endpoint)
    ensures e.hostname == ParseHost(host).0
    ensures e.port == if ParseHost(host).1 == "" then DEFAULT_PORT else ParseHost(host).1
    ensures !e.rejectUnauthorized
  {
    var target := ParseHost(host);
    Endpoint(target.0, if target.1 == "" then DEFAULT_PORT else target.1, false)
  }

  /** `_call(method, args)`: send the request to the current client, unwrap the reply, and
      on an error let Recover route it. Without a client, `q.ninvoke(undefined, ...)` fails
      before anything is sent. */
  function CallRaw(s: State, name: string, args: seq<Value>): (r: (Outcome, State))
    decreases |s.replies|, 0
    ensures |r.1.replies| <= |s.replies|
    ensures |r.1.replies| < |s.replies| || r.0 == NoReply || r.0 == Thrown(TypeError("xmlrpc"))
    ensures r.1.logins >= s.logins
    ensures r.1.username == s.username && r.1.password == s.password
    ensures s.client.Some? ==> s.sent + [Request(s.client.value, name, args)] <= r.1.sent
    ensures s.sent <= r.1.sent
  {
    if s.client.None? then (Thrown(TypeError("xmlrpc")), s)
    else
      var issued := s.(sent := s.sent + [Request(s.client.value, name, args)]);
      if issued.replies == [] then (NoReply, issued)
      else
        var answered := issued.(replies := issued.replies[1..]);
        match Settle(issued.replies[0])
        case Passed(v) => (Done(v), answered)
        case Succeeded(v) => (Done(v), answered.(backOff := Reset(answered.backOff)))
        case Threw(e) => Recover(answered, name, args, e)
  }

  /** The catch handler of `_call`: on `HOST_IS_SLAVE` move to the master, reconnect and
      reissue the same request once the new login has settled; on a transient code back off
      and loop; otherwise rethrow. When the master has the hostname already in use,
      `connect()` returns `undefined` and calling its `then` raises a TypeError. */
  function Recover(s: State, name: string, args: seq<Value>, e: Error): (r: (Outcome, State))
    decreases |s.replies|, 3
    ensures |r.1.replies| <= |s.replies|
    ensures r.1.logins >= s.logins
    ensures r.1.username == s.username && r.1.password == s.password
    ensures s.sent <= r.1.sent
  {
    match Classify(e)
    case Propagate => (Thrown(e), s)
    case Redirect(master) =>
      var c := Connect(s.(host := master), false);
      if c.0.None? then (Thrown(TypeError("connect")), c.1)
      else if c.0.value.Done? then CallRaw(c.1, name, args)
      else (c.0.value, c.1)
    case Retry =>
      var b := Backoff(s.backOff, e);
      var s' := s.(backOff := b.0);
      if b.1.GiveUp? then (Thrown(b.1.reason), s') else CallRaw(s', name, args)
  }

  /** `connect(force)`: unless forced, nothing happens while the client already points at the
      host's hostname (and `undefined` is returned); otherwise a new client is built and a
      login started, whose outcome is returned. */
  function Connect(s: State, force: bool): (r: (Option<Outcome>, State))
    decreases |s.replies|, 2
    ensures |r.1.replies| <= |s.replies|
    ensures r.1.logins >= s.logins
    ensures r.1.username == s.username && r.1.password == s.password
    ensures s.sent <= r.1.sent
  {
    if !force && s.client.Some? && ParseHost(s.host).0 == s.client.value.hostname then (None, s)
    else
      var l := LogIn(s.(client := Some(EndpointFor(s.host))));
      (Some(l.0), l.1)
  }

  /** `_logIn()`: `_sessionId` is set to the pending `_call` of the login method with the
      credentials before that call runs; a login started during it (by a redirect) replaces
      it, so the outcome is stored only when no other login has started meanwhile. */
  function LogIn(s: State): (r: (Outcome, State))
    decreases |s.replies|, 1
    ensures |r.1.replies| <= |s.replies|
    ensures r.1.logins > s.logins
    ensures r.1.username == s.username && r.1.password == s.password
    ensures s.client.Some? ==> s.sent + [Request(s.client.value, LOGIN_METHOD, [s.username, s.password])] <= r.1.sent
  {
    var started := s.(logins := s.logins + 1);
    var c := CallRaw(started, LOGIN_METHOD, [s.username, s.password]);
    (c.0, if c.1.logins == started.logins then c.1.(session := Some(c.0)) else c.1)
  }

  /** The session id `call` reads from `_sessionId` once it has resolved (`undefined` while
      it is unset). */
  function SessionValue(session: Option<Outcome>): Value
    requires session.None? || session.value.Done?
  {
    if session.Some? then session.value.value else Undefined
  }

  /** `call(method, ...args)`: wait for `_sessionId`, issue `_call` with the session id in
      front of the arguments, and on `SESSION_INVALID` log in again and start over with the
      new session. A rejected `_sessionId`, a failed login and every other error are passed
      on. */
  function Call(s: State, name: string, args: seq<Value>): (r: (Outcome, State))
    decreases |s.replies|
    ensures |r.1.replies| <= |s.replies| && r.1.logins >= s.logins
    ensures r.1.username == s.username && r.1.password == s.password
    ensures s.sent <= r.1.sent
    ensures s.session.Some? && !s.session.value.Done? ==> r == (s.session.value, s)
    ensures r.0.Done? ==> |r.1.replies| < |s.replies|
  {
    if s.session.Some? && !s.session.value.Done? then (s.session.value, s)
    else
      var c := CallRaw(s, name, [SessionValue(s.session)] + args);
      if c.0.Thrown? && IsSessionInvalid(c.0.error) then
        var l := LogIn(c.1);
        if l.0.Done? then Call(l.1, name, args) else l
      else c
  }

  /** The state `new Xapi({host, username, password})` starts from, before `connect()`. */
  function Initial(host: string, username: Value, password: Value, failAfter: nat, replies: seq<Reply>): (s: State)
    requires failAfter > 0
    ensures s.host == host && s.username == username && s.password == password && s.replies == replies
    ensures s.client.None? && s.session.None? && s.logins == 0 && s.sent == []
    ensures s.backOff.number == 0 && s.backOff.failAfter == failAfter
  {
    State(host, username, password, None, None, 0, Start(failAfter), replies, [])
  }

  /** The constructor: configure, then `connect()`, whose login promise nobody waits for. */
  function Create(host: string, username: Value, password: Value, failAfter: nat, replies: seq<Reply>): (s: State)
    requires failAfter > 0
    ensures s.username == username && s.password == password
    ensures s.logins >= 1 && |s.replies| <= |replies|
    ensures s.sent != [] && s.sent[0] == Request(EndpointFor(host), LOGIN_METHOD, [username, password])
  {
    Connect(Initial(host, username, password, failAfter, replies), false).1
  }
}
