/** What the XAPI client promises, stated over the functions of XapiSpec. */
module XapiProperties {
  import opened Wrappers
  import opened XapiProtocol
  import opened BackOff
  import opened XapiSpec

  /** The server failing with each error in turn. */
  function Failures(errors: seq<Error>): (r: seq<Reply>)
    ensures |r| == |errors|
  {
    if errors == [] then [] else [Failed(errors[0])] + Failures(errors[1..])
  }

  function Repeat(request: Request, n: nat): (r: seq<Request>)
    ensures |r| == n && forall i :: 0 <= i < n ==> r[i] == request
  {
    if n == 0 then [] else [request] + Repeat(request, n - 1)
  }

  /** The request `_call(name, args)` issues from state `s`. */
  function RequestOf(s: State, name: string, args: seq<Value>): Request
    requires s.client.Some?
  {
    Request(s.client.value, name, args)
  }

  // ---------------------------------------------------------------- unwrapping

  /** An object without a `Status` member is returned as it is, after one request, and the
      backoff is not reset. */
  lemma PlainResponsePassesThrough(s: State, name: string, args: seq<Value>, v: Unwrapped)
    requires s.client.Some? && s.replies != [] && s.replies[0] == Returned(Plain(v)) && v.Struct?
    ensures CallRaw(s, name, args) ==
              (Done(v), s.(replies := s.replies[1..], sent := s.sent + [RequestOf(s, name, args)]))
  {
  }

  /** A response that is not an object (`undefined`, a string) makes `'Status' in result`
      throw a TypeError, which has no code and is rethrown: the call fails after one
      request, without backing off. */
  lemma NonObjectResponseThrows(s: State, name: string, args: seq<Value>, v: Unwrapped)
    requires s.client.Some? && s.replies != [] && s.replies[0] == Returned(Plain(v)) && !v.Struct?
    ensures CallRaw(s, name, args) ==
              (Thrown(TypeError("in")), s.(replies := s.replies[1..], sent := s.sent + [RequestOf(s, name, args)]))
  {
    assert Classify(TypeError("in")) == Propagate;
  }

  /** A `'Success'` envelope yields its `Value` and resets the backoff. */
  lemma SuccessResetsBackOff(s: State, name: string, args: seq<Value>, v: Value, description: Error)
    requires s.client.Some? && s.replies != [] && s.replies[0] == Returned(Envelope(SUCCESS, v, description))
    ensures CallRaw(s, name, args) ==
              (Done(v), s.(replies := s.replies[1..], sent := s.sent + [RequestOf(s, name, args)],
                           backOff := Reset(s.backOff)))
  {
  }

  /** Any other status throws exactly the `ErrorDescription`: the call goes on as if the
      transport had failed with it. */
  lemma FailedStatusThrowsDescription(s: State, name: string, args: seq<Value>,
                                      status: string, v: Value, description: Error)
    requires s.client.Some? && s.replies != [] && s.replies[0] == Returned(Envelope(status, v, description))
    requires status != SUCCESS
    ensures CallRaw(s, name, args) == CallRaw(s.(replies := [Failed(description)] + s.replies[1..]), name, args)
  {
    var t := s.(replies := [Failed(description)] + s.replies[1..]);
    assert t.replies[1..] == s.replies[1..];
  }

  // ---------------------------------------------------------------- routing

  /** An error that is neither a redirect nor transient is rethrown unchanged after the one
      request that drew it: no retry, no backoff, no reconnection. */
  lemma OtherErrorsPropagateAtOnce(s: State, name: string, args: seq<Value>, e: Error)
    requires s.client.Some? && s.replies != [] && s.replies[0] == Failed(e)
    requires Classify(e) == Propagate
    ensures CallRaw(s, name, args) ==
              (Thrown(e), s.(replies := s.replies[1..], sent := s.sent + [RequestOf(s, name, args)]))
  {
  }

  /** After any number of transient failures, a success is returned: the same request is
      reissued once per failure, the backoff object steps once per failure and is reset by
      the success. However many failures there are, the call never gives up. */
  lemma {:induction false} RetriesUntilSuccess(s: State, name: string, args: seq<Value>,
                                               errors: seq<Error>, v: Value, description: Error, rest: seq<Reply>)
    requires s.client.Some?
    requires forall i :: 0 <= i < |errors| ==> Classify(errors[i]) == Retry
    requires s.replies == Failures(errors) + [Returned(Envelope(SUCCESS, v, description))] + rest
    ensures CallRaw(s, name, args) ==
              (Done(v), s.(replies := rest, sent := s.sent + Repeat(RequestOf(s, name, args), |errors| + 1),
                           backOff := Reset(Backoffs(s.backOff, errors))))
    decreases |errors|
  {
    var request := RequestOf(s, name, args);
    if errors == [] {
      assert s.replies == [Returned(Envelope(SUCCESS, v, description))] + rest;
      assert Repeat(request, 1) == [request];
    } else {
      var e := errors[0];
      var tail := Failures(errors[1..]) + [Returned(Envelope(SUCCESS, v, description))] + rest;
      assert s.replies == [Failed(e)] + tail;
      var next := s.(replies := tail, sent := s.sent + [request], backOff := Backoff(s.backOff, e).0);
      RetryStep(s, name, args, e, tail);
      RetriesUntilSuccess(next, name, args, errors[1..], v, description, rest);
      RepeatOnceMore(s.sent, request, |errors|);
    }
  }

  /** A server that only ever fails transiently is asked again after every failure until it
      stops answering: no error reaches the caller, not even after `failAfter` failures. */
  lemma {:induction false} TransientFailuresNeverThrow(s: State, name: string, args: seq<Value>, errors: seq<Error>)
    requires s.client.Some?
    requires forall i :: 0 <= i < |errors| ==> Classify(errors[i]) == Retry
    requires s.replies == Failures(errors)
    ensures CallRaw(s, name, args) ==
              (NoReply, s.(replies := [], sent := s.sent + Repeat(RequestOf(s, name, args), |errors| + 1),
                           backOff := Backoffs(s.backOff, errors)))
    decreases |errors|
  {
    var request := RequestOf(s, name, args);
    if errors == [] {
      assert Repeat(request, 1) == [request];
    } else {
      var e := errors[0];
      var tail := Failures(errors[1..]);
      var next := s.(replies := tail, sent := s.sent + [request], backOff := Backoff(s.backOff, e).0);
      RetryStep(s, name, args, e, tail);
      TransientFailuresNeverThrow(next, name, args, errors[1..]);
      RepeatOnceMore(s.sent, request, |errors|);
    }
  }

  /** One transient failure: the backoff steps and the same request is issued again. */
  lemma RetryStep(s: State, name: string, args: seq<Value>, e: Error, tail: seq<Reply>)
    requires s.client.Some? && Classify(e) == Retry && s.replies == [Failed(e)] + tail
    ensures CallRaw(s, name, args) ==
              CallRaw(s.(replies := tail, sent := s.sent + [RequestOf(s, name, args)], backOff := Backoff(s.backOff, e).0),
                      name, args)
  {
    GiveUpNeverReachesCaller(s.backOff, e);
    assert s.replies[1..] == tail;
  }

  /** One request logged before `n` more of the same. */
  lemma RepeatOnceMore(sent: seq<Request>, request: Request, n: nat)
    ensures sent + [request] + Repeat(request, n) == sent + Repeat(request, n + 1)
  {
  }

  /** The state `_call` is in once a `HOST_IS_SLAVE` error has moved it to the master. */
  function MovedToMaster(s: State, name: string, args: seq<Value>, e: Error): State
    requires s.client.Some? && s.replies != []
  {
    s.(host := NewMaster(e), replies := s.replies[1..], sent := s.sent + [RequestOf(s, name, args)])
  }

  /** On `HOST_IS_SLAVE` naming a master with another hostname, the client takes the master
      as its host, builds a client for it and logs in there; once that login has succeeded
      it reissues the same method with the same arguments, otherwise it fails as the login
      did. */
  lemma RedirectReconnects(s: State, name: string, args: seq<Value>, e: Error)
    requires s.client.Some? && s.replies != [] && s.replies[0] == Failed(e)
    requires ErrorCode(e) == Some(HOST_IS_SLAVE)
    requires ParseHost(NewMaster(e)).0 != s.client.value.hostname
    ensures var l := LogIn(MovedToMaster(s, name, args, e).(client := Some(EndpointFor(NewMaster(e)))));
            CallRaw(s, name, args) == if l.0.Done? then CallRaw(l.1, name, args) else l
  {
    var moved := MovedToMaster(s, name, args, e);
    assert CallRaw(s, name, args) == Recover(moved, name, args, e);
    RecoverFromRedirect(moved, name, args, e);
  }

  lemma RecoverFromRedirect(moved: State, name: string, args: seq<Value>, e: Error)
    requires moved.client.Some?
    requires ErrorCode(e) == Some(HOST_IS_SLAVE) && moved.host == NewMaster(e)
    requires ParseHost(NewMaster(e)).0 != moved.client.value.hostname
    ensures var l := LogIn(moved.(client := Some(EndpointFor(moved.host))));
            Recover(moved, name, args, e) == if l.0.Done? then CallRaw(l.1, name, args) else l
  {
  }

  /** A redirect followed by a successful login and a successful call: the new session goes
      to `_sessionId`, and the reissued request carries the very same arguments, hence the
      old session id. */
  lemma RedirectReissuesSameArguments(s: State, name: string, args: seq<Value>, e: Error,
                                      session: Value, v: Value, d1: Error, d2: Error, rest: seq<Reply>)
    requires s.client.Some?
    requires ErrorCode(e) == Some(HOST_IS_SLAVE)
    requires ParseHost(NewMaster(e)).0 != s.client.value.hostname
    requires s.replies == [Failed(e), Returned(Envelope(SUCCESS, session, d1)), Returned(Envelope(SUCCESS, v, d2))] + rest
    ensures var master := EndpointFor(NewMaster(e));
            CallRaw(s, name, args) ==
              (Done(v), s.(host := NewMaster(e), client := Some(master), session := Some(Done(session)),
                           logins := s.logins + 1, backOff := Reset(s.backOff), replies := rest,
                           sent := s.sent + [RequestOf(s, name, args), Request(master, LOGIN_METHOD, [s.username, s.password]),
                                             Request(master, name, args)]))
  {
    var tail := [Returned(Envelope(SUCCESS, v, d2))] + rest;
    ThreeRepliesSplit(s.replies, Failed(e), Returned(Envelope(SUCCESS, session, d1)), Returned(Envelope(SUCCESS, v, d2)), rest);
    RedirectThenLogIn(s, name, args, e, session, d1, tail);
    ReissueSucceeds(s, name, args, e, session, v, d2, rest);
  }

  /** Two scripted replies: the first, and the ones after it. */
  lemma FirstOfTwo(replies: seq<Reply>, a: Reply, b: Reply, rest: seq<Reply>)
    requires replies == [a, b] + rest
    ensures replies != [] && replies[0] == a && replies[1..] == [b] + rest
  {
  }

  /** Three scripted replies, seen as two and the rest. */
  lemma ThreeRepliesSplit(replies: seq<Reply>, a: Reply, b: Reply, c: Reply, rest: seq<Reply>)
    requires replies == [a, b, c] + rest
    ensures replies == [a, b] + ([c] + rest)
  {
  }

  /** The request reissued after the redirect and the login succeeds, ending in the state
      RedirectReissuesSameArguments describes. */
  lemma ReissueSucceeds(s: State, name: string, args: seq<Value>, e: Error, session: Value, v: Value, d: Error,
                        rest: seq<Reply>)
    requires s.client.Some? && s.replies != []
    ensures var master := EndpointFor(NewMaster(e));
            var withClient := MovedToMaster(s, name, args, e).(client := Some(master));
            CallRaw(withClient.(session := Some(Done(session)), logins := withClient.logins + 1,
                                backOff := Reset(withClient.backOff), replies := [Returned(Envelope(SUCCESS, v, d))] + rest,
                                sent := withClient.sent + [Request(master, LOGIN_METHOD, [s.username, s.password])]),
                    name, args) ==
              (Done(v), s.(host := NewMaster(e), client := Some(master), session := Some(Done(session)),
                           logins := s.logins + 1, backOff := Reset(s.backOff), replies := rest,
                           sent := s.sent + [RequestOf(s, name, args), Request(master, LOGIN_METHOD, [s.username, s.password]),
                                             Request(master, name, args)]))
  {
    var master := EndpointFor(NewMaster(e));
    var tail := [Returned(Envelope(SUCCESS, v, d))] + rest;
    assert tail[1..] == rest;
    var withClient := MovedToMaster(s, name, args, e).(client := Some(master));
    var loggedIn := withClient.(session := Some(Done(session)), logins := withClient.logins + 1,
                                backOff := Reset(withClient.backOff), replies := tail,
                                sent := withClient.sent + [Request(master, LOGIN_METHOD, [s.username, s.password])]);
    SuccessResetsBackOff(loggedIn, name, args, v, d);
    RedirectedState(s, name, args, e, session, v, d, rest);
  }

  /** A redirect whose login at the master is accepted reissues the call from the logged-in
      state. */
  lemma RedirectThenLogIn(s: State, name: string, args: seq<Value>, e: Error, session: Value, d: Error,
                          tail: seq<Reply>)
    requires s.client.Some?
    requires ErrorCode(e) == Some(HOST_IS_SLAVE)
    requires ParseHost(NewMaster(e)).0 != s.client.value.hostname
    requires s.replies == [Failed(e), Returned(Envelope(SUCCESS, session, d))] + tail
    ensures var master := EndpointFor(NewMaster(e));
            var withClient := MovedToMaster(s, name, args, e).(client := Some(master));
            CallRaw(s, name, args) ==
              CallRaw(withClient.(session := Some(Done(session)), logins := withClient.logins + 1,
                                  backOff := Reset(withClient.backOff), replies := tail,
                                  sent := withClient.sent + [Request(master, LOGIN_METHOD, [s.username, s.password])]),
                      name, args)
  {
    FirstOfTwo(s.replies, Failed(e), Returned(Envelope(SUCCESS, session, d)), tail);
    var withClient := MovedToMaster(s, name, args, e).(client := Some(EndpointFor(NewMaster(e))));
    LogInAccepted(withClient, session, d);
    RedirectLoginDone(s, name, args, e, session,
                      withClient.(session := Some(Done(session)), logins := withClient.logins + 1,
                                  backOff := Reset(withClient.backOff), replies := tail,
                                  sent := withClient.sent + [Request(EndpointFor(NewMaster(e)), LOGIN_METHOD, [s.username, s.password])]));
  }

  /** RedirectReconnects when the login at the master succeeds and leaves state `y`. */
  lemma RedirectLoginDone(s: State, name: string, args: seq<Value>, e: Error, session: Value, y: State)
    requires s.client.Some? && s.replies != [] && s.replies[0] == Failed(e)
    requires ErrorCode(e) == Some(HOST_IS_SLAVE)
    requires ParseHost(NewMaster(e)).0 != s.client.value.hostname
    requires LogIn(MovedToMaster(s, name, args, e).(client := Some(EndpointFor(NewMaster(e))))) == (Done(session), y)
    ensures CallRaw(s, name, args) == CallRaw(y, name, args)
  {
    RedirectReconnects(s, name, args, e);
  }

  /** The state reached by RedirectReissuesSameArguments, step by step. */
  lemma RedirectedState(s: State, name: string, args: seq<Value>, e: Error, session: Value, v: Value, d: Error, rest: seq<Reply>)
    requires s.client.Some? && s.replies != []
    ensures var master := EndpointFor(NewMaster(e));
            var login := Request(master, LOGIN_METHOD, [s.username, s.password]);
            var withClient := MovedToMaster(s, name, args, e).(client := Some(master));
            var loggedIn := withClient.(session := Some(Done(session)), logins := withClient.logins + 1,
                                        backOff := Reset(withClient.backOff), replies := [Returned(Envelope(SUCCESS, v, d))] + rest,
                                        sent := withClient.sent + [login]);
            loggedIn.(backOff := Reset(loggedIn.backOff), replies := rest,
                      sent := loggedIn.sent + [RequestOf(loggedIn, name, args)])
            == s.(host := NewMaster(e), client := Some(master), session := Some(Done(session)),
                  logins := s.logins + 1, backOff := Reset(s.backOff), replies := rest,
                  sent := s.sent + [RequestOf(s, name, args), login, Request(master, name, args)])
  {
    var master := EndpointFor(NewMaster(e));
    var login := Request(master, LOGIN_METHOD, [s.username, s.password]);
    ResetTwice(s.backOff);
    SentInTurn(s.sent, RequestOf(s, name, args), login, Request(master, name, args));
  }

  lemma ResetTwice(b: BackOffState)
    ensures Reset(Reset(b)) == Reset(b)
  {
  }

  /** Three requests logged one after the other. */
  lemma SentInTurn(sent: seq<Request>, a: Request, b: Request, c: Request)
    ensures sent + [a] + [b] + [c] == sent + [a, b, c]
  {
  }

  /** When the master named by `HOST_IS_SLAVE` has the hostname already in use, `connect()`
      returns `undefined` and the call fails with a TypeError after the one request. */
  lemma RedirectToSameHostnameFails(s: State, name: string, args: seq<Value>, e: Error)
    requires s.client.Some? && s.replies != [] && s.replies[0] == Failed(e)
    requires ErrorCode(e) == Some(HOST_IS_SLAVE)
    requires ParseHost(NewMaster(e)).0 == s.client.value.hostname
    ensures CallRaw(s, name, args) ==
              (Thrown(TypeError("connect")),
               s.(host := NewMaster(e), replies := s.replies[1..], sent := s.sent + [RequestOf(s, name, args)]))
  {
    var answered := s.(replies := s.replies[1..], sent := s.sent + [RequestOf(s, name, args)]);
    assert CallRaw(s, name, args) == Recover(answered, name, args, e);
    assert Classify(e) == Redirect(NewMaster(e));
    assert Connect(answered.(host := NewMaster(e)), false) == (None, answered.(host := NewMaster(e)));
  }

  /** A login redirected to the master logs in twice there: the nested login started by
      `connect` settles `_sessionId`, and the replayed login's session is only returned. */
  lemma RedirectedLoginKeepsNestedSession(s: State, e: Error, first: Value, second: Value,
                                          d1: Error, d2: Error, rest: seq<Reply>)
    requires s.client.Some?
    requires ErrorCode(e) == Some(HOST_IS_SLAVE)
    requires ParseHost(NewMaster(e)).0 != s.client.value.hostname
    requires s.replies == [Failed(e), Returned(Envelope(SUCCESS, first, d1)), Returned(Envelope(SUCCESS, second, d2))] + rest
    ensures LogIn(s).0 == Done(second)
    ensures LogIn(s).1.session == Some(Done(first))
    ensures LogIn(s).1.logins == s.logins + 2
  {
    var started := s.(logins := s.logins + 1);
    RedirectReissuesSameArguments(started, LOGIN_METHOD, [s.username, s.password], e, first, second, d1, d2, rest);
    LogInStoresOnlyLatest(s);
  }

  /** `_logIn` stores its own outcome in `_sessionId` exactly when no other login started
      while it ran. */
  lemma LogInStoresOnlyLatest(s: State)
    ensures var c := CallRaw(s.(logins := s.logins + 1), LOGIN_METHOD, [s.username, s.password]);
            LogIn(s) == (c.0, if c.1.logins == s.logins + 1 then c.1.(session := Some(c.0)) else c.1)
  {
  }

  // ---------------------------------------------------------------- connect and login

  /** Unforced, `connect` does nothing while the client already points at the host's
      hostname. */
  lemma ConnectKeepsCurrentClient(s: State)
    requires s.client.Some? && ParseHost(s.host).0 == s.client.value.hostname
    ensures Connect(s, false) == (None, s)
  {
  }

  /** A fresh client logs in at once: a login refused twice and accepted the third time
      stores the session after three identical login requests to port 443 of the host. The
      two refusals went through two backoffs, which armed the timers of backoffs 0 and 1 (only
      the first under a limit of 1, where the second gives up) and created one deferred; the
      success leaves the backoff at number 0. */
  lemma LoginRetriedUnderBackoff(host: string, username: Value, password: Value, failAfter: nat,
                                 refused: Error, session: Value, d: Error, rest: seq<Reply>)
    requires failAfter > 0
    requires ':' !in host
    requires ErrorCode(refused) == Some("ECONNREFUSED")
    ensures var s := Create(host, username, password, failAfter, [Failed(refused), Failed(refused), Returned(Envelope(SUCCESS, session, d))] + rest);
            var login := Request(Endpoint(host, DEFAULT_PORT, false), LOGIN_METHOD, [username, password]);
            && s.session == Some(Done(session))
            && s.sent == [login, login, login]
            && s.backOff.number == 0
            && s.backOff.armed == (if failAfter >= 2 then [Delay(0), Delay(1)] else [Delay(0)])
            && s.backOff.created == 1
            && s.replies == rest
  {
    var replies := [Failed(refused), Failed(refused), Returned(Envelope(SUCCESS, session, d))] + rest;
    var init := Initial(host, username, password, failAfter, replies);
    var endpoint := EndpointFor(host);
    assert endpoint == Endpoint(host, DEFAULT_PORT, false);
    var login := Request(endpoint, LOGIN_METHOD, [username, password]);
    ConnectBuildsClient(init, false);
    var withClient := init.(client := Some(endpoint));
    var started := withClient.(logins := 1);
    assert Classify(refused) == Retry;
    assert Failures([refused, refused]) == [Failed(refused), Failed(refused)];
    RetriesUntilSuccess(started, LOGIN_METHOD, [username, password], [refused, refused], session, d, rest);
    assert Repeat(login, 3) == [login, login, login];
    TwoBackoffsFromStart(failAfter, refused);
    LogInStoresOnlyLatest(withClient);
  }

  /** Two backoffs of a fresh backoff object arm the timers of backoffs 0 and 1 (under a
      limit of 1 the second gives up and arms nothing) and create one deferred. */
  lemma TwoBackoffsFromStart(failAfter: nat, e: Error)
    requires failAfter > 0
    ensures Reset(Backoffs(Start(failAfter), [e, e])).armed == (if failAfter >= 2 then [Delay(0), Delay(1)] else [Delay(0)])
    ensures Reset(Backoffs(Start(failAfter), [e, e])).created == 1
  {
    var b0 := Start(failAfter);
    var b1 := Backoff(b0, e).0;
    var b2 := Backoff(b1, e).0;
    assert [e, e][1..] == [e];
    assert Backoffs(b0, [e, e]) == Backoffs(b1, [e]) == b2;
  }

  /** Forced, or pointed at another hostname, `connect` builds the client for the host
      (port 443 unless the host names one, certificates unchecked) and returns the outcome
      of the login it starts. */
  lemma ConnectBuildsClient(s: State, force: bool)
    requires force || s.client.None? || ParseHost(s.host).0 != s.client.value.hostname
    ensures var l := LogIn(s.(client := Some(EndpointFor(s.host))));
            Connect(s, force) == (Some(l.0), l.1)
  {
  }

  /** Forced, or pointed at another hostname, `connect` with a login the server accepts
      targets the host's endpoint, sends the one login request there with the credentials,
      stores the new session and returns it. */
  lemma ConnectLogsIn(s: State, force: bool, session: Value, d: Error)
    requires force || s.client.None? || ParseHost(s.host).0 != s.client.value.hostname
    requires s.replies != [] && s.replies[0] == Returned(Envelope(SUCCESS, session, d))
    ensures Connect(s, force) ==
              (Some(Done(session)),
               s.(client := Some(EndpointFor(s.host)), session := Some(Done(session)), logins := s.logins + 1,
                  backOff := Reset(s.backOff), replies := s.replies[1..],
                  sent := s.sent + [Request(EndpointFor(s.host), LOGIN_METHOD, [s.username, s.password])]))
  {
    ConnectBuildsClient(s, force);
    LogInAccepted(s.(client := Some(EndpointFor(s.host))), session, d);
  }

  // ---------------------------------------------------------------- call and session renewal

  /** While `_sessionId` holds a failed login, every call fails with that login's error
      without contacting the server: nothing logs in again. */
  lemma FailedLoginIsSticky(s: State, name: string, args: seq<Value>, e: Error)
    requires s.session == Some(Thrown(e))
    ensures Call(s, name, args) == (Thrown(e), s)
  {
  }

  /** `call` puts the session id in front of the arguments, and unless the server answers
      `SESSION_INVALID` it ends as that `_call` does. */
  lemma CallPrependsSession(s: State, name: string, args: seq<Value>, session: Value)
    requires s.session == Some(Done(session))
    requires var c := CallRaw(s, name, [session] + args); !(c.0.Thrown? && IsSessionInvalid(c.0.error))
    ensures Call(s, name, args) == CallRaw(s, name, [session] + args)
  {
  }

  /** On `SESSION_INVALID`, `call` logs in again; once that login has succeeded it starts
      over, reading the new session, and a failed login ends the call with its error. */
  lemma SessionInvalidLogsInAgain(s: State, name: string, args: seq<Value>, session: Value)
    requires s.session == Some(Done(session))
    requires var c := CallRaw(s, name, [session] + args); c.0.Thrown? && IsSessionInvalid(c.0.error)
    ensures var l := LogIn(CallRaw(s, name, [session] + args).1);
            Call(s, name, args) == if l.0.Done? then Call(l.1, name, args) else l
  {
  }

  /** A login the server accepts: `_sessionId` gets the new session and the backoff object
      is reset. */
  lemma LogInAccepted(s: State, session: Value, d: Error)
    requires s.client.Some? && s.replies != [] && s.replies[0] == Returned(Envelope(SUCCESS, session, d))
    ensures LogIn(s) ==
              (Done(session), s.(session := Some(Done(session)), logins := s.logins + 1,
                                 backOff := Reset(s.backOff), replies := s.replies[1..],
                                 sent := s.sent + [Request(s.client.value, LOGIN_METHOD, [s.username, s.password])]))
  {
    SuccessResetsBackOff(s.(logins := s.logins + 1), LOGIN_METHOD, [s.username, s.password], session, d);
    LogInStoresOnlyLatest(s);
  }

  /** A login the server refuses with an error that is not retried: `_sessionId` keeps that
      failure. */
  lemma LogInRefused(s: State, x: Error)
    requires s.client.Some? && s.replies != [] && s.replies[0] == Failed(x) && Classify(x) == Propagate
    ensures LogIn(s) ==
              (Thrown(x), s.(session := Some(Thrown(x)), logins := s.logins + 1, replies := s.replies[1..],
                             sent := s.sent + [Request(s.client.value, LOGIN_METHOD, [s.username, s.password])]))
  {
    OtherErrorsPropagateAtOnce(s.(logins := s.logins + 1), LOGIN_METHOD, [s.username, s.password], x);
    LogInStoresOnlyLatest(s);
  }

  /** A call the server answers with `SESSION_INVALID` goes on with a new login, after
      the one request carrying the old session. */
  lemma SessionRejected(s: State, name: string, args: seq<Value>, current: Value, invalid: Error)
    requires s.client.Some? && s.session == Some(Done(current))
    requires s.replies != [] && s.replies[0] == Failed(invalid)
    requires IsSessionInvalid(invalid) && Classify(invalid) == Propagate
    ensures var l := LogIn(s.(replies := s.replies[1..], sent := s.sent + [Request(s.client.value, name, [current] + args)]));
            Call(s, name, args) == if l.0.Done? then Call(l.1, name, args) else l
  {
    OtherErrorsPropagateAtOnce(s, name, [current] + args, invalid);
    SessionInvalidLogsInAgain(s, name, args, current);
  }

  /** A server that answers `SESSION_INVALID` and then accepts a new login, once per
      session in `sessions`. */
  function Rounds(invalid: Error, sessions: seq<Value>, d: Error): (r: seq<Reply>)
    ensures |r| == 2 * |sessions|
    decreases |sessions|
  {
    if sessions == [] then []
    else [Failed(invalid), Returned(Envelope(SUCCESS, sessions[0], d))] + Rounds(invalid, sessions[1..], d)
  }

  /** The requests of those rounds: each call carries the session of the login before it. */
  function Replays(to: Endpoint, name: string, args: seq<Value>, login: Request,
                   current: Value, sessions: seq<Value>): seq<Request>
    decreases |sessions|
  {
    [Request(to, name, [current] + args)]
      + (if sessions == [] then [] else [login] + Replays(to, name, args, login, sessions[0], sessions[1..]))
  }

  function Last(current: Value, sessions: seq<Value>): Value {
    if sessions == [] then current else sessions[|sessions| - 1]
  }

  /** A call the server accepts returns its value, after the one request carrying the
      session. */
  lemma SessionAccepted(s: State, name: string, args: seq<Value>, current: Value, v: Value, d: Error)
    requires s.client.Some? && s.session == Some(Done(current))
    requires s.replies != [] && s.replies[0] == Returned(Envelope(SUCCESS, v, d))
    ensures Call(s, name, args) ==
              (Done(v), s.(backOff := Reset(s.backOff), replies := s.replies[1..],
                           sent := s.sent + [Request(s.client.value, name, [current] + args)]))
  {
    SuccessResetsBackOff(s, name, [current] + args, v, d);
    CallPrependsSession(s, name, args, current);
  }

  /** One round: `SESSION_INVALID`, then an accepted login; the call starts over from there. */
  lemma RenewalRound(s: State, name: string, args: seq<Value>, current: Value, invalid: Error,
                     session: Value, d: Error, tail: seq<Reply>)
    requires s.client.Some? && s.session == Some(Done(current))
    requires IsSessionInvalid(invalid) && Classify(invalid) == Propagate
    requires s.replies == [Failed(invalid), Returned(Envelope(SUCCESS, session, d))] + tail
    ensures Call(s, name, args) ==
              Call(s.(session := Some(Done(session)), logins := s.logins + 1, backOff := Reset(s.backOff),
                      replies := tail,
                      sent := s.sent + [Request(s.client.value, name, [current] + args),
                                        Request(s.client.value, LOGIN_METHOD, [s.username, s.password])]),
                   name, args)
  {
    SessionRejected(s, name, args, current, invalid);
    var s1 := s.(replies := s.replies[1..], sent := s.sent + [Request(s.client.value, name, [current] + args)]);
    assert s1.replies[1..] == tail;
    LogInAccepted(s1, session, d);
    var s2 := s.(session := Some(Done(session)), logins := s.logins + 1, backOff := Reset(s.backOff),
                 replies := tail,
                 sent := s.sent + [Request(s.client.value, name, [current] + args),
                                   Request(s.client.value, LOGIN_METHOD, [s.username, s.password])]);
    assert s1.sent + [Request(s.client.value, LOGIN_METHOD, [s.username, s.password])] == s2.sent;
    assert LogIn(s1) == (Done(session), s2);
  }

  /** N answers `SESSION_INVALID`, each followed by an accepted login, then a success: the
      call returns that success after exactly N logins, each replay carrying the session of
      the login just made, and `_sessionId` ends with the last of them. */
  lemma {:induction false} RepeatedSessionInvalid(s: State, name: string, args: seq<Value>, current: Value,
                                                  invalid: Error, sessions: seq<Value>,
                                                  v: Value, d: Error, rest: seq<Reply>)
    requires s.client.Some? && s.session == Some(Done(current))
    requires IsSessionInvalid(invalid) && Classify(invalid) == Propagate
    requires s.replies == Rounds(invalid, sessions, d) + [Returned(Envelope(SUCCESS, v, d))] + rest
    ensures Call(s, name, args) ==
              (Done(v), s.(session := Some(Done(Last(current, sessions))), logins := s.logins + |sessions|,
                           backOff := Reset(s.backOff), replies := rest,
                           sent := s.sent + Replays(s.client.value, name, args,
                                                    Request(s.client.value, LOGIN_METHOD, [s.username, s.password]),
                                                    current, sessions)))
    decreases |sessions|
  {
    var to := s.client.value;
    var login := Request(to, LOGIN_METHOD, [s.username, s.password]);
    var first := Request(to, name, [current] + args);
    if sessions == [] {
      NoRoundsLeft(s, name, args, current, sessions, v, d, rest);
    } else {
      var tail := Rounds(invalid, sessions[1..], d) + [Returned(Envelope(SUCCESS, v, d))] + rest;
      RoundsSplit(invalid, sessions, d, Returned(Envelope(SUCCESS, v, d)), rest);
      var s2 := s.(session := Some(Done(sessions[0])), logins := s.logins + 1, backOff := Reset(s.backOff),
                   replies := tail, sent := s.sent + [first, login]);
      RepeatedSessionInvalid(s2, name, args, sessions[0], invalid, sessions[1..], v, d, rest);
      RoundsCompose(s, name, args, current, sessions, tail, rest);
      RoundThen(s, name, args, current, invalid, sessions[0], d, tail,
                (Done(v), s.(session := Some(Done(Last(current, sessions))), logins := s.logins + |sessions|,
                             backOff := Reset(s.backOff), replies := rest,
                             sent := s.sent + Replays(to, name, args, login, current, sessions))));
    }
  }

  /** RepeatedSessionInvalid without any round: the call succeeds at once. */
  lemma NoRoundsLeft(s: State, name: string, args: seq<Value>, current: Value, sessions: seq<Value>,
                     v: Value, d: Error, rest: seq<Reply>)
    requires s.client.Some? && s.session == Some(Done(current)) && sessions == []
    requires s.replies == [Returned(Envelope(SUCCESS, v, d))] + rest
    ensures Call(s, name, args) ==
              (Done(v), s.(session := Some(Done(Last(current, sessions))), logins := s.logins + |sessions|,
                           backOff := Reset(s.backOff), replies := rest,
                           sent := s.sent + Replays(s.client.value, name, args,
                                                    Request(s.client.value, LOGIN_METHOD, [s.username, s.password]),
                                                    current, sessions)))
  {
    SessionAccepted(s, name, args, current, v, d);
    NoRoundsState(s, name, args, current, sessions, rest);
  }

  /** The state NoRoundsLeft describes is the one SessionAccepted gives. */
  lemma NoRoundsState(s: State, name: string, args: seq<Value>, current: Value, sessions: seq<Value>, rest: seq<Reply>)
    requires s.client.Some? && s.session == Some(Done(current))
    requires sessions == [] && s.replies != [] && s.replies[1..] == rest
    ensures s.(backOff := Reset(s.backOff), replies := s.replies[1..],
               sent := s.sent + [Request(s.client.value, name, [current] + args)])
            == s.(session := Some(Done(Last(current, sessions))), logins := s.logins + |sessions|,
                  backOff := Reset(s.backOff), replies := rest,
                  sent := s.sent + Replays(s.client.value, name, args,
                                           Request(s.client.value, LOGIN_METHOD, [s.username, s.password]),
                                           current, sessions))
  {
    var login := Request(s.client.value, LOGIN_METHOD, [s.username, s.password]);
    assert Replays(s.client.value, name, args, login, current, sessions) == [Request(s.client.value, name, [current] + args)];
  }

  /** The replies of one more round, split off the front. */
  lemma RoundsSplit(invalid: Error, sessions: seq<Value>, d: Error, last: Reply, rest: seq<Reply>)
    requires sessions != []
    ensures Rounds(invalid, sessions, d) + [last] + rest
            == [Failed(invalid), Returned(Envelope(SUCCESS, sessions[0], d))] + (Rounds(invalid, sessions[1..], d) + [last] + rest)
  {
  }

  /** RenewalRound, followed by a call from the renewed state that ends in `y`. */
  lemma RoundThen(s: State, name: string, args: seq<Value>, current: Value, invalid: Error,
                  session: Value, d: Error, tail: seq<Reply>, y: (Outcome, State))
    requires s.client.Some? && s.session == Some(Done(current))
    requires IsSessionInvalid(invalid) && Classify(invalid) == Propagate
    requires s.replies == [Failed(invalid), Returned(Envelope(SUCCESS, session, d))] + tail
    requires Call(s.(session := Some(Done(session)), logins := s.logins + 1, backOff := Reset(s.backOff),
                     replies := tail,
                     sent := s.sent + [Request(s.client.value, name, [current] + args),
                                       Request(s.client.value, LOGIN_METHOD, [s.username, s.password])]),
                  name, args) == y
    ensures Call(s, name, args) == y
  {
    RenewalRound(s, name, args, current, invalid, session, d, tail);
  }

  /** The state RepeatedSessionInvalid describes, reached from the state after one round. */
  lemma RoundsCompose(s: State, name: string, args: seq<Value>, current: Value, sessions: seq<Value>,
                      tail: seq<Reply>, rest: seq<Reply>)
    requires s.client.Some? && sessions != []
    ensures var to := s.client.value;
            var login := Request(to, LOGIN_METHOD, [s.username, s.password]);
            var s2 := s.(session := Some(Done(sessions[0])), logins := s.logins + 1, backOff := Reset(s.backOff),
                         replies := tail, sent := s.sent + [Request(to, name, [current] + args), login]);
            s2.(session := Some(Done(Last(sessions[0], sessions[1..]))), logins := s2.logins + |sessions[1..]|,
                backOff := Reset(s2.backOff), replies := rest,
                sent := s2.sent + Replays(to, name, args, login, sessions[0], sessions[1..]))
            == s.(session := Some(Done(Last(current, sessions))), logins := s.logins + |sessions|,
                  backOff := Reset(s.backOff), replies := rest,
                  sent := s.sent + Replays(to, name, args, login, current, sessions))
  {
    var to := s.client.value;
    var login := Request(to, LOGIN_METHOD, [s.username, s.password]);
    assert Last(sessions[0], sessions[1..]) == Last(current, sessions);
    ResetTwice(s.backOff);
    assert s.sent + [Request(to, name, [current] + args), login] + Replays(to, name, args, login, sessions[0], sessions[1..])
           == s.sent + Replays(to, name, args, login, current, sessions);
  }

  /** A login that fails after `SESSION_INVALID` ends the call with the login's error, and
      leaves that failure in `_sessionId`. */
  lemma FailedRenewalPropagates(s: State, name: string, args: seq<Value>, current: Value,
                                invalid: Error, x: Error, rest: seq<Reply>)
    requires s.client.Some? && s.session == Some(Done(current))
    requires IsSessionInvalid(invalid) && Classify(invalid) == Propagate && Classify(x) == Propagate
    requires s.replies == [Failed(invalid), Failed(x)] + rest
    ensures Call(s, name, args) ==
              (Thrown(x), s.(session := Some(Thrown(x)), logins := s.logins + 1, replies := rest,
                             sent := s.sent + [Request(s.client.value, name, [current] + args),
                                               Request(s.client.value, LOGIN_METHOD, [s.username, s.password])]))
  {
    FirstOfTwo(s.replies, Failed(invalid), Failed(x), rest);
    RenewalLogInRefused(s, name, args, current, x, s.replies[1..], rest);
    RenewalRefused(s, name, args, current, invalid, x,
                   s.(session := Some(Thrown(x)), logins := s.logins + 1, replies := rest,
                      sent := s.sent + [Request(s.client.value, name, [current] + args),
                                        Request(s.client.value, LOGIN_METHOD, [s.username, s.password])]));
  }

  /** SessionRejected when the new login fails with `x` and leaves state `y`. */
  lemma RenewalRefused(s: State, name: string, args: seq<Value>, current: Value, invalid: Error, x: Error, y: State)
    requires s.client.Some? && s.session == Some(Done(current))
    requires s.replies != [] && s.replies[0] == Failed(invalid)
    requires IsSessionInvalid(invalid) && Classify(invalid) == Propagate
    requires LogIn(s.(replies := s.replies[1..], sent := s.sent + [Request(s.client.value, name, [current] + args)])) == (Thrown(x), y)
    ensures Call(s, name, args) == (Thrown(x), y)
  {
    SessionRejected(s, name, args, current, invalid);
  }

  /** The renewing login of SessionRejected, refused with `x`, leaves the state FailedRenewalPropagates describes. */
  lemma RenewalLogInRefused(s: State, name: string, args: seq<Value>, current: Value, x: Error,
                            tail: seq<Reply>, rest: seq<Reply>)
    requires s.client.Some? && tail == [Failed(x)] + rest && Classify(x) == Propagate
    ensures LogIn(s.(replies := tail, sent := s.sent + [Request(s.client.value, name, [current] + args)]))
            == (Thrown(x), s.(session := Some(Thrown(x)), logins := s.logins + 1, replies := rest,
                              sent := s.sent + [Request(s.client.value, name, [current] + args),
                                                Request(s.client.value, LOGIN_METHOD, [s.username, s.password])]))
  {
    LogInRefused(s.(replies := tail, sent := s.sent + [Request(s.client.value, name, [current] + args)]), x);
    RefusedRenewalState(s, name, args, current, x, tail, rest);
  }

  /** The state FailedRenewalPropagates describes, reached through the refused login. */
  lemma RefusedRenewalState(s: State, name: string, args: seq<Value>, current: Value, x: Error,
                            tail: seq<Reply>, rest: seq<Reply>)
    requires s.client.Some? && tail == [Failed(x)] + rest
    ensures var s1 := s.(replies := tail, sent := s.sent + [Request(s.client.value, name, [current] + args)]);
            s1.(session := Some(Thrown(x)), logins := s1.logins + 1, replies := s1.replies[1..],
                sent := s1.sent + [Request(s1.client.value, LOGIN_METHOD, [s1.username, s1.password])])
            == s.(session := Some(Thrown(x)), logins := s.logins + 1, replies := rest,
                  sent := s.sent + [Request(s.client.value, name, [current] + args),
                                    Request(s.client.value, LOGIN_METHOD, [s.username, s.password])])
  {
    assert tail[1..] == rest;
    SentBoth(s.sent, Request(s.client.value, name, [current] + args),
             Request(s.client.value, LOGIN_METHOD, [s.username, s.password]));
  }

  /** Two requests logged one after the other. */
  lemma SentBoth(sent: seq<Request>, a: Request, b: Request)
    ensures sent + [a] + [b] == sent + [a, b]
  {
  }
}
