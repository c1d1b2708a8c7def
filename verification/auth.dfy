/** The signup and login route handlers as pure functions over the store. */
module Auth {
  import opened Fields
  import opened UserStore
  import opened Hashing
  import opened Tokens
  import opened Responses

  /** The parsed body of POST /api/auth/signup. */
  datatype SignupRequest = SignupRequest(name: Option<string>, email: Option<string>, password: Option<string>)

  /** The parsed body of POST /api/auth/login. */
  datatype LoginRequest = LoginRequest(email: Option<string>, password: Option<string>)

  /** Which database call, if any, rejects during the request. */
  datatype Fault = NoFault | LookupFails | WriteFails

  /** Signup's validation lets the request through exactly when both email
      and password are truthy; the name is never checked on its own. */
  predicate SignupValid(req: SignupRequest) {
    !Missing(req.email) && !Missing(req.password)
  }

  predicate LoginValid(req: LoginRequest) {
    !Missing(req.email) && !Missing(req.password)
  }

  function Fail(status: int, error: string, s: Store): Outcome {
    Replied(Response(status, ErrorBody(error)), s)
  }

  /** POST /api/auth/signup. The validation block is nested as in the handler:
      when only the name is missing, neither inner test fires and the request
      goes on to the store. The handler has no catch, so a rejected database
      call leaves the request without a reply. */
  function Signup(s: Store, req: SignupRequest, h: Hasher, fault: Fault): (o: Outcome)
    // both credentials missing
    ensures Missing(req.email) && Missing(req.password) ==> o == Fail(400, EmailRequired, s)
    // exactly one credential missing
    ensures Missing(req.email) != Missing(req.password) ==> o == Fail(400, EmailAndPasswordRequired, s)
    // a missing name alone is not rejected by validation
    ensures SignupValid(req) ==> !IsStatus(o, 400) || o.response.body == ErrorBody(EmailInUse)
    ensures SignupValid(req) && fault == LookupFails ==> o == NoReply(s)
    ensures SignupValid(req) && fault != LookupFails && req.email.value in s.users ==> o == Fail(400, EmailInUse, s)
    ensures SignupValid(req) && fault == WriteFails && req.email.value !in s.users ==> o == NoReply(s)
    // success: exactly the fresh-email, no-fault case
    ensures IsStatus(o, 200) <==> SignupValid(req) && fault == NoFault && req.email.value !in s.users
    ensures IsStatus(o, 200) ==>
      && o.response.body == CreatedBody(UserCreated, ReportedUserId)
      && o.store.users == s.users[req.email.value := User(s.nextId, req.name, req.email.value, h.hash(req.password.value))]
      && o.store.nextId == s.nextId + 1
      && |o.store.users| == |s.users| + 1
    // every other outcome leaves the store as it was
    ensures !IsStatus(o, 200) ==> o.store == s
    ensures WellFormed(s) ==> WellFormed(o.store)
  {
    if Missing(req.name) || Missing(req.email) || Missing(req.password) then
      if Missing(req.email) && Missing(req.password) then Fail(400, EmailRequired, s)
      else if Missing(req.email) || Missing(req.password) then Fail(400, EmailAndPasswordRequired, s)
      else Register(s, req.name, Given(req.email), Given(req.password), h, fault)
    else Register(s, req.name, Given(req.email), Given(req.password), h, fault)
  }

  /** The part of signup after validation: lookup, hash, create. */
  function Register(s: Store, name: Option<string>, email: string, password: string, h: Hasher, fault: Fault): (o: Outcome)
    ensures fault == LookupFails ==> o == NoReply(s)
    ensures fault != LookupFails && email in s.users ==> o == Fail(400, EmailInUse, s)
    // a rejected insert escapes the handler: no reply, no row
    ensures fault == WriteFails && email !in s.users ==> o == NoReply(s)
    ensures fault == NoFault && email !in s.users ==>
      && o.Replied?
      && o.response == Response(200, CreatedBody(UserCreated, ReportedUserId))
      && o.store.users == s.users[email := User(s.nextId, name, email, h.hash(password))]
      && o.store.nextId == s.nextId + 1
  {
    if fault == LookupFails then NoReply(s)
    else match FindUnique(s, email)
      case Some(_) => Fail(400, EmailInUse, s)
      case None =>
        var digest := h.hash(password);
        if fault == WriteFails then NoReply(s)
        else match Create(s, name, email, digest)
          case Some(s') => Replied(Response(200, CreatedBody(UserCreated, ReportedUserId)), s')
          case None => NoReply(s)
  }

  /** POST /api/auth/login at wall-clock time `nowMs`. Every rejected call
      inside the try block is caught and answered with 500. */
  function Login(s: Store, req: LoginRequest, h: Hasher, nowMs: nat, fault: Fault): (o: Outcome)
    // login always replies and never writes
    ensures o.Replied? && o.store == s
    ensures !LoginValid(req) ==> o == Fail(400, LoginFieldsRequired, s)
    ensures LoginValid(req) && fault == LookupFails ==> o == Replied(Response(500, MessageBody(InternalError)), s)
    // an unknown email gives 404, never 401
    ensures LoginValid(req) && fault != LookupFails && req.email.value !in s.users ==> o == Fail(404, UserNotFound, s)
    ensures IsStatus(o, 401) <==>
      && LoginValid(req) && fault != LookupFails && req.email.value in s.users
      && !h.compare(req.password.value, s.users[req.email.value].password)
    ensures IsStatus(o, 401) ==> o.response.body == ErrorBody(InvalidCredentials)
    ensures IsStatus(o, 200) <==>
      && LoginValid(req) && fault != LookupFails && req.email.value in s.users
      && h.compare(req.password.value, s.users[req.email.value].password)
    ensures IsStatus(o, 200) ==>
      var u := s.users[req.email.value];
      && o.response.body.LoginBody?
      && o.response.body.userdata == UserData(u.id, u.name, u.email)
      && o.response.body.accesstoken.payload == Claims(u.id, u.email)
      && o.response.body.accesstoken.exp == o.response.body.accesstoken.iat + OneHour
      && o.response.body.accesstoken.iat * 1000 <= nowMs < o.response.body.accesstoken.iat * 1000 + 1000
    // on a well-formed store the user logged in is the one the request named
    ensures WellFormed(s) && IsStatus(o, 200) ==>
      && o.response.body.userdata.email == req.email.value
      && o.response.body.accesstoken.payload.email == req.email.value
  {
    if Missing(req.email) || Missing(req.password) then Fail(400, LoginFieldsRequired, s)
    else if fault == LookupFails then Replied(Response(500, MessageBody(InternalError)), s)
    else match FindUnique(s, Given(req.email))
      case None => Fail(404, UserNotFound, s)
      case Some(u) =>
        if !h.compare(Given(req.password), u.password) then Fail(401, InvalidCredentials, s)
        else
          var token := Sign(Claims(u.id, u.email), nowMs);
          Replied(Response(200, LoginBody(UserData(u.id, u.name, u.email), token)), s)
  }
}
