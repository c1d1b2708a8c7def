/** Properties that relate several requests handled one after another. */
module Sessions {
  import opened Fields
  import opened UserStore
  import opened Hashing
  import opened Tokens
  import opened Responses
  import opened Auth

  /** Validation runs before the store is touched: a signup it rejects gets
      the same reply whatever the store holds and whatever the database would do. */
  lemma SignupValidationIgnoresStore(s1: Store, s2: Store, req: SignupRequest, h: Hasher, f1: Fault, f2: Fault)
    requires !SignupValid(req)
    ensures Signup(s1, req, h, f1).Replied? && Signup(s2, req, h, f2).Replied?
    ensures Signup(s1, req, h, f1).response == Signup(s2, req, h, f2).response
    ensures Signup(s1, req, h, f1).response.status == 400
  {
  }

  /** Likewise for login. */
  lemma LoginValidationIgnoresStore(s1: Store, s2: Store, req: LoginRequest, h: Hasher, t1: nat, t2: nat, f1: Fault, f2: Fault)
    requires !LoginValid(req)
    ensures Login(s1, req, h, t1, f1).response == Login(s2, req, h, t2, f2).response
    ensures Login(s1, req, h, t1, f1).response.status == 400
  {
  }

  /** Once a signup has succeeded, any later valid signup with that email is
      refused as already in use and changes nothing. */
  lemma SignupThenDuplicate(s: Store, req: SignupRequest, again: SignupRequest, h: Hasher, fault: Fault)
    requires IsStatus(Signup(s, req, h, NoFault), 200)
    requires SignupValid(again) && again.email == req.email && fault != LookupFails
    ensures Signup(Signup(s, req, h, NoFault).store, again, h, fault)
         == Fail(400, EmailInUse, Signup(s, req, h, NoFault).store)
  {
  }

  /** A user who has just signed up can log in with the same email and
      password: the reply carries the new row's id, name and email, and a
      token for that id and email. */
  lemma SignupThenLogin(s: Store, req: SignupRequest, h: Hasher, nowMs: nat)
    requires Sound(h)
    requires IsStatus(Signup(s, req, h, NoFault), 200)
    ensures var o := Login(Signup(s, req, h, NoFault).store, LoginRequest(req.email, req.password), h, nowMs, NoFault);
      && IsStatus(o, 200)
      && o.response.body.userdata == UserData(s.nextId, req.name, req.email.value)
      && o.response.body.accesstoken == Sign(Claims(s.nextId, req.email.value), nowMs)
  {
  }

  /** With a hasher that tells passwords apart, logging in to a fresh account
      with any other password is refused with 401. */
  lemma SignupThenWrongPassword(s: Store, req: SignupRequest, h: Hasher, guess: string, nowMs: nat)
    requires Discriminating(h)
    requires IsStatus(Signup(s, req, h, NoFault), 200)
    requires guess != "" && guess != req.password.value
    ensures Login(Signup(s, req, h, NoFault).store, LoginRequest(req.email, Some(guess)), h, nowMs, NoFault)
         == Fail(401, InvalidCredentials, Signup(s, req, h, NoFault).store)
  {
  }

  /** One signup request together with how the database behaves while serving it. */
  datatype Attempt = Attempt(req: SignupRequest, fault: Fault)

  /** The number of outcomes that are successful signups. */
  function Created(os: seq<Outcome>): (n: nat)
    ensures n <= |os|
  {
    if |os| == 0 then 0 else (if IsStatus(os[0], 200) then 1 else 0) + Created(os[1..])
  }

  /** Serves the attempts one after another, each on the store the previous
      one left. Rows are only ever added, and the table grows by exactly one
      row per successful signup. */
  function SignupAll(s: Store, attempts: seq<Attempt>, h: Hasher): (r: (Store, seq<Outcome>))
    ensures |r.1| == |attempts|
    ensures s.users.Keys <= r.0.users.Keys
    ensures forall e :: e in s.users ==> r.0.users[e] == s.users[e]
    ensures |r.0.users| == |s.users| + Created(r.1)
    ensures WellFormed(s) ==> WellFormed(r.0)
    decreases |attempts|
  {
    if |attempts| == 0 then (s, [])
    else
      var o := Signup(s, attempts[0].req, h, attempts[0].fault);
      var rest := SignupAll(o.store, attempts[1..], h);
      assert ([o] + rest.1)[1..] == rest.1;
      (rest.0, [o] + rest.1)
  }

  /** Once a store holds a valid signup's email, replaying that signup any
      number of times, each time with whatever database behaviour, never
      succeeds. */
  lemma {:induction false} RepeatAfterRegistered(s: Store, req: SignupRequest, attempts: seq<Attempt>, h: Hasher)
    requires SignupValid(req) && req.email.value in s.users
    requires forall i :: 0 <= i < |attempts| ==> attempts[i].req == req
    ensures Created(SignupAll(s, attempts, h).1) == 0
    decreases |attempts|
  {
    if |attempts| > 0 {
      var o := Signup(s, req, h, attempts[0].fault);
      RepeatAfterRegistered(o.store, req, attempts[1..], h);
    }
  }

  /** A valid signup for a fresh email whose first attempt meets no database
      fault, replayed afterwards under any database behaviour, succeeds
      exactly once. */
  lemma {:induction false} SignupSucceedsOnce(s: Store, req: SignupRequest, attempts: seq<Attempt>, h: Hasher)
    requires SignupValid(req) && req.email.value !in s.users
    requires |attempts| >= 1 && attempts[0].fault == NoFault
    requires forall i :: 0 <= i < |attempts| ==> attempts[i].req == req
    ensures Created(SignupAll(s, attempts, h).1) == 1
  {
    var o := Signup(s, req, h, NoFault);
    RepeatAfterRegistered(o.store, req, attempts[1..], h);
  }

  /** One client session on an empty table: sign up, sign up again, log in,
      log in with a wrong password, log in with an unknown email, sign up
      with empty credentials. */
  lemma Walkthrough(h: Hasher, nowMs: nat)
    requires Sound(h) && Discriminating(h)
    ensures var req := SignupRequest(Some("A"), Some("a@x.com"), Some("secret123"));
      var first := Signup(Empty, req, h, NoFault);
      && first == Replied(Response(200, CreatedBody(UserCreated, ReportedUserId)), first.store)
      && Signup(first.store, req, h, NoFault) == Fail(400, EmailInUse, first.store)
      && Login(first.store, LoginRequest(Some("a@x.com"), Some("secret123")), h, nowMs, NoFault).response
         == Response(200, LoginBody(UserData(1, Some("A"), "a@x.com"), Sign(Claims(1, "a@x.com"), nowMs)))
      && Login(first.store, LoginRequest(Some("a@x.com"), Some("wrong")), h, nowMs, NoFault).response.status == 401
      && Login(first.store, LoginRequest(Some("missing@x.com"), Some("secret123")), h, nowMs, NoFault).response.status == 404
      && Signup(first.store, SignupRequest(None, Some(""), Some("")), h, NoFault) == Fail(400, EmailRequired, first.store)
  {
  }
}
