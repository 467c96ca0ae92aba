/** The admin onboarding endpoint (app/api/onboard/route.ts): a request carrying a
    shared secret creates the first admin account. The checks run in a fixed order —
    secret, required fields, existing account — and only a request passing all three
    adds a user. */
module Onboard {
  import opened Basics

  /** A stored account: its email, the password hash and its role. */
  datatype User = User(email: string, passwordHash: string, role: string)

  /** The JSON body's fields; `None` is a field that is absent or null. */
  datatype OnboardBody = OnboardBody(email: Option<string>, password: Option<string>, secret: Option<string>)

  /** The HTTP status and the JSON body's single field. */
  datatype Reply = Message(status: nat, message: string) | Error(status: nat, error: string)

  /** The reply and the accounts afterwards. */
  datatype Outcome = Outcome(reply: Reply, users: seq<User>)

  const DefaultSecret := "super-secret-key-123"

  /** `process.env.ONBOARD_SECRET || "super-secret-key-123"`: an unset or empty variable
      falls back to the built-in default. */
  function ExpectedSecret(env: Option<string>): (s: string)
    ensures s != ""
    ensures env.Some? && env.value != "" ==> s == env.value
    ensures env.None? || env.value == "" ==> s == DefaultSecret
  {
    if env.Some? && env.value != "" then env.value else DefaultSecret
  }

  /** `!email || !password` fails on an absent, null or empty field. */
  predicate Given(field: Option<string>) {
    field.Some? && field.value != ""
  }

  predicate HasAccount(users: seq<User>, email: string) {
    exists k :: 0 <= k < |users| && users[k].email == email
  }

  /** Scans the accounts for that exact email, as `User.findOne({ email })`. */
  function FindUser(users: seq<User>, email: string): (r: bool)
    ensures r <==> HasAccount(users, email)
    decreases |users|
  {
    if |users| == 0 then false
    else if users[|users| - 1].email == email then true
    else
      var found := FindUser(users[..|users| - 1], email);
      assert HasAccount(users, email) ==> found by {
        if HasAccount(users, email) {
          var k :| 0 <= k < |users| && users[k].email == email;
          assert users[..|users| - 1][k].email == email;
        }
      }
      assert found ==> HasAccount(users, email) by {
        if found {
          var k :| 0 <= k < |users| - 1 && users[..|users| - 1][k].email == email;
          assert users[k].email == email;
        }
      }
      found
  }

  /** `POST /api/onboard`. `connected` is whether the database can be reached, `body`
      the parsed JSON (`Unavailable` when it is not JSON), `hash` stands for bcrypt and
      `stored` for whether hashing and the insert succeed. Every thrown failure gives 500. */
  function Post(env: Option<string>, connected: bool, body: Fetch<OnboardBody>, users: seq<User>,
                hash: string -> string, stored: bool): (r: Outcome)
    ensures !connected || body.Unavailable? ==> r == Outcome(Error(500, "Failed to create admin"), users)
    ensures connected && body.Fetched? && body.value.secret != Some(ExpectedSecret(env)) ==>
      r == Outcome(Error(403, "Invalid secret key"), users)
    ensures connected && body.Fetched? && body.value.secret == Some(ExpectedSecret(env)) ==>
      var b := body.value;
      && (!Given(b.email) || !Given(b.password) ==>
            r == Outcome(Error(400, "Email and password are required"), users))
      && (Given(b.email) && Given(b.password) && HasAccount(users, b.email.value) ==>
            r == Outcome(Error(409, "Admin already exists"), users))
      && (Given(b.email) && Given(b.password) && !HasAccount(users, b.email.value) ==>
            r == if stored
                 then Outcome(Message(201, "Admin created successfully!"),
                              users + [User(b.email.value, hash(b.password.value), "admin")])
                 else Outcome(Error(500, "Failed to create admin"), users))
  {
    if !connected || body.Unavailable? then Outcome(Error(500, "Failed to create admin"), users)
    else
      var b := body.value;
      if b.secret != Some(ExpectedSecret(env)) then Outcome(Error(403, "Invalid secret key"), users)
      else if !Given(b.email) || !Given(b.password) then
        Outcome(Error(400, "Email and password are required"), users)
      else if FindUser(users, b.email.value) then Outcome(Error(409, "Admin already exists"), users)
      else if !stored then Outcome(Error(500, "Failed to create admin"), users)
      else
        Outcome(Message(201, "Admin created successfully!"),
                users + [User(b.email.value, hash(b.password.value), "admin")])
  }

  /** The accounts change exactly when the reply is 201, and then by one admin account
      for the request's email whose password is the hash of the request's password. */
  lemma OnlyCreatedAddsUser(env: Option<string>, connected: bool, body: Fetch<OnboardBody>,
                            users: seq<User>, hash: string -> string, stored: bool)
    ensures var r := Post(env, connected, body, users, hash, stored);
      && (r.reply.status == 201 <==> r.users != users)
      && (r.reply.status == 201 ==>
            && body.Fetched? && Given(body.value.email) && Given(body.value.password)
            && !HasAccount(users, body.value.email.value)
            && r.users == users + [User(body.value.email.value, hash(body.value.password.value), "admin")])
      && (r.reply.status != 201 ==> r.reply.Error?)
  {
    var r := Post(env, connected, body, users, hash, stored);
    if r.reply.status == 201 {
      assert |r.users| == |users| + 1;
    }
  }

  /** A wrong secret is refused whatever else the request carries: two requests with
      the same wrong secret get the same reply. */
  lemma SecretCheckedFirst(env: Option<string>, a: OnboardBody, b: OnboardBody, users: seq<User>,
                           hash: string -> string, stored: bool)
    requires a.secret == b.secret && a.secret != Some(ExpectedSecret(env))
    ensures Post(env, true, Fetched(a), users, hash, stored) == Post(env, true, Fetched(b), users, hash, stored)
    ensures Post(env, true, Fetched(a), users, hash, stored).reply.status == 403
  {
  }

  predicate UniqueEmails(users: seq<User>) {
    forall i, j :: 0 <= i < j < |users| ==> users[i].email != users[j].email
  }

  /** Onboarding never creates a second account for an email. */
  lemma OnboardKeepsEmailsUnique(env: Option<string>, connected: bool, body: Fetch<OnboardBody>,
                                 users: seq<User>, hash: string -> string, stored: bool)
    requires UniqueEmails(users)
    ensures UniqueEmails(Post(env, connected, body, users, hash, stored).users)
  {
    var r := Post(env, connected, body, users, hash, stored);
    OnlyCreatedAddsUser(env, connected, body, users, hash, stored);
    if r.users != users {
      var e := body.value.email.value;
      forall i, j | 0 <= i < j < |r.users|
        ensures r.users[i].email != r.users[j].email
      {
        if j == |users| {
          assert r.users[i] == users[i];
          assert r.users[j].email == e;
        }
      }
    }
  }

  /** Replaying a request that created an account is refused with 409 and adds nothing. */
  lemma ReplayIsConflict(env: Option<string>, body: OnboardBody, users: seq<User>,
                         hash: string -> string, stored: bool)
    requires Post(env, true, Fetched(body), users, hash, stored).reply.status == 201
    ensures var after := Post(env, true, Fetched(body), users, hash, stored).users;
      Post(env, true, Fetched(body), after, hash, true) == Outcome(Error(409, "Admin already exists"), after)
  {
    var after := Post(env, true, Fetched(body), users, hash, stored).users;
    OnlyCreatedAddsUser(env, true, Fetched(body), users, hash, stored);
    assert after[|users|].email == body.email.value;
  }
}
