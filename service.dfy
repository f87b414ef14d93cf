/**
 * The four routes of the service as one request type, and what a sequence
 * of requests does to the store. The facts proved here hold for every
 * history of requests, whatever the key generator, the renderer and the
 * TOTP validator answer at each request.
 */
module Service {
  import opened Options
  import opened QrAddress
  import opened Store

  /**
   * An already-parsed request to one of the four routes, with what its
   * collaborators answered. A verification request carries the TOTP
   * validator as it stands at that request's time, since its verdict
   * depends on the clock.
   */
  datatype Request =
    | SignUpRequest(newUser: User)
    | LoginRequest(username: string, password: string)
    | Enable2FARequest(username: string, generated: Generated, rendered: bool, origin: Origin)
    | VerifyRequest(username: string, code: string, validate: (string, string) -> bool)

  /** Dispatches a request to its handler. Login and verification never change the store. */
  function Handle(users: Users, req: Request): (r: Reply)
    ensures req.LoginRequest? || req.VerifyRequest? ==> r.users == users && r.url == None
    ensures Evolves(users, r.users)
    ensures WellKeyed(users) ==> WellKeyed(r.users)
  {
    match req
    case SignUpRequest(newUser) => SignUpResult(users, newUser)
    case LoginRequest(username, password) => Reply(Login(users, username, password), users, None)
    case Enable2FARequest(username, generated, rendered, origin) =>
      Enable2FAResult(users, username, generated, rendered, origin)
    case VerifyRequest(username, code, validate) => Reply(Verify2FA(users, username, code, validate), users, None)
  }

  /** The store after serving the requests in order. */
  function Run(users: Users, reqs: seq<Request>): Users
    decreases |reqs|
  {
    if |reqs| == 0 then users else Run(Handle(users, reqs[0]).users, reqs[1..])
  }

  lemma EvolvesTransitive(a: Users, b: Users, c: Users)
    requires Evolves(a, b) && Evolves(b, c)
    ensures Evolves(a, c)
  {
  }

  /**
   * Over any history, no record is deleted and no record's username or
   * password changes.
   */
  lemma {:induction false} RunEvolves(users: Users, reqs: seq<Request>)
    ensures Evolves(users, Run(users, reqs))
    decreases |reqs|
  {
    if |reqs| > 0 {
      var next := Handle(users, reqs[0]).users;
      RunEvolves(next, reqs[1..]);
      EvolvesTransitive(users, next, Run(next, reqs[1..]));
    }
  }

  /** Over any history, every record stays stored under its own username. */
  lemma {:induction false} RunPreservesWellKeyed(users: Users, reqs: seq<Request>)
    requires WellKeyed(users)
    ensures WellKeyed(Run(users, reqs))
    decreases |reqs|
  {
    if |reqs| > 0 {
      RunPreservesWellKeyed(Handle(users, reqs[0]).users, reqs[1..]);
    }
  }

  /**
   * Sign-up succeeds once per username: after a successful sign-up and any
   * later history, signing up the same name again is a Conflict, and the
   * password registered first is still the stored one.
   */
  lemma SignUpSucceedsOnce(users: Users, first: User, reqs: seq<Request>, second: User)
    requires first.username !in users
    requires second.username == first.username
    ensures SignUpResult(users, first).outcome == Created
    ensures var later := Run(SignUpResult(users, first).users, reqs);
      && SignUpResult(later, second) == Reply(Conflict, later, None)
      && later[first.username].password == first.password
  {
    RunEvolves(SignUpResult(users, first).users, reqs);
  }

  /** An enrollment request for `username` whose QR rendering fails. */
  predicate FailedRender(req: Request, username: string)
  {
    req.Enable2FARequest? && req.username == username && !req.rendered
  }

  /** The record of `username` as a failed render leaves it: no secret, 2FA off. */
  ghost predicate RolledBack(users: Users, username: string)
  {
    username in users && users[username].secret == "" && !users[username].twoFAEnabled
  }

  /**
   * Rollback is idempotent: however many enrollments of one user fail at
   * rendering, once a key has been generated in one of them the record ends
   * with no secret and 2FA off, and no other record is touched.
   */
  lemma {:induction false} RetriedRollback(users: Users, username: string, reqs: seq<Request>)
    requires username in users
    requires forall i :: 0 <= i < |reqs| ==> FailedRender(reqs[i], username)
    requires RolledBack(users, username)
          || exists i :: 0 <= i < |reqs| && reqs[i].Enable2FARequest? && reqs[i].generated.Key?
    ensures RolledBack(Run(users, reqs), username)
    ensures var after := Run(users, reqs);
      after.Keys == users.Keys && forall name :: name in users && name != username ==> after[name] == users[name]
    decreases |reqs|
  {
    if |reqs| > 0 {
      var next := Handle(users, reqs[0]).users;
      assert FailedRender(reqs[0], username);
      if !RolledBack(next, username) {
        var i :| 0 <= i < |reqs| && reqs[i].Enable2FARequest? && reqs[i].generated.Key?;
        assert i != 0;
        assert reqs[1..][i - 1] == reqs[i];
      }
      assert forall i :: 0 <= i < |reqs[1..]| ==> reqs[1..][i] == reqs[i + 1];
      RetriedRollback(next, username, reqs[1..]);
    }
  }
}
