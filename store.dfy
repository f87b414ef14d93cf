/**
 * The in-memory credential store and the four handlers that use it. The
 * process-wide map from username to record is the field of one
 * CredentialStore; sign-up and 2FA enrollment change it in place, login and
 * 2FA verification are functions of it. Each handler is specified by a pure
 * function of the old map and the already-parsed request, giving the
 * response outcome and the new map.
 */
module Store {
  import opened Options
  import opened QrAddress

  /** A registered account, stored by value. */
  datatype User = User(username: string, password: string, secret: string, twoFAEnabled: bool)

  /** The store's contents: username to record. */
  type Users = map<string, User>

  /** The response category a handler answers with (its HTTP status). */
  datatype Outcome = Created | Conflict | Ok | Unauthorized | NotFound | InternalError

  /** What the TOTP key generator gives: a fresh shared secret, or an error. */
  datatype Generated = Key(secret: string) | GenerateFailed

  /** A handler's effect: its outcome, the store afterwards, and the QR URL if one is reported. */
  datatype Reply = Reply(outcome: Outcome, users: Users, url: Option<string>)

  /** Every record is stored under its own username. */
  ghost predicate WellKeyed(users: Users)
  {
    forall name :: name in users ==> users[name].username == name
  }

  /**
   * Records only evolve: no key disappears, and a record keeps its username
   * and password.
   */
  ghost predicate Evolves(before: Users, after: Users)
  {
    && before.Keys <= after.Keys
    && forall name :: name in before ==>
         after[name].username == before[name].username && after[name].password == before[name].password
  }

  /** `signUp`: insert the submitted record unless its username is taken. */
  function SignUpResult(users: Users, newUser: User): (r: Reply)
    ensures r.outcome == Conflict <==> newUser.username in users
    ensures r.outcome == Conflict ==> r.users == users
    ensures r.outcome != Conflict ==>
      && r.outcome == Created
      && r.users.Keys == users.Keys + {newUser.username}
      && r.users[newUser.username] == newUser
      && forall name :: name in users ==> r.users[name] == users[name]
    ensures r.url == None
  {
    if newUser.username in users then Reply(Conflict, users, None)
    else Reply(Created, users[newUser.username := newUser], None)
  }

  /**
   * `login`: Ok exactly when the user exists and the stored password is the
   * submitted one; an unknown user and a wrong password are one outcome.
   */
  function Login(users: Users, username: string, password: string): (r: Outcome)
    ensures r == Ok <==> username in users && users[username].password == password
    ensures r != Ok ==> r == Unauthorized
  {
    if username !in users || users[username].password != password then Unauthorized else Ok
  }

  /**
   * `verify2FA`: NotFound for an unknown user; otherwise the TOTP validator
   * `validate(code, secret)` decides between Ok and Unauthorized. The stored
   * enablement flag is not consulted.
   */
  function Verify2FA(users: Users, username: string, code: string, validate: (string, string) -> bool): (r: Outcome)
    ensures r == NotFound <==> username !in users
    ensures username in users ==> (r == Ok <==> validate(code, users[username].secret))
    ensures username in users ==> (r == Unauthorized <==> !validate(code, users[username].secret))
  {
    if username !in users then NotFound
    else if !validate(code, users[username].secret) then Unauthorized
    else Ok
  }

  /**
   * `enable2FA`: look the user up, generate a key, render the QR image.
   * A failed render writes the record back with the secret cleared and 2FA
   * off; a successful one commits the new secret with 2FA on.
   */
  function Enable2FAResult(users: Users, username: string, generated: Generated, rendered: bool, origin: Origin): (r: Reply)
    ensures username !in users ==> r == Reply(NotFound, users, None)
    ensures username in users && generated.GenerateFailed? ==> r == Reply(InternalError, users, None)
    ensures username in users && generated.Key? ==>
      && r.users.Keys == users.Keys
      && r.users[username].username == users[username].username
      && r.users[username].password == users[username].password
      && forall name :: name in users && name != username ==> r.users[name] == users[name]
    ensures username in users && generated.Key? && !rendered ==>
      && r.outcome == InternalError && r.url == None
      && r.users[username].secret == "" && !r.users[username].twoFAEnabled
    ensures username in users && generated.Key? && rendered ==>
      && r.outcome == Created && r.url == Some(QrUrl(origin))
      && r.users[username].secret == generated.secret && r.users[username].twoFAEnabled
  {
    if username !in users then Reply(NotFound, users, None)
    else if generated.GenerateFailed? then Reply(InternalError, users, None)
    else if !rendered then
      Reply(InternalError, users[username := users[username].(secret := "", twoFAEnabled := false)], None)
    else
      Reply(Created, users[username := users[username].(secret := generated.secret, twoFAEnabled := true)], Some(QrUrl(origin)))
  }

  /** The process-wide store; it starts empty. */
  class CredentialStore {
    var users: Users

    ghost predicate Valid()
      reads this
    {
      WellKeyed(users)
    }

    constructor ()
      ensures users == map[] && Valid()
    {
      users := map[];
    }

    /** `signUp` on the stored map. */
    method SignUp(newUser: User) returns (outcome: Outcome)
      modifies this
      ensures Reply(outcome, users, None) == SignUpResult(old(users), newUser)
      ensures Evolves(old(users), users)
      ensures old(Valid()) ==> Valid()
    {
      if newUser.username in users {
        return Conflict;
      }
      users := users[newUser.username := newUser];
      outcome := Created;
    }

    /** `enable2FA` on the stored map: the record is copied, edited and written back. */
    method Enable2FA(username: string, generated: Generated, rendered: bool, origin: Origin)
      returns (outcome: Outcome, url: Option<string>)
      modifies this
      ensures Reply(outcome, users, url) == Enable2FAResult(old(users), username, generated, rendered, origin)
      ensures Evolves(old(users), users)
      ensures old(Valid()) ==> Valid()
    {
      if username !in users {
        return NotFound, None;
      }
      var user := users[username];
      if generated.GenerateFailed? {
        return InternalError, None;
      }
      if !rendered {
        user := user.(secret := "", twoFAEnabled := false);
        users := users[username := user];
        return InternalError, None;
      }
      user := user.(secret := generated.secret, twoFAEnabled := true);
      users := users[username := user];
      var scheme := Scheme(origin.tlsPresent);
      url := Some(scheme + "://" + origin.host + QrPath);
      outcome := Created;
    }
  }
}
