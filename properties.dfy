/**
 * How the handlers interact: what one request means for the outcome of a
 * later one, and the two end-to-end scenarios of the service.
 */
module StoreProperties {
  import opened Options
  import opened QrAddress
  import opened Store

  /** A second sign-up under a taken name is a Conflict and keeps the first record. */
  lemma SecondSignUpConflicts(users: Users, first: User, second: User)
    requires first.username !in users
    requires second.username == first.username
    ensures var after := SignUpResult(users, first).users;
      && SignUpResult(after, second) == Reply(Conflict, after, None)
      && after[first.username] == first
  {
  }

  /** Right after sign-up the new user logs in with, and only with, the registered password. */
  lemma LoginAfterSignUp(users: Users, newUser: User, password: string)
    requires newUser.username !in users
    ensures Login(SignUpResult(users, newUser).users, newUser.username, password) == Ok
        <==> password == newUser.password
  {
  }

  /** Sign-up never changes whether an already registered user can log in. */
  lemma SignUpKeepsLogins(users: Users, newUser: User, username: string, password: string)
    requires username in users
    ensures Login(SignUpResult(users, newUser).users, username, password) == Login(users, username, password)
  {
  }

  /** Enrollment, whatever its outcome, never changes any login outcome. */
  lemma Enable2FAKeepsLogins(users: Users, enrolled: string, generated: Generated, rendered: bool, origin: Origin,
                             username: string, password: string)
    ensures Login(Enable2FAResult(users, enrolled, generated, rendered, origin).users, username, password)
         == Login(users, username, password)
  {
  }

  /** After a committed enrollment, verification accepts exactly the codes valid for the new secret. */
  lemma VerifyAfterCommit(users: Users, username: string, secret: string, origin: Origin, code: string,
                          validate: (string, string) -> bool)
    requires username in users
    ensures var after := Enable2FAResult(users, username, Key(secret), true, origin).users;
      && (Verify2FA(after, username, code, validate) == Ok <==> validate(code, secret))
      && (Verify2FA(after, username, code, validate) == Unauthorized <==> !validate(code, secret))
  {
  }

  /**
   * After a rolled-back enrollment, verification is not refused as "not
   * enrolled": the code is checked against the empty secret.
   */
  lemma VerifyAfterRollback(users: Users, username: string, generated: Generated, origin: Origin, code: string,
                            validate: (string, string) -> bool)
    requires username in users && generated.Key?
    ensures var after := Enable2FAResult(users, username, generated, false, origin).users;
      Verify2FA(after, username, code, validate) == Ok <==> validate(code, "")
  {
  }

  /** Verification depends on the stored secret only, never on the enablement flag. */
  lemma VerifyIgnoresTwoFAEnabled(users: Users, username: string, enabled: bool, code: string,
                                  validate: (string, string) -> bool)
    requires username in users
    ensures Verify2FA(users[username := users[username].(twoFAEnabled := enabled)], username, code, validate)
         == Verify2FA(users, username, code, validate)
  {
  }

  /** Enrolling one user never changes the verification outcome of another. */
  lemma Enable2FAKeepsOthersVerify(users: Users, enrolled: string, generated: Generated, rendered: bool,
                                   origin: Origin, username: string, code: string, validate: (string, string) -> bool)
    requires username != enrolled
    ensures Verify2FA(Enable2FAResult(users, enrolled, generated, rendered, origin).users, username, code, validate)
         == Verify2FA(users, username, code, validate)
  {
  }

  /** A rolled-back store is a fixed point of every further failed enrollment of that user. */
  lemma RollbackIsFixedPoint(users: Users, username: string, g1: Generated, g2: Generated, o1: Origin, o2: Origin)
    requires username in users && g1.Key?
    ensures var after := Enable2FAResult(users, username, g1, false, o1).users;
      Enable2FAResult(after, username, g2, false, o2).users == after
  {
  }

  /**
   * Rolling back also disables 2FA for a user who had it enabled, and a
   * previously committed secret is lost.
   */
  lemma RollbackDisablesEnrolledUser(users: Users, username: string, s1: string, s2: string, o1: Origin, o2: Origin)
    requires username in users
    ensures var enrolled := Enable2FAResult(users, username, Key(s1), true, o1).users;
      && enrolled[username].twoFAEnabled
      && var after := Enable2FAResult(enrolled, username, Key(s2), false, o2).users;
         !after[username].twoFAEnabled && after[username].secret == ""
  {
  }

  /**
   * Sign-up stores the submitted record as it is, so a client can register
   * with 2FA marked enabled and no secret at all.
   */
  lemma SignUpAcceptsEnabledWithoutSecret()
    ensures var r := SignUpResult(map[], User("eve", "pw", "", true));
      r.outcome == Created && r.users["eve"].twoFAEnabled && r.users["eve"].secret == ""
  {
  }

  /**
   * alice signs up, a second sign-up of her name is refused, she logs in
   * with her password only; enrolling with a working renderer enables 2FA
   * and reports the QR URL, and verification then follows the validator
   * on her new secret.
   */
  lemma AliceScenario(secret: string, code: string, origin: Origin, validate: (string, string) -> bool)
    ensures var s1 := SignUpResult(map[], User("alice", "pw1", "", false));
      && s1.outcome == Created
      && SignUpResult(s1.users, User("alice", "pw2", "", false)).outcome == Conflict
      && Login(s1.users, "alice", "pw1") == Ok
      && Login(s1.users, "alice", "pw2") == Unauthorized
      && var s2 := Enable2FAResult(s1.users, "alice", Key(secret), true, origin);
         && s2.outcome == Created
         && s2.url == Some(QrUrl(origin))
         && s2.users["alice"].twoFAEnabled
         && (Verify2FA(s2.users, "alice", code, validate) == Ok <==> validate(code, secret))
  {
  }

  /**
   * bob's enrollment meets a failing renderer: the handler reports an
   * internal error and his record keeps no secret and 2FA off.
   */
  lemma BobScenario(secret: string, origin: Origin)
    ensures var s1 := SignUpResult(map[], User("bob", "pw", "", false));
      && var s2 := Enable2FAResult(s1.users, "bob", Key(secret), false, origin);
         && s2.outcome == InternalError
         && s2.url == None
         && s2.users["bob"] == User("bob", "pw", "", false)
  {
  }

  /** The alice scenario run against the store object itself. */
  method AliceSession(secret: string, code: string, origin: Origin, validate: (string, string) -> bool)
  {
    var store := new CredentialStore();
    var outcome := store.SignUp(User("alice", "pw1", "", false));
    assert outcome == Created;
    outcome := store.SignUp(User("alice", "pw2", "", false));
    assert outcome == Conflict;
    assert Login(store.users, "alice", "pw1") == Ok;
    assert Login(store.users, "alice", "pw2") == Unauthorized;
    var url;
    outcome, url := store.Enable2FA("alice", Key(secret), true, origin);
    assert outcome == Created && url == Some(QrUrl(origin));
    assert store.users["alice"].twoFAEnabled && store.users["alice"].password == "pw1";
    assert Verify2FA(store.users, "alice", code, validate) == Ok <==> validate(code, secret);
    assert store.Valid();
  }
}
