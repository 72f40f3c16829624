/**
 * The user directory: lookup by e-mail, one-time-code issuance, account
 * creation and the exchange of a code for a session cookie.
 */
module UserActions {
  import opened Common
  import opened Documents
  import opened Store

  /** The backend's reply to `account.createEmailToken(ID.unique(), email)`. */
  datatype TokenAnswer = TokenIssued(userId: string) | TokenRefused

  /** The backend's reply to `account.createSession(accountId, secret)`. */
  datatype SessionAnswer = SessionCreated(sessionId: string, secret: string) | SessionRefused

  /** Errors that the user directory lets propagate to its caller. */
  datatype AuthError =
    | OtpRequestFailed   // the token request threw; `handleError` rethrows it
    | OtpNotSent         // "Failed to send an OTP": the returned account identifier is empty

  /** `getUserByEmail`: the first user document with this e-mail, or `null`. */
  function GetUserByEmail(users: seq<UserDoc>, email: string): (r: Option<UserDoc>)
    ensures r.None? <==> forall i :: 0 <= i < |users| ==> users[i].email != email
    ensures r.Some? ==>
      exists i :: && 0 <= i < |users| && users[i] == r.value && users[i].email == email
                  && forall j :: 0 <= j < i ==> users[j].email != email
    decreases |users|
  {
    if users == [] then None
    else if users[0].email == email then Some(users[0])
    else
      var r := GetUserByEmail(users[1..], email);
      assert forall i :: 0 <= i < |users[1..]| ==> users[1..][i] == users[i + 1];
      if r.Some? then
        var i :| && 0 <= i < |users[1..]| && users[1..][i] == r.value && users[1..][i].email == email
                 && forall j :: 0 <= j < i ==> users[1..][j].email != email;
        assert users[i + 1] == r.value && forall j :: 0 <= j < i + 1 ==> users[j].email != email;
        r
      else r
  }

  /** No two user documents share an e-mail address. */
  ghost predicate UniqueEmails(users: seq<UserDoc>)
  {
    forall i, j :: 0 <= i < j < |users| ==> users[i].email != users[j].email
  }

  /** Appending a user leaves every earlier first match in place and makes the new user the match for a new address. */
  lemma {:induction false} LookupAfterInsert(users: seq<UserDoc>, u: UserDoc, email: string)
    ensures GetUserByEmail(users + [u], email)
         == if GetUserByEmail(users, email).Some? || u.email != email then GetUserByEmail(users, email) else Some(u)
    decreases |users|
  {
    if users != [] {
      assert (users + [u])[0] == users[0];
      assert (users + [u])[1..] == users[1..] + [u];
      LookupAfterInsert(users[1..], u, email);
    } else {
      assert [u][1..] == [];
    }
  }

  /** `sendEmailOtp`: the account identifier the token was issued for; a refused request propagates. */
  function SendEmailOtp(email: string, createEmailToken: string -> TokenAnswer): (r: Result<string, AuthError>)
    ensures r.Ok? <==> createEmailToken(email).TokenIssued?
    ensures r.Ok? ==> r.value == createEmailToken(email).userId
    ensures r.Err? ==> r.error == OtpRequestFailed
  {
    match createEmailToken(email)
    case TokenIssued(userId) => Ok(userId)
    case TokenRefused => Err(OtpRequestFailed)
  }

  /** The user document `createAccount` inserts. */
  function NewUser(docId: string, fullName: string, email: string, accountId: string): UserDoc
  {
    UserDoc(docId, fullName, email, "", accountId, [])
  }

  /**
   * `createAccount`: look the e-mail up, issue a one-time code (before any
   * insert), fail when no account identifier comes back, and insert a user
   * document only when none has this e-mail.  The account identifier is
   * returned whether or not the user existed.
   */
  method CreateAccount(b: Backend, fullName: string, email: string, docId: string,
                       createEmailToken: string -> TokenAnswer)
    returns (r: Result<string, AuthError>)
    modifies b`users
    ensures r == Err(OtpRequestFailed) <==> createEmailToken(email).TokenRefused?
    ensures r == Err(OtpNotSent) <==> createEmailToken(email) == TokenIssued("")
    ensures r.Ok? <==> createEmailToken(email).TokenIssued? && createEmailToken(email).userId != ""
    ensures r.Ok? ==> r.value == createEmailToken(email).userId
    ensures r.Err? ==> b.users == old(b.users)
    ensures r.Ok? ==>
      b.users == old(b.users) + (if GetUserByEmail(old(b.users), email).None?
                                 then [NewUser(docId, fullName, email, r.value)] else [])
    ensures UniqueEmails(old(b.users)) ==> UniqueEmails(b.users)
    ensures r.Ok? ==> GetUserByEmail(b.users, email).Some?
  {
    var existingAccount := GetUserByEmail(b.users, email);
    var sent := SendEmailOtp(email, createEmailToken);
    if sent.Err? {
      return Err(sent.error);
    }
    var accountId := sent.value;
    if accountId == "" {
      return Err(OtpNotSent);
    }
    if existingAccount.None? {
      LookupAfterInsert(b.users, NewUser(docId, fullName, email, accountId), email);
      b.users := b.users + [NewUser(docId, fullName, email, accountId)];
    }
    r := Ok(accountId);
  }

  /** The cookie `verifySecret` writes: path `/`, httpOnly, secure, sameSite strict, no max-age. */
  function SessionCookie(secret: string): (c: Cookie)
    ensures c.name == SessionCookieName && c.value == secret
  {
    Cookie(SessionCookieName, secret, "/", true, true, "strict", None)
  }

  /** A cookie written by `verifySecret` yields a session client exactly when the secret is non-empty. */
  lemma SessionCookieOpensSession(secret: string)
    ensures HasSession(Some(SessionCookie(secret))) <==> secret != ""
  {
  }

  /**
   * `verifySecret`: on success store the session secret in the cookie slot
   * and return the session identifier; on failure the error is only logged,
   * nothing is written and `undefined` is returned.
   */
  method VerifySecret(b: Backend, accountId: string, password: string,
                      createSession: (string, string) -> SessionAnswer)
    returns (r: Option<string>)
    modifies b`sessionCookie
    ensures createSession(accountId, password).SessionRefused? ==> r == None && b.sessionCookie == old(b.sessionCookie)
    ensures createSession(accountId, password).SessionCreated? ==>
      && r == Some(createSession(accountId, password).sessionId)
      && b.sessionCookie == Some(SessionCookie(createSession(accountId, password).secret))
  {
    var session := createSession(accountId, password);
    if session.SessionRefused? {
      return None;
    }
    b.sessionCookie := Some(SessionCookie(session.secret));
    r := Some(session.sessionId);
  }
}
