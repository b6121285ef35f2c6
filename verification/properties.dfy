/**
 * What the handlers promise together: the store invariant survives every
 * handler, identities stay unique, reset and verification tokens are
 * single-use, and a fresh reset token works for exactly one hour.
 */
module Properties {
  import opened Wrappers
  import opened Users
  import opened Handlers

  // ------------------------------------------------------ the store invariant

  /** Rewriting one record keeps the invariant when its identity stays and its reset pair stays matched. */
  lemma RewriteKeepsWellFormed(users: seq<User>, i: nat, u: User)
    requires WellFormed(users) && i < |users|
    requires u.username == users[i].username && u.email == users[i].email
    requires u.resetToken.Some? <==> u.resetTokenExpiration.Some?
    ensures WellFormed(users[i := u])
  {
    var after := users[i := u];
    forall j, k | 0 <= j < k < |after|
      ensures after[j].username != after[k].username && after[j].email != after[k].email
    {
      assert users[j].username != users[k].username && users[j].email != users[k].email;
    }
  }

  lemma RegisterKeepsWellFormed(users: seq<User>, hash: string -> Digest, schemaOk: bool,
                                name: string, email: string, username: string, password: string)
    requires WellFormed(users)
    ensures WellFormed(Register(users, hash, schemaOk, name, email, username, password).users)
  {
    var r := Register(users, hash, schemaOk, name, email, username, password);
    if r.users != users {
      forall i, j | 0 <= i < j < |r.users|
        ensures r.users[i].username != r.users[j].username && r.users[i].email != r.users[j].email
      {
        assert r.users[i] == users[i];
        if j < |users| {
          assert r.users[j] == users[j];
        }
      }
    }
  }

  lemma ChangePasswordKeepsWellFormed(users: seq<User>, hash: string -> Digest, schemaOk: bool, me: nat,
                                      oldPassword: string, newPassword: string)
    requires WellFormed(users) && me < |users|
    ensures WellFormed(ChangePassword(users, hash, schemaOk, me, oldPassword, newPassword).users)
  {
    RewriteKeepsWellFormed(users, me, users[me].(password := hash(newPassword)));
  }

  lemma ChangeAvatarKeepsWellFormed(users: seq<User>, me: nat, hasFile: bool, uploaded: Option<string>)
    requires WellFormed(users) && me < |users|
    ensures WellFormed(ChangeAvatar(users, me, hasFile, uploaded).users)
  {
    if uploaded.Some? {
      RewriteKeepsWellFormed(users, me, users[me].(avatar := uploaded.value));
    }
  }

  lemma SendEmailVerificationKeepsWellFormed(users: seq<User>, email: string, token: string)
    requires WellFormed(users)
    ensures WellFormed(SendEmailVerification(users, email, token).users)
  {
    match FindOne(users, ByEmail(Some(email)))
    case None =>
    case Some(i) => RewriteKeepsWellFormed(users, i, users[i].(verificationToken := Some(token)));
  }

  lemma VerifyEmailKeepsWellFormed(users: seq<User>, token: string)
    requires WellFormed(users)
    ensures WellFormed(VerifyEmail(users, token).users)
  {
    match FindOne(users, ByVerificationToken(token))
    case None =>
    case Some(i) => RewriteKeepsWellFormed(users, i, users[i].(isVerified := true, verificationToken := None));
  }

  /** forgotPassword stores the token and its expiration together. */
  lemma ForgotPasswordKeepsWellFormed(users: seq<User>, email: string, token: string, now: int)
    requires WellFormed(users)
    ensures WellFormed(ForgotPassword(users, email, token, now).users)
  {
    match FindOne(users, ByEmail(Some(email)))
    case None =>
    case Some(i) =>
      RewriteKeepsWellFormed(users, i, users[i].(resetToken := Some(token), resetTokenExpiration := Some(now + ResetWindow)));
  }

  /** resetPassword clears the token and its expiration together. */
  lemma ResetPasswordKeepsWellFormed(users: seq<User>, hash: string -> Digest, token: string,
                                     newPassword: Option<string>, now: int)
    requires WellFormed(users)
    ensures WellFormed(ResetPassword(users, hash, token, newPassword, now).users)
  {
    if PasswordGiven(newPassword) {
      match FindOne(users, ByResetToken(token))
      case None =>
      case Some(i) =>
        RewriteKeepsWellFormed(users, i, users[i].(password := hash(newPassword.value),
                                                   resetToken := None, resetTokenExpiration := None));
    }
  }

  /**
   * Under the invariant, updateUser refuses an email exactly when another user
   * holds it, and only then looks at the username, which it refuses exactly
   * when another user holds it.
   */
  lemma UpdateUserConflicts(users: seq<User>, schemaOk: bool, me: nat, name: Option<string>,
                            username: Option<string>, email: Option<string>, gender: Option<Gender>)
    requires WellFormed(users) && me < |users|
    ensures var r := UpdateUser(users, schemaOk, me, name, username, email, gender);
      var emailClash := email.Some? && exists k :: 0 <= k < |users| && k != me && users[k].email == email.value;
      var usernameClash := username.Some? && exists k :: 0 <= k < |users| && k != me && users[k].username == username.value;
      && (r.status == Failure(409, EmailTaken) <==> schemaOk && emailClash)
      && (r.status == Failure(409, UsernameTaken) <==> schemaOk && !emailClash && usernameClash)
      && (r.status.Success? <==> schemaOk && !emailClash && !usernameClash)
  {
    if email.Some? {
      if k :| 0 <= k < |users| && k != me && users[k].email == email.value {
        FindByIdentityUnique(users, k);
      }
    }
    if username.Some? {
      if k :| 0 <= k < |users| && k != me && users[k].username == username.value {
        FindByIdentityUnique(users, k);
      }
    }
  }

  /** updateUser keeps usernames and emails unique (and leaves reset pairs alone). */
  lemma UpdateUserKeepsWellFormed(users: seq<User>, schemaOk: bool, me: nat, name: Option<string>,
                                  username: Option<string>, email: Option<string>, gender: Option<Gender>)
    requires WellFormed(users) && me < |users|
    ensures WellFormed(UpdateUser(users, schemaOk, me, name, username, email, gender).users)
  {
    var r := UpdateUser(users, schemaOk, me, name, username, email, gender);
    UpdateUserConflicts(users, schemaOk, me, name, username, email, gender);
    if r.status.Success? {
      forall i, j | 0 <= i < j < |r.users|
        ensures r.users[i].username != r.users[j].username && r.users[i].email != r.users[j].email
      {
        if i != me && j != me {
          assert r.users[i] == users[i] && r.users[j] == users[j];
        } else {
          var other := if i == me then j else i;
          assert r.users[other] == users[other];
        }
      }
    }
  }

  // --------------------------------------------------------------- credentials

  /** Under the invariant, logging in by username checks the password of that user. */
  lemma LoginByUsername(users: seq<User>, hash: string -> Digest, i: nat, password: string)
    requires WellFormed(users) && i < |users|
    ensures Login(users, hash, true, Some(users[i].username), None, password)
            == if hash(password) == users[i].password then Success(200, "User login successfully.")
               else Failure(401, WrongPassword)
  {
    FindByIdentityUnique(users, i);
  }

  /** A fresh registration can log in with its username and password straight away. */
  lemma RegisterThenLogin(users: seq<User>, hash: string -> Digest,
                          name: string, email: string, username: string, password: string)
    requires WellFormed(users)
    requires Register(users, hash, true, name, email, username, password).status.Success?
    ensures Login(Register(users, hash, true, name, email, username, password).users,
                  hash, true, Some(username), None, password) == Success(200, "User login successfully.")
  {
    var after := Register(users, hash, true, name, email, username, password).users;
    RegisterKeepsWellFormed(users, hash, true, name, email, username, password);
    LoginByUsername(after, hash, |users|, password);
  }

  /** After a password change the new password logs in, and the old one no longer does. */
  lemma ChangePasswordThenLogin(users: seq<User>, hash: string -> Digest, me: nat,
                                oldPassword: string, newPassword: string)
    requires WellFormed(users) && me < |users|
    requires ChangePassword(users, hash, true, me, oldPassword, newPassword).status.Success?
    ensures var after := ChangePassword(users, hash, true, me, oldPassword, newPassword).users;
      && Login(after, hash, true, Some(users[me].username), None, newPassword).Success?
      && (hash(oldPassword) != hash(newPassword) ==>
            Login(after, hash, true, Some(users[me].username), None, oldPassword) == Failure(401, WrongPassword))
  {
    var after := ChangePassword(users, hash, true, me, oldPassword, newPassword).users;
    ChangePasswordKeepsWellFormed(users, hash, true, me, oldPassword, newPassword);
    LoginByUsername(after, hash, me, newPassword);
    LoginByUsername(after, hash, me, oldPassword);
  }

  // -------------------------------------------------------- single-use tokens

  /**
   * Redeeming a reset token clears it: a second redemption of the same token
   * fails with "Invalid token" whenever no other user held that token.
   */
  lemma ResetTokenSingleUse(users: seq<User>, hash: string -> Digest, token: string,
                            newPassword: Option<string>, now: int,
                            againPassword: Option<string>, later: int)
    requires ResetTokenHeldOnce(users, token)
    requires ResetPassword(users, hash, token, newPassword, now).status.Success?
    requires PasswordGiven(againPassword)
    ensures ResetPassword(ResetPassword(users, hash, token, newPassword, now).users, hash, token, againPassword, later)
            == Outcome(Failure(400, InvalidToken), ResetPassword(users, hash, token, newPassword, now).users)
  {
    assert FindOne(users, ByResetToken(token)).Some?;
    var i := FindOne(users, ByResetToken(token)).value;
    var after := users[i := users[i].(password := hash(newPassword.value),
                                      resetToken := None, resetTokenExpiration := None)];
    assert ResetPassword(users, hash, token, newPassword, now).users == after;
    forall j | 0 <= j < |after| ensures !Matches(after[j], ByResetToken(token)) {
      if j != i {
        assert after[j] == users[j];
      }
    }
    assert FindOne(after, ByResetToken(token)).None?;
  }

  /**
   * Redeeming a verification token marks the user verified and clears the
   * token: a second redemption fails with "Invalid token" whenever no other
   * user held that token.
   */
  lemma VerificationTokenSingleUse(users: seq<User>, token: string)
    requires VerificationTokenHeldOnce(users, token)
    requires VerifyEmail(users, token).status.Success?
    ensures VerifyEmail(VerifyEmail(users, token).users, token)
            == Outcome(Failure(400, InvalidToken), VerifyEmail(users, token).users)
  {
    assert FindOne(users, ByVerificationToken(token)).Some?;
    var i := FindOne(users, ByVerificationToken(token)).value;
    var after := users[i := users[i].(isVerified := true, verificationToken := None)];
    assert VerifyEmail(users, token).users == after;
    forall j | 0 <= j < |after| ensures !Matches(after[j], ByVerificationToken(token)) {
      if j != i {
        assert after[j] == users[j];
      }
    }
    assert FindOne(after, ByVerificationToken(token)).None?;
  }

  /**
   * A reset token that no one held before forgotPassword stored it is
   * redeemed by resetPassword exactly when the clock has not passed the stored
   * expiration, now + one hour (the boundary instant itself is accepted).
   */
  lemma ForgotThenReset(users: seq<User>, hash: string -> Digest, email: string, token: string, now: int,
                        newPassword: Option<string>, later: int)
    requires forall j :: 0 <= j < |users| ==> users[j].resetToken != Some(token)
    requires ForgotPassword(users, email, token, now).status.Success?
    requires PasswordGiven(newPassword)
    ensures ResetPassword(ForgotPassword(users, email, token, now).users, hash, token, newPassword, later).status
            == if later <= now + ResetWindow then Success(200, "Password successfully reset")
               else Failure(400, TokenExpired)
  {
    var after := ForgotPassword(users, email, token, now).users;
    var i :| IsFirstMatch(users, ByEmail(Some(email)), i) by {
      FindOneIsFirstMatch(users, ByEmail(Some(email)), FindOne(users, ByEmail(Some(email))).value);
    }
    forall j | 0 <= j < i ensures !Matches(after[j], ByResetToken(token)) {
      assert after[j] == users[j];
    }
    assert IsFirstMatch(after, ByResetToken(token), i);
  }

  /** Giving record `i` a token that no record held makes `i` the one a lookup by that token finds. */
  lemma FreshVerificationTokenFound(users: seq<User>, i: nat, token: string)
    requires i < |users|
    requires forall j :: 0 <= j < |users| ==> users[j].verificationToken != Some(token)
    ensures FindOne(users[i := users[i].(verificationToken := Some(token))], ByVerificationToken(token)) == Some(i)
  {
    var sent := users[i := users[i].(verificationToken := Some(token))];
    forall j | 0 <= j < i ensures !Matches(sent[j], ByVerificationToken(token)) {
      assert sent[j] == users[j];
    }
    FindOneIsFirstMatch(sent, ByVerificationToken(token), i);
  }

  /**
   * A verification token that no one held before sendEmailVerification stored
   * it for an unverified user is redeemed by verifyEmail, which marks that
   * user verified.
   */
  lemma SendThenVerify(users: seq<User>, i: nat, token: string)
    requires WellFormed(users) && i < |users| && !users[i].isVerified
    requires forall j :: 0 <= j < |users| ==> users[j].verificationToken != Some(token)
    ensures var sent := SendEmailVerification(users, users[i].email, token);
      var verified := VerifyEmail(sent.users, token);
      && sent.status.Success? && verified.status.Success?
      && verified.users[i].isVerified && verified.users[i].verificationToken.None?
  {
    FindByIdentityUnique(users, i);
    var sent := users[i := users[i].(verificationToken := Some(token))];
    assert SendEmailVerification(users, users[i].email, token)
        == Outcome(Success(200, "verification link is send To your profile"), sent);
    FreshVerificationTokenFound(users, i, token);
    assert VerifyEmail(sent, token)
        == Outcome(Success(200, "Email Verified SuccessFully"),
                   sent[i := sent[i].(isVerified := true, verificationToken := None)]);
  }
}
