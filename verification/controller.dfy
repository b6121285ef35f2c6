/**
 * The authentication controller over a mutable user collection. Each handler
 * looks a record up, checks its conditions in the source's order, and either
 * answers with an error (leaving the collection as it was) or edits the
 * fields of one record and saves it. Every handler is proved to do exactly
 * what the matching transition in `Handlers` describes, and to keep the store
 * invariant `WellFormed`.
 */
module Controller {
  import opened Wrappers
  import opened Users
  import opened Handlers
  import Avatar
  import Text
  import Properties

  class AuthController {
    /** The user collection, in insertion order. */
    var users: seq<User>
    /** The password hash applied when a record with a new password is saved. */
    const hash: string -> Digest

    ghost predicate Valid()
      reads this
    {
      WellFormed(users)
    }

    constructor (hash: string -> Digest)
      ensures Valid() && users == [] && this.hash == hash
    {
      this.hash := hash;
      users := [];
    }

    /** registerUser (auth.controller.js lines 17-60). */
    method RegisterUser(schemaOk: bool, name: string, email: string, username: string, password: string)
      returns (status: Status)
      requires Valid()
      modifies this
      ensures Valid()
      ensures !status.Success? ==> users == old(users)
      ensures Outcome(status, users) == Handlers.Register(old(users), hash, schemaOk, name, email, username, password)
    {
      if !schemaOk {
        return Rejected;
      }
      var existingUser := FindOne(users, ByUsernameOrEmail(Some(username), Some(email)));
      if existingUser.Some? {
        return Failure(409, IdentityTaken);
      }
      Properties.RegisterKeepsWellFormed(users, hash, schemaOk, name, email, username, password);
      users := users + [User(name, email, username, hash(password), DefaultAvatar, None, false, None, None, None)];
      status := Success(201, "User register successfully");
    }

    /** loginUser (lines 62-96): reads the collection and changes nothing. */
    method LoginUser(schemaOk: bool, username: Option<string>, email: Option<string>, password: string)
      returns (status: Status)
      ensures status == Handlers.Login(users, hash, schemaOk, username, email, password)
    {
      if !schemaOk {
        return Rejected;
      }
      var user := FindOne(users, ByUsernameOrEmail(username, email));
      if user.None? {
        return Failure(404, UserNotFound);
      }
      var isPasswordCorrect := hash(password) == users[user.value].password;
      if !isPasswordCorrect {
        return Failure(401, WrongPassword);
      }
      status := Success(200, "User login successfully.");
    }

    /** changeCurrentPassword (lines 112-131) for the signed-in record `me`. */
    method ChangeCurrentPassword(schemaOk: bool, me: nat, oldPassword: string, newPassword: string)
      returns (status: Status)
      requires Valid() && me < |users|
      modifies this
      ensures Valid()
      ensures !status.Success? ==> users == old(users)
      ensures Outcome(status, users) == Handlers.ChangePassword(old(users), hash, schemaOk, me, oldPassword, newPassword)
    {
      if !schemaOk {
        return Rejected;
      }
      var user := users[me];
      var isPasswordCorrect := hash(oldPassword) == user.password;
      if !isPasswordCorrect {
        return Failure(401, WrongOldPassword);
      }
      Properties.ChangePasswordKeepsWellFormed(users, hash, schemaOk, me, oldPassword, newPassword);
      user := user.(password := hash(newPassword));
      users := users[me := user];
      status := Success(200, "Password changed successfully");
    }

    /**
     * changeAvatar (lines 133-159) for the signed-in record `me`: `hasFile` says
     * whether an image came with the request, `uploaded` is the URL the image
     * host returned. `deleted` is the public id handed to the image host's delete.
     */
    method ChangeAvatar(me: nat, hasFile: bool, uploaded: Option<string>)
      returns (status: Status, deleted: Option<string>)
      requires Valid() && me < |users|
      modifies this
      ensures Valid()
      ensures !status.Success? ==> users == old(users)
      ensures deleted == AvatarToDelete(old(users), me, hasFile)
      ensures Outcome(status, users) == Handlers.ChangeAvatar(old(users), me, hasFile, uploaded)
    {
      deleted := None;
      if !hasFile {
        return Failure(400, NoImage), deleted;
      }
      var user := users[me];
      if user.avatar != "" {
        deleted := Some(Avatar.PublicId(user.avatar));
      }
      if uploaded.None? {
        return Failure(500, UploadFailed), deleted;
      }
      Properties.ChangeAvatarKeepsWellFormed(users, me, hasFile, uploaded);
      user := user.(avatar := uploaded.value);
      users := users[me := user];
      status := Success(200, "profile image updated");
    }

    /** updateUser (lines 161-192) for the signed-in record `me`. */
    method UpdateUser(schemaOk: bool, me: nat, name: Option<string>, username: Option<string>,
                      email: Option<string>, gender: Option<Gender>)
      returns (status: Status)
      requires Valid() && me < |users|
      modifies this
      ensures Valid()
      ensures !status.Success? ==> users == old(users)
      ensures Outcome(status, users) == Handlers.UpdateUser(old(users), schemaOk, me, name, username, email, gender)
    {
      if !schemaOk {
        return Rejected;
      }
      var isEmailTaken := FindOne(users, ByEmail(email));
      if isEmailTaken.Some? && isEmailTaken.value != me {
        return Failure(409, EmailTaken);
      }
      var isUsernameTaken := FindOne(users, ByUsername(username));
      if isUsernameTaken.Some? && isUsernameTaken.value != me {
        return Failure(409, UsernameTaken);
      }
      Properties.UpdateUserKeepsWellFormed(users, schemaOk, me, name, username, email, gender);
      var user := users[me];
      user := user.(name := Pick(name, user.name));
      user := user.(username := Pick(username, user.username));
      user := user.(email := Pick(email, user.email));
      user := user.(gender := if gender.Some? then gender else user.gender);
      users := users[me := user];
      status := Success(200, "User updated successfully");
    }

    /** verifyEmail (lines 194-209). */
    method VerifyEmail(token: string) returns (status: Status)
      requires Valid()
      modifies this
      ensures Valid()
      ensures !status.Success? ==> users == old(users)
      ensures Outcome(status, users) == Handlers.VerifyEmail(old(users), token)
    {
      var found := FindOne(users, ByVerificationToken(token));
      if found.None? {
        return Failure(400, InvalidToken);
      }
      Properties.VerifyEmailKeepsWellFormed(users, token);
      var i := found.value;
      var user := users[i];
      user := user.(isVerified := true);
      user := user.(verificationToken := None);
      users := users[i := user];
      status := Success(200, "Email Verified SuccessFully");
    }

    /** sendEmailVerification (lines 211-246): `token` is the fresh random token. */
    method SendEmailVerification(email: string, token: string) returns (status: Status)
      requires Valid()
      modifies this
      ensures Valid()
      ensures !status.Success? ==> users == old(users)
      ensures Outcome(status, users) == Handlers.SendEmailVerification(old(users), email, token)
    {
      var found := FindOne(users, ByEmail(Some(email)));
      if found.None? {
        return Failure(404, EmailNotFound);
      }
      var i := found.value;
      var user := users[i];
      if user.isVerified {
        return Failure(400, AlreadyVerified);
      }
      Properties.SendEmailVerificationKeepsWellFormed(users, email, token);
      user := user.(verificationToken := Some(token));
      users := users[i := user];
      status := Success(200, "verification link is send To your profile");
    }

    /** forgotPassword (lines 248-280): `token` is the fresh random token, `now` the clock. */
    method ForgotPassword(email: string, token: string, now: int) returns (status: Status)
      requires Valid()
      modifies this
      ensures Valid()
      ensures !status.Success? ==> users == old(users)
      ensures Outcome(status, users) == Handlers.ForgotPassword(old(users), email, token, now)
    {
      var found := FindOne(users, ByEmail(Some(email)));
      if found.None? {
        return Failure(404, EmailNotFound);
      }
      Properties.ForgotPasswordKeepsWellFormed(users, email, token, now);
      var i := found.value;
      var user := users[i];
      var resetTokenExpiration := now + ResetWindow;
      user := user.(resetToken := Some(token));
      user := user.(resetTokenExpiration := Some(resetTokenExpiration));
      users := users[i := user];
      status := Success(200, "Password Reset Request Sent To your Email");
    }

    /** resetPassword (lines 282-311): `newPassword` is `None` when the body holds no string. */
    method ResetPassword(token: string, newPassword: Option<string>, now: int) returns (status: Status)
      requires Valid()
      modifies this
      ensures Valid()
      ensures !status.Success? ==> users == old(users)
      ensures Outcome(status, users) == Handlers.ResetPassword(old(users), hash, token, newPassword, now)
    {
      if newPassword.None? || |Text.Trim(newPassword.value)| == 0 {
        return Failure(400, InvalidPassword);
      }
      var found := FindOne(users, ByResetToken(token));
      if found.None? {
        return Failure(400, InvalidToken);
      }
      var i := found.value;
      var user := users[i];
      if user.resetTokenExpiration.Some? && user.resetTokenExpiration.value < now {
        return Failure(400, TokenExpired);
      }
      Properties.ResetPasswordKeepsWellFormed(users, hash, token, newPassword, now);
      user := user.(password := hash(newPassword.value));
      user := user.(resetToken := None);
      user := user.(resetTokenExpiration := None);
      users := users[i := user];
      status := Success(200, "Password successfully reset");
    }
  }
}
