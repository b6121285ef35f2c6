/**
 * The request handlers of the authentication controller as transitions of the
 * user table: each takes the table (and whatever the request, the clock, the
 * random-token source and the password hash supply) and yields the response
 * status together with the table as saved.
 */
module Handlers {
  import opened Wrappers
  import opened Users
  import Avatar
  import Text

  /** The response a handler sends. `Rejected` is a schema-validation failure. */
  datatype Status =
    | Success(code: int, message: string)
    | Failure(code: int, message: string)
    | Rejected

  datatype Outcome = Outcome(status: Status, users: seq<User>)

  /** The avatar every account starts with. */
  const DefaultAvatar := "https://encrypted-tbn0.gstatic.com/images?q=tbn:ANd9GcQ4YreOWfDX3kK-QLAbAL4ufCPc84ol2MA8Xg&s"
  /** How long a password-reset token stays valid, in milliseconds. */
  const ResetWindow := 3600000

  const IdentityTaken := "Email or username already exist"
  const UserNotFound := "User not found with this username or email"
  const WrongPassword := "Password is incorrect"
  const WrongOldPassword := "Invalid old password"
  const NoImage := "Please provide an image"
  const UploadFailed := "Failed to upload image"
  const EmailTaken := "Email already exists"
  const UsernameTaken := "Username already exists"
  const InvalidToken := "Invalid token"
  const EmailNotFound := "User not found with this email"
  const AlreadyVerified := "Email is already verified"
  const InvalidPassword := "Invalid password"
  const TokenExpired := "Token expired"

  // ---------------------------------------------------------------- register

  /** registerUser: reject a taken username or email, otherwise append the new account. */
  function Register(users: seq<User>, hash: string -> Digest, schemaOk: bool,
                    name: string, email: string, username: string, password: string): (r: Outcome)
    ensures !schemaOk ==> r == Outcome(Rejected, users)
    ensures (schemaOk && (exists i :: 0 <= i < |users| && (users[i].username == username || users[i].email == email)))
              ==> r == Outcome(Failure(409, IdentityTaken), users)
    ensures (schemaOk && (forall i :: 0 <= i < |users| ==> users[i].username != username && users[i].email != email))
              ==> && r.status == Success(201, "User register successfully")
                  && |r.users| == |users| + 1 && r.users[..|users|] == users
                  && r.users[|users|] == User(name, email, username, hash(password), DefaultAvatar,
                                              None, false, None, None, None)
  {
    if !schemaOk then Outcome(Rejected, users)
    else if FindOne(users, ByUsernameOrEmail(Some(username), Some(email))).Some? then
      Outcome(Failure(409, IdentityTaken), users)
    else
      Outcome(Success(201, "User register successfully"),
              users + [User(name, email, username, hash(password), DefaultAvatar, None, false, None, None, None)])
  }

  // ------------------------------------------------------------------- login

  /** loginUser: find the first user with the given username or email, then check the password. */
  function Login(users: seq<User>, hash: string -> Digest, schemaOk: bool,
                 username: Option<string>, email: Option<string>, password: string): (r: Status)
    ensures !schemaOk ==> r == Rejected
    ensures (schemaOk && (forall i :: 0 <= i < |users| ==> !Matches(users[i], ByUsernameOrEmail(username, email))))
              ==> r == Failure(404, UserNotFound)
    ensures forall i: nat :: schemaOk && IsFirstMatch(users, ByUsernameOrEmail(username, email), i) ==>
              r == if hash(password) == users[i].password then Success(200, "User login successfully.")
                   else Failure(401, WrongPassword)
  {
    if !schemaOk then Rejected
    else match FindOne(users, ByUsernameOrEmail(username, email))
      case None => Failure(404, UserNotFound)
      case Some(i) =>
        if hash(password) != users[i].password then Failure(401, WrongPassword)
        else Success(200, "User login successfully.")
  }

  // --------------------------------------------------------- change password

  /** changeCurrentPassword for the signed-in user `me`. */
  function ChangePassword(users: seq<User>, hash: string -> Digest, schemaOk: bool, me: nat,
                          oldPassword: string, newPassword: string): (r: Outcome)
    requires me < |users|
    ensures !schemaOk ==> r == Outcome(Rejected, users)
    ensures (schemaOk && hash(oldPassword) != users[me].password)
              ==> r == Outcome(Failure(401, WrongOldPassword), users)
    ensures (schemaOk && hash(oldPassword) == users[me].password)
              ==> && r.status == Success(200, "Password changed successfully")
                  && OnlyAt(users, r.users, me)
                  && r.users[me] == users[me].(password := hash(newPassword))
  {
    if !schemaOk then Outcome(Rejected, users)
    else if hash(oldPassword) != users[me].password then Outcome(Failure(401, WrongOldPassword), users)
    else Outcome(Success(200, "Password changed successfully"),
                 users[me := users[me].(password := hash(newPassword))])
  }

  // ----------------------------------------------------------- change avatar

  /** The public id `changeAvatar` asks the image host to delete, if any. */
  function AvatarToDelete(users: seq<User>, me: nat, hasFile: bool): (id: Option<string>)
    requires me < |users|
    ensures id.Some? <==> hasFile && users[me].avatar != ""
    ensures id.Some? ==> '/' !in id.value && '.' !in id.value
    ensures id.Some? ==> id.value <= Avatar.AfterLast(users[me].avatar, '/')
    ensures id.Some? ==> |id.value| == |Avatar.AfterLast(users[me].avatar, '/')|
                         || Avatar.AfterLast(users[me].avatar, '/')[|id.value|] == '.'
  {
    if hasFile && users[me].avatar != "" then Some(Avatar.PublicId(users[me].avatar)) else None
  }

  /** changeAvatar: `uploaded` is the secure URL the image host returned, if the upload succeeded. */
  function ChangeAvatar(users: seq<User>, me: nat, hasFile: bool, uploaded: Option<string>): (r: Outcome)
    requires me < |users|
    ensures !hasFile ==> r == Outcome(Failure(400, NoImage), users)
    ensures hasFile && uploaded.None? ==> r == Outcome(Failure(500, UploadFailed), users)
    ensures (hasFile && uploaded.Some?)
              ==> && r.status == Success(200, "profile image updated")
                  && OnlyAt(users, r.users, me)
                  && r.users[me] == users[me].(avatar := uploaded.value)
  {
    if !hasFile then Outcome(Failure(400, NoImage), users)
    else if uploaded.None? then Outcome(Failure(500, UploadFailed), users)
    else Outcome(Success(200, "profile image updated"), users[me := users[me].(avatar := uploaded.value)])
  }

  // ------------------------------------------------------------- update user

  /** `value || current`: a supplied non-empty value replaces the current one. */
  function Pick(value: Option<string>, current: string): (r: string)
    ensures value.Some? && value.value != "" ==> r == value.value
    ensures value.None? || value.value == "" ==> r == current
  {
    if value.Some? && value.value != "" then value.value else current
  }

  /** The value `findOne` returned is a record other than `me`. */
  predicate TakenByOther(users: seq<User>, q: Query, me: nat) {
    FindOne(users, q).Some? && FindOne(users, q).value != me
  }

  /** updateUser for the signed-in user `me`: the email check, then the username check, then the update. */
  function UpdateUser(users: seq<User>, schemaOk: bool, me: nat, name: Option<string>,
                      username: Option<string>, email: Option<string>, gender: Option<Gender>): (r: Outcome)
    requires me < |users|
    ensures !schemaOk ==> r == Outcome(Rejected, users)
    ensures r.status.Failure? ==> r.users == users
    ensures (r.status == Failure(409, EmailTaken))
              ==> email.Some? && exists k :: 0 <= k < |users| && k != me && users[k].email == email.value
    ensures (r.status == Failure(409, UsernameTaken))
              ==> username.Some? && exists k :: 0 <= k < |users| && k != me && users[k].username == username.value
    ensures r.status.Success? ==>
              && r.status == Success(200, "User updated successfully")
              && OnlyAt(users, r.users, me)
              && r.users[me] == users[me].(name := Pick(name, users[me].name),
                                           username := Pick(username, users[me].username),
                                           email := Pick(email, users[me].email),
                                           gender := if gender.Some? then gender else users[me].gender)
    ensures r.status in {Rejected, Failure(409, EmailTaken), Failure(409, UsernameTaken),
                         Success(200, "User updated successfully")}
  {
    if !schemaOk then Outcome(Rejected, users)
    else if TakenByOther(users, ByEmail(email), me) then Outcome(Failure(409, EmailTaken), users)
    else if TakenByOther(users, ByUsername(username), me) then Outcome(Failure(409, UsernameTaken), users)
    else
      var u := users[me];
      Outcome(Success(200, "User updated successfully"),
              users[me := u.(name := Pick(name, u.name),
                             username := Pick(username, u.username),
                             email := Pick(email, u.email),
                             gender := if gender.Some? then gender else u.gender)])
  }

  // -------------------------------------------------------- email verification

  /** sendEmailVerification: `token` is the fresh random token. */
  function SendEmailVerification(users: seq<User>, email: string, token: string): (r: Outcome)
    ensures (forall i :: 0 <= i < |users| ==> users[i].email != email)
              ==> r == Outcome(Failure(404, EmailNotFound), users)
    ensures forall i: nat :: IsFirstMatch(users, ByEmail(Some(email)), i) ==>
              if users[i].isVerified then r == Outcome(Failure(400, AlreadyVerified), users)
              else && r.status == Success(200, "verification link is send To your profile")
                   && OnlyAt(users, r.users, i)
                   && r.users[i] == users[i].(verificationToken := Some(token))
  {
    match FindOne(users, ByEmail(Some(email)))
    case None => Outcome(Failure(404, EmailNotFound), users)
    case Some(i) =>
      if users[i].isVerified then Outcome(Failure(400, AlreadyVerified), users)
      else Outcome(Success(200, "verification link is send To your profile"),
                   users[i := users[i].(verificationToken := Some(token))])
  }

  /** verifyEmail: redeem a verification token. */
  function VerifyEmail(users: seq<User>, token: string): (r: Outcome)
    ensures (forall i :: 0 <= i < |users| ==> users[i].verificationToken != Some(token))
              ==> r == Outcome(Failure(400, InvalidToken), users)
    ensures forall i: nat :: IsFirstMatch(users, ByVerificationToken(token), i) ==>
              && r.status == Success(200, "Email Verified SuccessFully")
              && OnlyAt(users, r.users, i)
              && r.users[i] == users[i].(isVerified := true, verificationToken := None)
  {
    match FindOne(users, ByVerificationToken(token))
    case None => Outcome(Failure(400, InvalidToken), users)
    case Some(i) =>
      Outcome(Success(200, "Email Verified SuccessFully"),
              users[i := users[i].(isVerified := true, verificationToken := None)])
  }

  // ---------------------------------------------------------- password reset

  /** forgotPassword: `token` is the fresh random token, `now` the clock in milliseconds. */
  function ForgotPassword(users: seq<User>, email: string, token: string, now: int): (r: Outcome)
    ensures (forall i :: 0 <= i < |users| ==> users[i].email != email)
              ==> r == Outcome(Failure(404, EmailNotFound), users)
    ensures forall i: nat :: IsFirstMatch(users, ByEmail(Some(email)), i) ==>
              && r.status == Success(200, "Password Reset Request Sent To your Email")
              && OnlyAt(users, r.users, i)
              && r.users[i] == users[i].(resetToken := Some(token), resetTokenExpiration := Some(now + ResetWindow))
  {
    match FindOne(users, ByEmail(Some(email)))
    case None => Outcome(Failure(404, EmailNotFound), users)
    case Some(i) =>
      Outcome(Success(200, "Password Reset Request Sent To your Email"),
              users[i := users[i].(resetToken := Some(token), resetTokenExpiration := Some(now + ResetWindow))])
  }

  /** The password guard of resetPassword: present, a string, and not blank after trimming. */
  predicate PasswordGiven(newPassword: Option<string>) {
    newPassword.Some? && |Text.Trim(newPassword.value)| != 0
  }

  /** `user.resetTokenExpiration < Date.now()`; an unset expiration never compares below the clock. */
  predicate Expired(u: User, now: int) {
    u.resetTokenExpiration.Some? && u.resetTokenExpiration.value < now
  }

  /** The part of resetPassword after the password guard: look the token up, check its expiry, save. */
  function RedeemResetToken(users: seq<User>, hash: string -> Digest, token: string,
                            password: string, now: int): (r: Outcome)
    ensures (forall i :: 0 <= i < |users| ==> users[i].resetToken != Some(token))
              ==> r == Outcome(Failure(400, InvalidToken), users)
    ensures forall i: nat :: IsFirstMatch(users, ByResetToken(token), i) ==>
              if users[i].resetTokenExpiration.Some? && users[i].resetTokenExpiration.value < now
              then r == Outcome(Failure(400, TokenExpired), users)
              else && r.status == Success(200, "Password successfully reset")
                   && OnlyAt(users, r.users, i)
                   && r.users[i] == users[i].(password := hash(password),
                                              resetToken := None, resetTokenExpiration := None)
  {
    match FindOne(users, ByResetToken(token))
    case None => Outcome(Failure(400, InvalidToken), users)
    case Some(i) =>
      if Expired(users[i], now) then Outcome(Failure(400, TokenExpired), users)
      else Outcome(Success(200, "Password successfully reset"),
                   users[i := users[i].(password := hash(password),
                                        resetToken := None, resetTokenExpiration := None)])
  }

  /** resetPassword: `newPassword` is `None` when the body holds no string. */
  function ResetPassword(users: seq<User>, hash: string -> Digest, token: string,
                         newPassword: Option<string>, now: int): (r: Outcome)
    ensures (newPassword.None? || Text.Blank(newPassword.value))
              ==> r == Outcome(Failure(400, InvalidPassword), users)
    ensures (PasswordGiven(newPassword) && (forall i :: 0 <= i < |users| ==> users[i].resetToken != Some(token)))
              ==> r == Outcome(Failure(400, InvalidToken), users)
    ensures forall i: nat :: PasswordGiven(newPassword) && IsFirstMatch(users, ByResetToken(token), i) ==>
              if users[i].resetTokenExpiration.Some? && users[i].resetTokenExpiration.value < now
              then r == Outcome(Failure(400, TokenExpired), users)
              else && r.status == Success(200, "Password successfully reset")
                   && OnlyAt(users, r.users, i)
                   && r.users[i] == users[i].(password := hash(newPassword.value),
                                              resetToken := None, resetTokenExpiration := None)
  {
    assert PasswordGiven(newPassword) <==> newPassword.Some? && !Text.Blank(newPassword.value) by {
      if newPassword.Some? { Text.TrimEmptyIff(newPassword.value); }
    }
    if !PasswordGiven(newPassword) then Outcome(Failure(400, InvalidPassword), users)
    else RedeemResetToken(users, hash, token, newPassword.value, now)
  }
}
