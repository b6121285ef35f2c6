# BlogSphere authentication controller, modelled in Dafny

This project models the authentication controller of the BlogSphere blogging
server (`server/src/controllers/auth.controller.js`). The controller is a set
of Express request handlers over the MongoDB user collection: registration,
login, password change, avatar change, profile update, email verification, and
the forgot/reset password flow. Each handler looks up a user document with
`findOne`, checks its conditions in a fixed order, and then does one of two
things. It answers with an error status and saves nothing, or it assigns a few
fields of the document and saves it.

Layout:

- `wrappers.dfy` (module `Wrappers`) holds `Option`, for unset fields and absent request values.
- `users.dfy` (module `Users`) holds the stored `User` record and the `findOne` filters (`Query`).
  `FindOne` returns the first record in collection order that matches a filter.
  The module also defines the store invariant `WellFormed`: usernames are unique, emails are unique, and a reset token is stored exactly when its expiration is.
- `avatar.dfy` (module `Avatar`) models the expression that turns an avatar URL into the public id that is deleted at the image host.
- `text.dfy` (module `Text`) models JavaScript's `String.prototype.trim`, which the reset handler applies to the new password.
- `handlers.dfy` (module `Handlers`) has one pure transition per handler.
  Each takes the user table and yields the response `Status` and the table as saved;
  `Login`, which never saves, yields only the `Status`.
- `properties.dfy` (module `Properties`) proves what the handlers promise together:
  - every handler keeps `WellFormed`;
  - the update handler's conflict checks are exact;
  - registration, password change and login agree;
  - reset and verification tokens are single-use;
  - a reset token works for exactly one hour.
- `controller.dfy` (module `Controller`) has the class `AuthController`.
  It holds the mutable collection `users: seq<User>`.
  Each handler is a method that follows the source step by step: look up, check, assign fields, save.
  Each method is proved equal to its transition in `Handlers` and to keep `Valid()`.

Outside inputs are parameters:

- the random token from `uuidv4` is `token`;
- the clock `Date.now()` is `now` (milliseconds);
- the password hash is the function `hash`.
  The hash is applied when a record with a new password is saved.
  A password check is `hash(p) == stored`.
- The outcome of the schema validation is `schemaOk`.
  A failed validation gives `Rejected` and saves nothing.
- The image host's upload result is `uploaded`.
- In the login and profile-update handlers, a request value that the body may omit is an `Option`.
  An absent value matches no record in a lookup.

A record's identity (`_id`) is its position in the table.

The `verifyEmail` handler (auth.controller.js line 194) is modelled as written.
Unlike every other handler in that file it is not exported, so no router can reach it as the file stands.

Where the intended design and the code differ, the model follows the code:

- The reset handler also refuses a password that is only whitespace, not just an empty one.
- It compares `resetTokenExpiration < Date.now()`, so the exact expiry instant is still accepted.
  An unset expiration never counts as expired.
- Redemption is a read followed by a separate save, not an atomic compare-and-clear.
  The model is sequential.
- In this model, usernames and emails stay unique only through the handlers' own checks.
  Any unique index in the user schema is not modelled.
  The update handler keeps them unique only when they were unique before; it compares against the first record that `findOne` returns.

## Model

| member | source | states |
|---|---|---|
| `Users.FindOne` | server/src/controllers/auth.controller.js:22-24 | `findOne`: the result is a matching record with no match before it, and none is returned exactly when no record matches |
| `Users.FindByIdentityUnique` | server/src/controllers/auth.controller.js:67-69 | with unique identities, a lookup by a user's username or email (alone or in the `$or` filter) finds that user |
| `Avatar.LastIndexOf` | server/src/controllers/auth.controller.js:143 | `lastIndexOf`: the position of the last occurrence of the character, or -1 when it does not occur |
| `Avatar.IndexOf` | server/src/controllers/auth.controller.js:143 | the position of the first occurrence (what `split(".")[0]` cuts at), or -1 |
| `Avatar.AfterLast` | server/src/controllers/auth.controller.js:143 | `substring(lastIndexOf("/") + 1)` is the longest suffix without '/' (the whole string when it has none) |
| `Avatar.BeforeFirst` | server/src/controllers/auth.controller.js:143 | `split(".")[0]` is the longest prefix without '.' |
| `Avatar.PublicId` | server/src/controllers/auth.controller.js:143 | the public id is a prefix of the last path segment, contains neither '/' nor '.', and stops only at a '.' |
| `Avatar.PublicIdRecoversId` | server/src/controllers/auth.controller.js:143 | for a URL `…/id.ext` whose id has no '/' or '.', the public id is exactly `id` |
| `Avatar.PublicIdRecoversBareId` | server/src/controllers/auth.controller.js:143 | for a URL `…/id` without an extension, the public id is exactly `id` |
| `Text.TrimStart` | server/src/controllers/auth.controller.js:289 | strips leading whitespace: the result is a suffix, everything removed is whitespace, and it does not begin with whitespace |
| `Text.TrimEnd` | server/src/controllers/auth.controller.js:289 | strips trailing whitespace: the result is a prefix, everything removed is whitespace, and it does not end with whitespace |
| `Text.TrimEmptyIff` | server/src/controllers/auth.controller.js:289 | `Trim` (`newPassword.trim()`) is `TrimEnd(TrimStart(s))`; its result is empty exactly when the string is `Blank`, every character being whitespace |
| `Handlers.Register` | server/src/controllers/auth.controller.js:17-39 | schema failure changes nothing; 409 and no change when any user has the username or the email; otherwise 201 and exactly one record appended: the given name, email and username, the hashed password, the placeholder avatar, not verified, no tokens |
| `Handlers.Login` | server/src/controllers/auth.controller.js:62-79 | 404 when no user has the username or email; otherwise the first such user decides: 200 when the password hashes to its stored hash, else 401 |
| `Handlers.ChangePassword` | server/src/controllers/auth.controller.js:112-127 | wrong old password: 401 and the store (stored hash included) untouched; otherwise 200 and only that user's password field becomes the new hash |
| `Handlers.AvatarToDelete` | server/src/controllers/auth.controller.js:137-145 | an image is deleted exactly when a file came and the current avatar is non-empty; the id is exactly the public id: a prefix of the avatar's last segment, without '/' or '.', that runs up to the first '.' or the segment's end |
| `Handlers.ChangeAvatar` | server/src/controllers/auth.controller.js:133-155 | 400 without a file, 500 when the upload failed, both without change; otherwise only that user's avatar becomes the uploaded URL |
| `Handlers.Pick` | server/src/controllers/auth.controller.js:183-186 | `value \|\| current`: a supplied non-empty value replaces the current one, otherwise the current one stays |
| `Handlers.UpdateUser` | server/src/controllers/auth.controller.js:161-188 | the outcome is one of the rejection, the email 409, the username 409 or 200; a 409 names a value that another user holds and saves nothing; on success only the caller's record changes, each field replaced only by a non-empty value |
| `Handlers.SendEmailVerification` | server/src/controllers/auth.controller.js:211-226 | 404 for an unknown email, 400 when that user is already verified, both without change; otherwise only that user's verification token is set |
| `Handlers.VerifyEmail` | server/src/controllers/auth.controller.js:194-205 | 400 and no change when no user holds the token; otherwise the first holder becomes verified and its token is cleared, and nothing else changes |
| `Handlers.ForgotPassword` | server/src/controllers/auth.controller.js:248-260 | 404 and no change for an unknown email; otherwise only that user's reset token and its expiration (now + 3600000 ms) are set, together |
| `Handlers.ResetPassword` | server/src/controllers/auth.controller.js:282-306 | checks in order, each without change: a missing or whitespace-only password gives "Invalid password" whatever the token; no holder gives "Invalid token"; an expiration strictly before now gives "Token expired"; otherwise only the holder changes: new password hash, token and expiration both cleared |
| `Handlers.RedeemResetToken` | server/src/controllers/auth.controller.js:294-306 | once the password is accepted: no holder of the token gives "Invalid token"; the first holder with an expiration below the clock gives "Token expired"; otherwise only that record changes, taking the hashed password and losing its token and expiration |
| `Properties.RegisterKeepsWellFormed` | server/src/controllers/auth.controller.js:22-39 | registration keeps usernames and emails unique and reset pairs matched |
| `Properties.ChangePasswordKeepsWellFormed` | server/src/controllers/auth.controller.js:117-127 | a password change keeps the store invariant |
| `Properties.ChangeAvatarKeepsWellFormed` | server/src/controllers/auth.controller.js:153-155 | an avatar change keeps the store invariant |
| `Properties.SendEmailVerificationKeepsWellFormed` | server/src/controllers/auth.controller.js:213-226 | storing a verification token keeps the store invariant |
| `Properties.VerifyEmailKeepsWellFormed` | server/src/controllers/auth.controller.js:196-205 | redeeming a verification token keeps the store invariant |
| `Properties.ForgotPasswordKeepsWellFormed` | server/src/controllers/auth.controller.js:256-260 | setting a reset token sets its expiration too, so reset pairs stay matched |
| `Properties.ResetPasswordKeepsWellFormed` | server/src/controllers/auth.controller.js:294-306 | redeeming a reset token clears it and its expiration together |
| `Properties.UpdateUserConflicts` | server/src/controllers/auth.controller.js:168-180 | under the invariant: the email 409 comes exactly when another user holds the email; the username 409 comes exactly when there is no email clash and another user holds the username; otherwise success |
| `Properties.UpdateUserKeepsWellFormed` | server/src/controllers/auth.controller.js:168-188 | a profile update keeps usernames and emails unique across users |
| `Properties.LoginByUsername` | server/src/controllers/auth.controller.js:67-79 | under the invariant, logging in with a user's username succeeds exactly when the password hashes to that user's stored hash, and otherwise gives 401 |
| `Properties.RegisterThenLogin` | server/src/controllers/auth.controller.js:22-79 | right after a successful registration, logging in with that username and password succeeds |
| `Properties.ChangePasswordThenLogin` | server/src/controllers/auth.controller.js:119-125 | after a successful change, the new password logs in, and the old one gives 401 when the two hashes differ |
| `Properties.ResetTokenSingleUse` | server/src/controllers/auth.controller.js:294-304 | once a reset token held by one user is redeemed, redeeming it again gives "Invalid token" and changes nothing |
| `Properties.VerificationTokenSingleUse` | server/src/controllers/auth.controller.js:196-203 | once a verification token held by one user is redeemed, redeeming it again gives "Invalid token" and changes nothing |
| `Properties.ForgotThenReset` | server/src/controllers/auth.controller.js:256-304 | a fresh reset token stored at time `now` is redeemed at `later` exactly when `later <= now + 3600000`, and otherwise gives "Token expired" |
| `Properties.SendThenVerify` | server/src/controllers/auth.controller.js:194-226 | a fresh verification token sent to an unverified user redeems, leaving that user verified with the token cleared |
| `Controller.AuthController.RegisterUser` | server/src/controllers/auth.controller.js:17-60 | keeps the invariant, saves nothing on failure, and does what `Handlers.Register` describes |
| `Controller.AuthController.LoginUser` | server/src/controllers/auth.controller.js:62-96 | changes nothing (no `modifies`) and answers what `Handlers.Login` describes |
| `Controller.AuthController.ChangeCurrentPassword` | server/src/controllers/auth.controller.js:112-131 | keeps the invariant, saves nothing on failure, and does what `Handlers.ChangePassword` describes |
| `Controller.AuthController.ChangeAvatar` | server/src/controllers/auth.controller.js:133-159 | keeps the invariant, saves nothing on failure, reports the public id it deletes, and does what `Handlers.ChangeAvatar` describes |
| `Controller.AuthController.UpdateUser` | server/src/controllers/auth.controller.js:161-192 | keeps the invariant, saves nothing on failure, and does what `Handlers.UpdateUser` describes |
| `Controller.AuthController.VerifyEmail` | server/src/controllers/auth.controller.js:194-209 | keeps the invariant, saves nothing on failure, and does what `Handlers.VerifyEmail` describes |
| `Controller.AuthController.SendEmailVerification` | server/src/controllers/auth.controller.js:211-246 | keeps the invariant, saves nothing on failure, and does what `Handlers.SendEmailVerification` describes |
| `Controller.AuthController.ForgotPassword` | server/src/controllers/auth.controller.js:248-280 | keeps the invariant, saves nothing on failure, and does what `Handlers.ForgotPassword` describes |
| `Controller.AuthController.ResetPassword` | server/src/controllers/auth.controller.js:282-311 | keeps the invariant, saves nothing on failure, and does what `Handlers.ResetPassword` describes |

## Left out

- `Handlers.SendEmailVerification` and `Handlers.ForgotPassword` (and their controller methods) are modelled only for a supplied email: the request body is unchecked, and what a lookup on an omitted `email` returns depends on the database driver, which is not modelled.
- `logoutUser` and `getCurrentUser` are left out. They only clear or echo a cookie and never touch the collection.
- The schemas (`registerSchema`, `loginSchema`, `changePasswordSchema`, `updateUserSchema`) are not part of this model. Their verdict is the parameter `schemaOk`. The HTTP status of a schema failure is decided by error middleware that is also not part of this model, so the model gives the plain `Rejected`.
- The password hash and `isPasswordCorrect` live in the user model, which is not part of this model. `hash` is a deterministic function and the check is equality, so bcrypt's salting and constant-time comparison are not modelled.
- Access-token generation, cookies and the projected user returned in response bodies (`.select(...)`) are not modelled. Only the status code and message are.
- Mail dispatch (`sendMail`) is not modelled. The source saves the token before it sends the mail, so a failed send still leaves the token stored. The model's success status stands for a delivered mail.
- The image host (`uploadImage`, `deleteImage`) is outside the model. The upload result is the parameter `uploaded`. The deletion is reported only as the public id handed to it.
- The 500 "Failed to create user" of `registerUser` cannot arise in the model, because the record that is read back has just been appended.
- The signed-in user (`req.user`) is assumed to exist (`me < |users|`). The authentication middleware that provides it is not part of this model.
- A filter value that the request omits matches no record. What the ORM does with an undefined filter value is not modelled.
- Role, timestamps and refresh tokens are left out. The handlers never read or write them.
- Concurrency is left out. Two racing redemptions of one token are not modelled, because the source reads and then saves separately.
- `Handlers.UpdateUser`: its own contract states only one direction for each 409: a 409 implies that another user holds the value. The converse depends on the store invariant and is proved separately as `Properties.UpdateUserConflicts`.
- `Properties.ResetTokenSingleUse` and `Properties.VerificationTokenSingleUse` assume that no other user holds the same token, which is what the random `uuidv4` tokens give in practice. Without that assumption they would not hold as stated. The handler contracts still show that the redeemed record no longer holds the token.
- `Properties.ForgotThenReset` and `Properties.SendThenVerify` likewise assume a token that no user held before.
