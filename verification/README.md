# Customer support platform: account, role and announcement core

A Dafny model of the deterministic core of an Express/Mongoose REST backend for
a customer support platform. It covers:

- the exception hierarchy and the global error handler;
- the role and authority model, its request schema, and the authority guard;
- the Bearer-token middleware;
- the account lifecycle of `AuthService`: login with lockout after three
  failures, registration, single-use verification/reset/unlock tokens with
  expiry, token revocation on password change, and the older
  `auth.services` module where it differs;
- the user and role repositories and services, with their legacy variants;
- the DTO mapper and the `$set` documents written to users;
- the role seed script;
- the user request schemas (password strength, VAT, profile);
- the Mongo unit of work (session, commit, rollback);
- the upload middleware's filter, stored names and error translation;
- the announcement service's transactional create/update/delete, paired with
  file clean-up;
- the e-mail composer (`{{KEY}}` template filling) and the authentication
  endpoints that undo their writes when the mail cannot be sent.

The model uses these conventions:

- Collections are sequences in natural order. `findOne` returns the first
  match, and updates rewrite the first match in place.
- Clocks, password hashing and comparison, JWT signing and verification, id and
  token generation, and the mail transport are not modelled. Each is a
  parameter: a value, a verdict or a `Delivery` outcome.
- Every operation returns its error path as a value, and the error handler maps
  it to a status and body.
- Repository failures inside the announcement transactions are injected by
  call number. This lets the proofs cover every point where a write can fail.

Modules follow the source layout: `Common`, `Text`, `Errors`, `Roles`, `Users`,
`UserRepository`, `Mapper`, `UnitOfWork`, `AuthService`, `LegacyAuth`,
`AuthMiddleware`, `UserService`, `RoleService`, `Seed`, `UserSchemas`,
`Upload`, `AnnouncementService`, `Email` and `AuthController`.

## Model

| member | source | states |
|---|---|---|
| Errors.Raise | src/core/exceptions/app.exceptions.ts:16-55 | Each application exception's code is the caller's code with the class name appended, except the server exception, which keeps the caller's code. |
| Errors.ValidationError | src/core/exceptions/app.exceptions.ts:57-66 | The validation exception appends its fixed suffix to the given message and keeps the field and form errors. |
| Errors.HandleError | src/middlewares/error.middlewares.ts:26-123 | The response for each thrown kind. An application exception gets its class's status (404, 409, 400, 401, 403 or 500) with its code and message. A validation exception gets 400 with `ValidationError`, its message and its field and form errors. A duplicate key (11000) gets 409 `ObjectAlreadyExists`. Any other server error falls through to the plain-Error branch: 500 `InternalServerError` with its own message. A network error gets 503 `MongoDbServiceUnavailable`. ODM validation and cast errors get 400 `ObjectInvalidArgument` with their fixed messages. A plain Error gets 500 with its message, and anything else 500 "An unknown error occurred". |
| Errors.DriverResponse | src/middlewares/error.middlewares.ts:78-114 | A duplicate key is 409 `ObjectAlreadyExists` with the fixed duplicate message. Any other server error is 500 `InternalServerError` with its own message. A network error is 503 `MongoDbServiceUnavailable` with the fixed message. |
| Errors.OdmResponse | src/middlewares/error.middlewares.ts:89-104 | ODM validation and cast errors are both 400 `ObjectInvalidArgument`, each with its fixed message. |
| Errors.HandlerStatuses | src/middlewares/error.middlewares.ts:26-123 | Only 400, 401, 403, 404, 409, 500 and 503 are ever sent. The field-error body comes exactly from validation exceptions, 503 exactly from network errors, and 409 exactly from an already-exists exception or a duplicate key. |
| Errors.StatusIdentifiesClass | src/middlewares/error.middlewares.ts:32-56 | Apart from the server and generic exceptions, two application exceptions that get the same status are of the same class. |
| Errors.RaisedBodyCarriesCode | src/middlewares/error.middlewares.ts:18-24 | The handler's body for a raised exception carries the suffixed code and the message unchanged. |
| Roles.ResourceNames | src/core/interfaces/role.interfaces.ts:9 | The resource list has the five resource names, in declaration order. |
| Roles.ActionNames | src/core/interfaces/role.interfaces.ts:8 | The action list is exactly READ, CREATE, UPDATE, DELETE. |
| Roles.ResourcesComplete | src/core/interfaces/role.interfaces.ts:9-17 | The resource type and the resource list name the same resources. |
| Roles.ActionsComplete | src/core/interfaces/role.interfaces.ts:8-11 | The action type and the action list name the same actions. |
| Roles.ParseResource | src/schemas/role.schemas.ts:5 | A string is accepted as a resource exactly when it is one of the enumerated names, and it parses to the resource with that name. |
| Roles.ParseAction | src/schemas/role.schemas.ts:6 | A string is accepted as an action exactly when it is one of the enumerated names. |
| Roles.HasAuthority | src/middlewares/auth.middlewares.ts:49-52 | A role may do an action on a resource exactly when one of its authorities names that resource and lists that action. |
| Roles.HasAuthorityPermutation | src/middlewares/auth.middlewares.ts:49-52 | The capability test does not depend on the order of the authorities. |
| Roles.HasAuthorityMonotone | src/middlewares/auth.middlewares.ts:49-52 | Adding authorities never takes a capability away. |
| Roles.ParseActions | src/schemas/role.schemas.ts:6 | An action array is accepted exactly when every element is an enumerated action; the parsed list keeps the order. |
| Roles.ParseAuthority | src/schemas/role.schemas.ts:4-7 | One authority object is accepted exactly when its resource and all its actions are valid. |
| Roles.ParseAuthorities | src/schemas/role.schemas.ts:11 | The authorities array is accepted exactly when each authority is; an empty array is accepted. |
| Roles.ParseRole | src/schemas/role.schemas.ts:9-14 | A role body is accepted exactly when its name is non-empty and its authorities are valid. |
| Roles.ParseRenderRole | src/schemas/role.schemas.ts:9-12 | Every role with a non-empty name survives the round trip through its request body. |
| Users.SetPair | src/models/user.model.ts:36-41 | Setting a token pair writes the given token and expiry and leaves the other pairs alone; clearing removes both. |
| Users.Apply | src/repository/UserRepository.ts:62-69 | Each field the `$set` names is overwritten with the given value, and every other field keeps its stored value. Id, email, VAT, tickets and announcements are never touched. |
| Users.ApplyIdempotent | src/repository/UserRepository.ts:86-95 | Writing the same `$set` twice is the same as writing it once, and an empty `$set` changes nothing. |
| Users.NewUser | src/models/user.model.ts:28-49 | A new user gets the schema defaults: disabled, unverified, zero failed logins, empty lists, no reset or unlock token. |
| UserRepository.FindByEmail | src/repository/UserRepository.ts:28-32 | Returns the first user with the email, or nothing exactly when no user has it. |
| UserRepository.FindById | src/repository/UserRepository.ts:24-26 | Returns the first user with the id, or nothing exactly when no user has it. |
| UserRepository.FindAllByRoleId | src/repository/UserRepository.ts:18-22 | Lists every user that references the role and only those. The list is empty exactly when no user references it. |
| UserRepository.FindAllByRoleIdInOrder | src/repository/UserRepository.ts:18-22 | The listing keeps natural order: a concatenation lists each part in turn, and a single user is listed exactly when it holds the role. |
| UserRepository.IsValidEmail | src/repository/UserRepository.ts:40-44 | True exactly when no stored user has the email. |
| UserRepository.IsValidVat | src/repository/UserRepository.ts:45-48 | True exactly when no stored user has the VAT number. |
| UserRepository.Create | src/repository/UserRepository.ts:50-52 | Inserts the user, or fails with a duplicate-key error and changes nothing when the user would break a unique index (id, email, VAT; see src/models/user.model.ts:29-30). |
| UserRepository.UpdateUserByEmail | src/repository/UserRepository.ts:86-95 | Overwrites only the supplied fields of the first user with the email and returns it; with no such user it returns null and changes nothing. |
| UserRepository.UpdateById | src/repository/UserRepository.ts:62-69 | The same update, addressed by id. |
| UserRepository.UpdateAt | src/repository/UserRepository.ts:86-95 | With a match, applies the update at the matched position and returns the document as it is after the update (`new: true`). Every other user is unchanged. With no match, nothing changes and null is returned. |
| UserRepository.Combine | src/repository/UserRepository.ts:113-157 | A `$set` together with the `$unset` of one token pair always leaves that pair empty. |
| UserRepository.FindAfterUpdate | src/repository/UserRepository.ts:86-95 | After an update by email, looking the email up again finds the returned document, and every other user is unchanged. |
| UserRepository.ConsumeToken | src/repository/UserRepository.ts:108-162 | A conditional update matches only when the token equals the stored one and its expiry is strictly later than now. It then applies the update and unsets that token pair; otherwise nothing changes. |
| UserRepository.VerifyByToken | src/repository/UserRepository.ts:108-126 | A matched verification enables and verifies the user and clears the verification pair; the caller's update is ignored. |
| UserRepository.ResetByToken | src/repository/UserRepository.ts:128-143 | A matched reset applies the caller's `$set` to the first matching user and clears its reset pair. Every other user is unchanged. With no match, nothing changes. |
| UserRepository.EnableByToken | src/repository/UserRepository.ts:145-162 | A matched unlock sets only `enabled` and clears the unlock pair of the first matching user. It takes no update from the caller. With no match, nothing changes. |
| UserRepository.ConsumeTokenFrame | src/repository/UserRepository.ts:128-162 | A successful conditional update overwrites one user with that email with the update applied to it, and leaves every other user as it was. |
| UserRepository.FindAfterOverwrite | src/repository/UserRepository.ts:86-95 | Overwriting the first user with an email by one with the same email makes the email find the new user. |
| UserRepository.DeleteByEmail | src/repository/UserRepository.ts:54-56 | Removes the first user with the email and returns it, or returns null and changes nothing. |
| UserRepository.DeleteById | src/repository/UserRepository.ts:58-60 | Removes the first user with the id and returns it, or returns null and changes nothing. |
| UserRepository.FindRoleByName | src/repository/RoleRepository.ts:22-26 | The first role with the name, or nothing exactly when none has it. |
| UserRepository.FindRoleById | src/repository/RoleRepository.ts:18-20 | The first role with the id, or nothing exactly when none has it. |
| UserRepository.UpdateUserRole | src/repository/UserRepository.ts:71-84 | An unknown role name fails NotFound before any user is looked at. Otherwise only the user's role reference changes, or null when the user is unknown. |
| UserRepository.AddAnnouncement | src/repository/UserRepository.ts:172-181 | Puts the announcement id first in the author's list; nothing else changes. |
| UserRepository.RemoveAnnouncement | src/services/AnnouncementService.ts:94 | Removes every copy of the id from the first author with the id, as `$pull` does, and keeps every other id of that list; the author's other fields and every other user stay as they were. An unknown author changes nothing. |
| UserRepository.AddThenRemoveAnnouncement | src/repository/UserRepository.ts:172-181 | Removing an announcement id that was just pushed (and was not there before) restores the collection. |
| UserRepository.Matching | src/repository/UserRepository.ts:194-224 | A joined row is listed exactly when it passes every given filter: case-insensitive prefix on email and VAT, and role name among the requested roles. Order is kept. |
| UserRepository.JoinRoles | src/repository/UserRepository.ts:206-216 | Each joined row pairs a stored user with the role its reference resolves to. A user whose role resolves is always joined; one whose role does not is dropped (`$unwind`). |
| UserRepository.JoinRolesAppend | src/repository/UserRepository.ts:206-216 | The join keeps natural order: joining a concatenation joins each part in turn. |
| UserRepository.MatchingInOrder | src/repository/UserRepository.ts:206-224 | The match list keeps natural order: matching a concatenation matches each part in turn. |
| UserRepository.MatchingOne | src/repository/UserRepository.ts:206-224 | A single user contributes its joined row exactly when its role resolves and the row passes the filter. |
| UserRepository.PageOf | src/repository/UserRepository.ts:226-231 | A page holds the rows from `page * pageSize`, at most `pageSize` of them, cut short at the end. |
| UserRepository.PageOfIndex | src/repository/UserRepository.ts:228-229 | Row `j` of a page is row `page * pageSize + j` of the full list. |
| UserRepository.FilteredPage | src/repository/UserRepository.ts:194-237 | Fails exactly when the page size is 0, because `$limit` refuses it. Otherwise the data is exactly the requested page of the matching rows. The count is the number of matches, and it is absent when nothing matched. |
| UserRepository.RowOnItsPage | src/repository/UserRepository.ts:205-237 | Every matching row appears on the page that covers its position. |
| Mapper.ToRoleView | src/mapper/mapper.ts:17-22 | The role view carries the stored name and authorities. |
| Mapper.ToRoleViewWithId | src/mapper/mapper.ts:24-30 | The same, together with the role's id. |
| Mapper.ToRoleFields | src/mapper/mapper.ts:32-40 | The stored fields are the body's name and authorities. |
| Mapper.RoleFieldsRoundTrip | src/mapper/mapper.ts:32-40 | Storing the mapped fields and reading the role back gives the body's name and authorities. |
| Mapper.ToBaseUser | src/mapper/mapper.ts:43-47 | The base view copies the id, email and enabled flag, and reports `verified` as false whatever is stored. VAT is not part of it. |
| Mapper.ToBaseUserWithRole | src/mapper/mapper.ts:49-55 | The base view together with the populated role's name. |
| Mapper.ToBaseUserWithVerification | src/mapper/mapper.ts:57-61 | The base view together with the stored verification token, or the empty string when there is none. |
| Mapper.BaseViewsHideVerified | src/mapper/mapper.ts:43-61 | No base view tells a verified user from an unverified one. |
| Mapper.ToUserView | src/mapper/mapper.ts:63-76 | The read-only view reports the stored flags and profile as they are, with the role's name. |
| Mapper.PopulatedRole | src/models/user.model.ts:52-55 | The role reference resolves to the first role with that id, or to null when none has it. |
| Mapper.ViewOf | src/mapper/mapper.ts:63-76 | A populated user projects to its view; a dangling role reference makes the projection throw a TypeError. |
| Mapper.ToUserSet | src/mapper/mapper.ts:86-88 | The update document sets exactly the fields the body supplies. |
| Mapper.PatchAsWritten | src/mapper/mapper.ts:78-84 | The patch mapper as written copies `verified` only when `enabled` is a boolean. |
| Mapper.PatchAsWrittenDropsVerified | src/mapper/mapper.ts:81-82 | A patch that only sets `verified` is lost by the mapper as written and applied by the corrected one. |
| Mapper.PatchAsWrittenAgreement | src/mapper/mapper.ts:78-84 | The two mappers agree exactly when the body supplies `enabled` or omits `verified`. |
| Mapper.TruthyPatch | src/services/user.services.ts:121-124 | The legacy patch copies only truthy values: a flag can be switched on but never off. |
| UnitOfWork.Start | src/core/transactions/MongooseUnitOfWork.ts:8-11 | Starting opens an active session whose snapshot is the current database. |
| UnitOfWork.GetSession | src/core/transactions/MongooseUnitOfWork.ts:25-28 | Fails with the session error exactly when no session was ever started; otherwise returns the held session, ended or not. |
| UnitOfWork.Commit | src/core/transactions/MongooseUnitOfWork.ts:13-17 | Succeeds exactly on an active session and keeps the database; on an ended session it fails with the driver's error. |
| UnitOfWork.Rollback | src/core/transactions/MongooseUnitOfWork.ts:19-23 | Succeeds exactly on an active session and restores the snapshot; a failure changes nothing. |
| UnitOfWork.NothingBeforeStart | src/core/transactions/MongooseUnitOfWork.ts:13-27 | Before any start, all three operations raise the session error and change nothing. |
| UnitOfWork.AllOrNothing | src/core/transactions/MongooseUnitOfWork.ts:8-23 | A commit keeps everything done since start, and a rollback undoes all of it. |
| UnitOfWork.EndedSessionNotGuarded | src/core/transactions/MongooseUnitOfWork.ts:13-23 | After a commit the guard still hands out the session, and a rollback fails with the driver's error rather than the session error. |
| AuthService.Authenticate | src/services/AuthService.ts:44-81 | Login fails "Bad credentials" for an unknown email. An unverified user is refused NotAuthorized "User must be verified", and a verified but disabled one "User is disabled", both with no change. It raises the lockout at three failures without comparing the password. On a wrong password it counts one failure; on success it resets the counter and signs the token. |
| AuthService.LockoutIgnoresPassword | src/services/AuthService.ts:56-62 | At three failures the outcome does not depend on the password presented. |
| AuthService.FourthAttemptLockedOut | src/services/AuthService.ts:56-69 | After three wrong passwords in a row, the fourth attempt fails even with the right password and leaves the account disabled with the counter reset. |
| AuthService.ThreeWrongPasswords | src/services/AuthService.ts:63-69 | Three wrong passwords from a fresh counter fail "Bad credentials" each and leave the counter at three. |
| AuthService.WrongPasswordStep | src/services/AuthService.ts:63-69 | One wrong password fails "Bad credentials" and raises the stored counter by one. |
| AuthService.LockoutStep | src/services/AuthService.ts:56-62 | A login at three failures fails with the lockout and disables the user with the counter at zero. |
| AuthService.Registered | src/services/AuthService.ts:110-118 | The registered user has the given email, VAT, role and hashed password, the change time set to now, is disabled and unverified, and holds a verification token expiring 24 hours later. |
| AuthService.RegisterWith | src/services/AuthService.ts:98-121 | Registration refuses a taken email, then a taken VAT, then a missing CLIENT role, storing nothing; otherwise it stores the new user. |
| AuthService.RegisterFresh | src/services/AuthService.ts:98-121 | With a fresh email, VAT and id and the CLIENT role present, registration succeeds and the user can be found by email. |
| AuthService.RegisterUser | src/services/AuthService.ts:98-121 | The class's registration reports a missing CLIENT role as NotFound("Role"). |
| AuthService.Redeem | src/services/AuthService.ts:146-179 | When the conditional update matches, the result is that match. Otherwise, by the user's stored state: an unknown email gives NotFound("User"), a token mismatch "Token not found", and a stored expiry before now runs the expiry action and reports expiry. |
| AuthService.VerifyAccount | src/services/AuthService.ts:260-289 | A matching token enables and verifies the user and clears its verification pair. An expired one deletes the account. |
| AuthService.VerifyAccountRefusals | src/services/AuthService.ts:260-289 | Every other outcome changes nothing. A different token is "Token not found". A token expiring exactly now, or an unknown email, is "User not found". |
| AuthService.VerifyAccountSingleUse | src/services/AuthService.ts:260-284 | With unique emails, a verification token presented a second time fails "Token not found" and changes nothing. |
| AuthService.ExpiryAtClockReportsMissingUser | src/services/AuthService.ts:274-283 | A token whose expiry equals the clock is neither accepted nor reported expired: the caller is told the user does not exist. |
| AuthService.ExpiredVerificationFreesEmail | src/services/AuthService.ts:274-283 | After an expired verification the email is free for a new registration. |
| AuthService.ResetPassword | src/services/AuthService.ts:146-179 | Succeeds exactly when some user with the email holds the token unexpired. It then stores the new hash, records the change time and clears the reset pair of that user only, and the collection keeps its size. |
| AuthService.UnlockAccount | src/services/AuthService.ts:197-229 | A matching unlock enables the user and clears the unlock pair. The number of users never changes. |
| AuthService.ResetPasswordRefusals | src/services/AuthService.ts:146-179 | An expired reset token only clears that user's reset pair and leaves the password unchanged. A different token is "Token not found", and a token expiring exactly now or an unknown email is "User not found"; neither changes anything. |
| AuthService.UnlockAccountRefusals | src/services/AuthService.ts:197-229 | An expired unlock token only clears that user's unlock pair. A different token is "Token not found", and a token expiring exactly now or an unknown email is "User not found"; neither changes anything. |
| AuthService.RecoverPassword | src/services/AuthService.ts:83-96 | An unknown email gets null and no change; otherwise a reset token valid for ten minutes is stored. |
| AuthService.RequestUnlock | src/services/AuthService.ts:123-144 | An unknown or already enabled user gets null and no change; otherwise an unlock token valid for ten minutes is stored. |
| AuthService.ClearPair | src/services/AuthService.ts:181-195 | A rollback clears one token pair of the user with the email and nothing else. |
| AuthService.IssueThenClear | src/controllers/AuthController.ts:87-95 | Writing a token pair and clearing it again restores the collection when the user held no such pair. |
| AuthService.RecoverThenRollback | src/services/AuthService.ts:83-96 | Issuing a reset token and rolling it back restores the collection when the user held no reset token before. |
| AuthService.RequestUnlockThenRollback | src/services/AuthService.ts:123-144 | Issuing an unlock token and rolling it back restores the collection when the user held no unlock token before. |
| AuthService.CheckAccessToken | src/services/AuthService.ts:231-258 | A token is accepted exactly when its user exists, is verified and enabled, and (in the class) the password did not change after the token's issue second. |
| AuthService.IssuedAt | src/services/AuthService.ts:35-42 | The issue claim is the signing time in whole seconds. |
| AuthService.ResetStoresPassword | src/services/AuthService.ts:150-156 | With unique emails, after a successful reset the email finds the same user with the new hash, the change time and no reset pair. |
| AuthService.ResetRevokesOlderTokens | src/services/AuthService.ts:245-247 | A token signed in an earlier second than a successful password reset is refused afterwards. |
| AuthService.SameSecondLoginRefused | src/services/AuthService.ts:245-247 | A token obtained within the same second as a password change, but after it, is refused as well. |
| AuthService.LoginUser | src/services/AuthService.ts:44-81 | The class's login names the user id as the token subject. |
| AuthService.VerifyAccessToken | src/services/AuthService.ts:231-258 | The class refuses a token issued before the last password change. |
| LegacyAuth.LegacyLogin | src/services/auth.services.ts:80-123 | The legacy login signs no subject. |
| LegacyAuth.LoginVersionsAgree | src/services/auth.services.ts:80-123 | Both logins make the same decision, write the same counters and sign the same payload; only the subject differs. |
| LegacyAuth.LegacyRegister | src/services/auth.services.ts:129-148 | A missing CLIENT role surfaces as the role lookup's own NotFound error. |
| LegacyAuth.RegisterVersionsAgree | src/services/auth.services.ts:129-148 | The two registrations differ only in the message for a missing role. |
| LegacyAuth.LegacyVerifyAccessToken | src/services/auth.services.ts:44-68 | Any signature-valid token of an existing, verified and enabled user is accepted. |
| LegacyAuth.TokenSurvivesReset | src/services/auth.services.ts:44-58 | A token issued before a password reset stays usable with the legacy check, while the class refuses it. |
| AuthMiddleware.BearerToken | src/middlewares/auth.middlewares.ts:16-28 | A missing header, a header not starting with "Bearer ", or an empty second piece is refused 401; otherwise the token is the second space-separated piece. |
| AuthMiddleware.BearerHeader | src/middlewares/auth.middlewares.ts:22-28 | After "Bearer " the token is the first space-separated field of the rest, and an empty field is refused. |
| AuthMiddleware.BearerTokenRoundTrip | src/middlewares/auth.middlewares.ts:22-28 | The header a client builds from a space-free non-empty token is read back as that token. |
| AuthMiddleware.EmptyBearerRefused | src/middlewares/auth.middlewares.ts:22-28 | After "Bearer ", the header is refused as an invalid Bearer token exactly when nothing follows or a second space comes next. |
| AuthMiddleware.VerifyTokenAsWritten | src/middlewares/auth.middlewares.ts:16-35 | The guard as written attaches the legacy check's payload. |
| AuthMiddleware.VerifyToken | src/middlewares/auth.middlewares.ts:30 | The corrected guard uses the class's check, which also refuses tokens older than the last password change. |
| AuthMiddleware.StaleTokenAfterReset | src/middlewares/auth.middlewares.ts:30 | After a password reset, a token issued before it passes the guard as written and is refused by the corrected one. |
| AuthMiddleware.RequireAuthority | src/middlewares/auth.middlewares.ts:43-58 | Missing role information is 403. Otherwise it passes exactly when the role holds the authority, and is 403 with the permission message when it does not. |
| AuthMiddleware.RequireAuthorityOrderAndGrowth | src/middlewares/auth.middlewares.ts:49-52 | The verdict ignores authority order, and adding authorities never turns a pass into a refusal. |
| UserService.GetUser | src/services/UserService.ts:36-42 | The view of the user with the id, or NotFound when no user has it. |
| UserService.CreateUser | src/services/UserService.ts:44-69 | Refuses a taken email, a taken VAT and an unknown role in that order. Otherwise it stores the user with that role. |
| UserService.CreateClientIsRegistration | src/services/UserService.ts:44-69 | An administrator creating a CLIENT user does exactly what the legacy self-registration does. |
| UserService.UpdateUser | src/services/UserService.ts:71-79 | Sets the supplied profile and flags of the user with the id, or NotFound; nothing else changes. |
| UserService.UpdateWith | src/services/UserService.ts:71-79 | Applies the `$set` to the first user with the id and answers its view, or fails NotFound without change. The only other failure is a dangling role reference. |
| UserService.LegacyPatchUser | src/services/user.services.ts:119-135 | The legacy patch writes the profile when one is given, and sets a flag only when it is given as true. Nothing else of the user, and no other user, changes. |
| UserService.LegacyPatchCannotDisable | src/services/user.services.ts:122-124 | Asked to disable an enabled user, the class disables it and the legacy patch keeps it enabled. |
| UserService.ChangeRole | src/services/UserService.ts:90-97 | An unknown role is reported before an unknown user; otherwise only the role reference changes. |
| UserService.LegacyChangeRole | src/services/user.services.ts:144-163 | The same order of checks, with the legacy role message. |
| UserService.DeleteUser | src/services/UserService.ts:99-105 | Fails NotFound with no change exactly when no user has the id. Otherwise one user is removed, every other user stays, and with unique ids the id is gone afterwards. |
| UserService.RemoveUserAt | src/services/UserService.ts:99-105 | Removing one user keeps every other user, and keeps ids unique with the removed id absent. |
| UserService.DeleteUserByEmail | src/services/UserService.ts:107-113 | Fails NotFound with no change exactly when no user has the email. Otherwise exactly the first user with it is removed. |
| UserService.DeleteThenGone | src/services/UserService.ts:99-105 | Once deleted (with unique ids), a user can be neither read nor deleted again. |
| UserService.ListUsers | src/services/UserService.ts:24-34 | The page's views and the total count of matching users. |
| UserService.Views | src/services/UserService.ts:28-33 | One view per joined row, in order. |
| RoleService.RoleNameExists | src/repository/RoleRepository.ts:37-42 | True exactly when some stored role has the name. |
| RoleService.InsertRole | src/repository/RoleRepository.ts:6-8 | Stores the role, or fails with a duplicate key and no change when its id or name is taken (src/models/role.model.ts:24). |
| RoleService.UpdateRoleById | src/repository/RoleRepository.ts:28-35 | Overwrites the supplied fields of the first role with the id and returns it, leaving every other role as it was, or returns null. A name held by another role fails with a duplicate key. |
| RoleService.DeleteRoleById | src/repository/RoleRepository.ts:10-12 | Removes the role with the id and returns it, or null and no change. |
| RoleService.GetById | src/services/RoleService.ts:24-30 | The role with the id, or NotFound. |
| RoleService.GetByRoleName | src/services/RoleService.ts:32-38 | The role with the name, or NotFound. |
| RoleService.CreateRole | src/services/RoleService.ts:40-50 | A taken name is refused before anything is written; otherwise the role is stored under the fresh id. |
| RoleService.CreateThenGetById | src/services/RoleService.ts:40-49 | Reading a freshly created role back by its id gives the request's name and authorities. |
| RoleService.UpdateRole | src/services/RoleService.ts:52-62 | Replaces name and authorities of the first role with the id and leaves every other role as it was, or NotFound. A name held elsewhere surfaces as the index's duplicate-key error. |
| RoleService.PatchChanges | src/services/RoleService.ts:64-68 | The patch sets exactly the fields the body supplies. |
| RoleService.PartialUpdateRole | src/services/RoleService.ts:64-78 | Sets a non-empty name and present authorities on the first role with the id, keeps its other fields and every other role, or NotFound. |
| RoleService.DeleteRole | src/services/RoleService.ts:80-90 | A role still referenced by a user is kept (InvalidArgument); an unknown id is NotFound; otherwise it is removed. |
| RoleService.LegacyDeleteRole | src/services/role.services.ts:116-124 | The legacy delete removes the role whether or not users reference it. |
| RoleService.DeleteGuardKeepsReferences | src/services/RoleService.ts:80-84 | With the class's guard every user's role still resolves after a delete; the legacy delete can leave a dangling role reference. |
| Seed.AdminAuthorities | src/seed/roles.seed.ts:7-10 | ADMIN gets every resource with every action. |
| Seed.AdminMayDoAnything | src/seed/roles.seed.ts:7-10 | ADMIN has every capability. |
| Seed.EmployeeCapabilities | src/seed/roles.seed.ts:18-22 | EMPLOYEE's capabilities, exactly. |
| Seed.ClientCapabilities | src/seed/roles.seed.ts:24-28 | CLIENT's capabilities, exactly; it cannot create announcements. |
| Seed.OnlyAdminManagesUsersAndRoles | src/seed/roles.seed.ts:7-34 | Only ADMIN holds any capability on users or roles. |
| Seed.Upsert | src/seed/roles.seed.ts:39-43 | The first role with the name is overwritten, or a new role is appended under the fresh id; other names look up as before. |
| Seed.UpsertStored | src/seed/roles.seed.ts:39-43 | Upserting a spec that is already stored changes nothing. |
| Seed.SeedAll | src/seed/roles.seed.ts:36-46 | After seeding, each of the three names looks up to its seeded authorities. |
| Seed.SeedIdempotent | src/seed/roles.seed.ts:36-46 | Seeding twice leaves the collection as seeding once did. |
| UserSchemas.PasswordIssues | src/schemas/user.schemas.ts:36-44 | The failed password checks, each once, in declaration order: length, lowercase, uppercase, digit, special. A check is listed exactly when it fails. |
| UserSchemas.PhonesIssues | src/schemas/user.schemas.ts:10-13 | No issue is reported exactly when every phone has a type and a number of at least 10 characters. |
| UserSchemas.PasswordFieldIssues | src/schemas/user.schemas.ts:36-44 | One issue under `password` for each rule the password breaks, with that rule's message. |
| UserSchemas.EveryRuleListed | src/schemas/user.schemas.ts:36-44 | The password is strong exactly when no check is listed. |
| UserSchemas.CheckPassword | src/schemas/user.schemas.ts:36-44 | A single pass over the password reports exactly the list of the rule-by-rule definition, order included. |
| UserSchemas.RulesInOrder | src/schemas/user.schemas.ts:36-44 | Filtering the declared checks lists the failed ones rule by rule: length, lowercase, uppercase, digit, special. |
| UserSchemas.ReportFailures | src/schemas/user.schemas.ts:36-44 | From the character classes seen in one pass, the report is exactly the declared-order list of failed checks. |
| UserSchemas.PasswordChecksMonotone | src/schemas/user.schemas.ts:36-44 | Adding a character never makes a passed check fail. |
| UserSchemas.WeakPasswordExample | src/schemas/user.schemas.ts:36-44 | A short lowercase word fails every check but the lowercase one. |
| UserSchemas.StrongPasswordExample | src/schemas/user.schemas.ts:36-44 | Eight characters with one of each class pass. |
| UserSchemas.MatchVat | src/schemas/user.schemas.ts:35 | The scanner accepts exactly strings of ten or more ASCII digits. |
| UserSchemas.PhoneIssues | src/schemas/user.schemas.ts:10-13 | A phone has issues exactly when its type is empty or its number is shorter than ten. |
| UserSchemas.AddressIssues | src/schemas/user.schemas.ts:15-20 | An address has issues exactly when a required field is empty. |
| UserSchemas.ProfileIssues | src/schemas/user.schemas.ts:22-28 | A profile has issues exactly when a present phone or address is incomplete. |
| UserSchemas.RegistrationIssues | src/schemas/user.schemas.ts:33-46 | A register body has no issues exactly when it is valid. |
| UserSchemas.InsertIssues | src/schemas/user.schemas.ts:51-53 | An insert body has no issues exactly when it is a valid registration with an ObjectId role. |
| Upload.FileFilter | src/middlewares/upload.middleware.ts:14-20 | Only JPEG, PNG and PDF pass; anything else is InvalidArgument("File"). |
| Upload.FileFilterAccepts | src/middlewares/upload.middleware.ts:14-20 | Exactly JPEG, PNG and PDF pass, WebP is refused, and a refusal reaches the client as 400. |
| Upload.StoredFilename | src/middlewares/upload.middleware.ts:8-11 | The stored name is the field, the suffix and the last dot-separated piece of the client's name. |
| Upload.StoredExtension | src/middlewares/upload.middleware.ts:9-11 | The extension read back from the stored name is the client file's extension. |
| Upload.MapUploadError | src/middlewares/upload.middleware.ts:28-42 | Limit violations become InvalidArgument("File") with their messages, other library errors a server exception, and any other error passes through. |
| Upload.UploadErrorStatus | src/middlewares/upload.middleware.ts:30-42 | A limit violation reaches the client as 400 "FileInvalidArgument", any other library error as 500 "MulterError", and a filter rejection as 400. |
| Upload.LimitErrorStatus | src/middlewares/upload.middleware.ts:32-38 | Each of the three limit codes is answered 400 with code "FileInvalidArgument". |
| Upload.FileArgumentResponse | src/middlewares/error.middlewares.ts:40-43 | An invalid-argument exception raised with code "File" reaches the client as a 400 with code "FileInvalidArgument" and its message unchanged. |
| Upload.OtherLibraryErrorStatus | src/middlewares/upload.middleware.ts:39 | Any other library code is answered 500 with code "MulterError" and the library's message. |
| AnnouncementService.CleanUpFiles | src/services/AnnouncementService.ts:168-177 | Every path is attempted. A path on disk is removed unless the file system refuses, and the call fails when any attempt failed. |
| AnnouncementService.CreateAttachments | src/services/AnnouncementService.ts:30-42 | One attachment record per file, in file order, under fresh ids; a fault stops the loop. |
| AnnouncementService.DeleteAttachments | src/services/AnnouncementService.ts:88-93 | Deletes each given attachment record and collects its file path; a fault stops the loop. |
| AnnouncementService.CreateWork | src/services/AnnouncementService.ts:30-52 | The attachments, then author lookup, insert and author update; it fails at the first fault. |
| AnnouncementService.Publish | src/services/AnnouncementService.ts:43-52 | An unknown author, an empty title or an empty description fails the announcement's validation: the author id is then undefined and required, and the text fields are required. Nothing is written. Otherwise the announcement is inserted and its id pushed to the author. |
| AnnouncementService.Record | src/services/AnnouncementService.ts:44-51 | After the announcement insert, the author update and the author population either both succeed, leaving the announcement stored and its id pushed to the author, or the injected failure is raised. |
| AnnouncementService.CreateAnnouncement | src/services/AnnouncementService.ts:24-63 | Either every write commits and the files stay, or the database is restored, every uploaded file is removed and the creation failure is reported. |
| AnnouncementService.DeleteWork | src/services/AnnouncementService.ts:83-94 | A fault at the first call re-raises its cause and changes nothing. An unknown id is NotFound with no change. Otherwise the work is the deletion of the found announcement. |
| AnnouncementService.DeleteFound | src/services/AnnouncementService.ts:83-94 | Succeeds exactly when no fault falls in its calls, returning the paths of the populated attachments. It removes the announcement and those attachment records and pulls the id from the author's list; a fault re-raises its cause. |
| AnnouncementService.DeleteStepsOutcome | src/services/AnnouncementService.ts:88-94 | The attachment deletes and the author update succeed exactly when no fault falls in calls 1 to n + 1, and a failure reports the injected cause. |
| AnnouncementService.DeleteStepsWrites | src/services/AnnouncementService.ts:83-94 | On success the paths are those of the populated attachments in order, the announcement is gone, exactly the attachment records with those ids are removed, and the author's list is pulled. |
| AnnouncementService.UnlinkAuthor | src/services/AnnouncementService.ts:94 | The author update runs only after the attachment deletes succeed. A fault at its call re-raises the cause; otherwise it pulls the id from the author's list and leaves announcements and attachments as they were. |
| AnnouncementService.DeleteCommitted | src/services/AnnouncementService.ts:78-104 | When the repository work succeeds, the delete commits and removes from disk every path whose removal the file system allows. |
| AnnouncementService.DeleteAnnouncement | src/services/AnnouncementService.ts:78-104 | A failure before the commit rolls back, keeps every file and re-raises the error. After the commit the attachments' files are removed. |
| AnnouncementService.UpdateWork | src/services/AnnouncementService.ts:118-149 | The populated lookup, the new attachments, deletion of the old ones and the rewrite. |
| AnnouncementService.Rewrite | src/services/AnnouncementService.ts:136-149 | Deletes the old attachment records and stores the announcement with the new attachment ids. |
| AnnouncementService.UpdateAnnouncement | src/services/AnnouncementService.ts:106-165 | A failure before the commit rolls back, removes the new files and is reported as the update failure. After the commit the old files are removed. |
| AnnouncementService.UnknownIdStatuses | src/services/AnnouncementService.ts:83-86 | Deleting an unknown announcement answers 404, and updating one answers 500. |
| AnnouncementService.Populate | src/services/AnnouncementService.ts:88-90 | Population yields, in reference order, a record for each reference that resolves and drops dangling ones. |
| AnnouncementService.PopulateKeepsPresent | src/services/AnnouncementService.ts:136-138 | Every referenced id that has a record is populated. |
| AnnouncementService.DeleteAfterCreate | src/services/AnnouncementService.ts:78-104 | The delete's repository work, on a database holding a just-created announcement, undoes the creation. |
| AnnouncementService.CreateThenDelete | src/services/AnnouncementService.ts:24-63 | Deleting an announcement right after creating it restores the announcements, the authors' lists and the attachment records, and removes exactly the uploaded files. |
| Text.Split | src/middlewares/auth.middlewares.ts:25 | There is at least one piece, no piece holds the separator, and a string without the separator is its own single piece. |
| Text.JoinSplit | src/middlewares/auth.middlewares.ts:25 | Joining the pieces with the separator gives back the original string. |
| Text.SplitJoin | src/middlewares/auth.middlewares.ts:25 | Splitting a join of separator-free pieces gives back the pieces. |
| Text.LastSegment | src/middlewares/upload.middleware.ts:10 | The last piece holds no separator, and a string without the separator is its own last piece. |
| Text.LastSegmentSuffix | src/middlewares/upload.middleware.ts:10 | The last piece ends the string, right after the last separator when there is one. |
| Text.ReplaceAllAbsent | src/services/EmailService.ts:123-129 | Text in which the pattern does not occur is left unchanged. |
| Email.FillOne | src/services/EmailService.ts:125-127 | One global replacement on a rendered template renders the template with that key substituted. |
| Email.FillRender | src/services/EmailService.ts:123-129 | Filling a rendered template renders the substituted template, for brace-free keys and clean values. |
| Email.SubstAllShape | src/services/EmailService.ts:123-129 | Substitution keeps a template well formed and leaves exactly the placeholders whose key was not given. |
| Email.FilledTemplateComplete | src/services/EmailService.ts:123-129 | When every placeholder is given a clean value, no placeholder of any key remains. |
| Email.UngivenPlaceholdersKept | src/services/EmailService.ts:123-129 | A placeholder whose key is not given stays in place. |
| Email.FillAbsent | src/services/EmailService.ts:123-129 | Text holding none of the given placeholders is unchanged. |
| Email.KeysAppliedInOrder | src/services/EmailService.ts:125-127 | A later key's placeholder brought in by an earlier value is filled; the reverse does not happen. |
| Email.TemplateKeys | src/services/EmailService.ts:131-166 | Every built-in template holds its operation's URL placeholder and the year placeholder. |
| Email.Variables | src/services/EmailService.ts:131-166 | Each send operation passes its URL, the year and the address under its own keys. |
| Email.VariablesMatchTemplate | src/services/EmailService.ts:131-166 | In the class, each send operation supplies exactly the placeholders its template holds. |
| Email.Compose | src/services/EmailService.ts:131-174 | The message goes to the given address, with the operation's subject and the filled template. |
| Email.ComposedMailComplete | src/services/EmailService.ts:131-174 | With a clean address, URL and year, every template comes out with no placeholder left. |
| Email.LegacyResetOmitsAddress | src/services/email.services.ts:142-146 | In the older reset and unlock mails the address is never substituted into the body. |
| AuthController.Link | src/controllers/AuthController.ts:54 | The link is the configured prefix, `token=` and the token. |
| AuthController.Register | src/controllers/AuthController.ts:50-66 | Registers and mails the link. On a mail failure it deletes the new user and throws the SMTP error; on success it answers 201. |
| AuthController.RegistrationUndone | src/controllers/AuthController.ts:55-61 | Deleting the user a successful registration just stored gives back the users as they were. |
| AuthController.MailFailureAnswer | src/controllers/AuthController.ts:57-60 | A mail failure is answered 500 with code "EmailServiceException" and the SMTP response. |
| AuthController.RegisterCompensated | src/controllers/AuthController.ts:55-61 | A registration whose mail fails leaves no user behind and answers 500 with the SMTP response. |
| AuthController.RegisterBodies | src/controllers/AuthController.ts:62-65 | The class's answer never carries the verification token; the older handler's always carries it (src/controllers/auth.controllers.ts:53-55). |
| AuthController.SmtpMessage | src/controllers/AuthController.ts:57-60 | The thrown message is the SMTP response when it is a non-empty text, and "Unknown SMTP error" otherwise. |
| AuthController.BodyOf | src/controllers/AuthController.ts:62-65 | The class controller answers the saved user without its verification token. The older handler answers it with the token (src/controllers/auth.controllers.ts:53-55). |
| AuthController.Mail | src/services/EmailService.ts:130-172 | Each kind of mail goes to the user's address with that kind's subject. |
| AuthController.RecoverPasswordHandler | src/controllers/AuthController.ts:83-102 | Issues a reset token and mails the link. On a mail failure it clears the token and throws the SMTP error; otherwise it answers 200. |
| AuthController.RecoveryCompensated | src/controllers/AuthController.ts:87-95 | A recovery whose mail fails leaves the account without a reset token. When it had none before, the users are restored exactly. |
| AuthController.RequestUnlockHandler | src/controllers/AuthController.ts:119-138 | Issues an unlock token and mails the link. On a mail failure it clears the token and throws the SMTP error; otherwise it answers 200. |
| AuthController.UnlockCompensated | src/controllers/AuthController.ts:119-138 | An unlock request whose mail fails restores the users when the account held no unlock token before. |
| AuthController.SameAnswerWhenDelivered | src/controllers/AuthController.ts:83-102 | While mail is delivered, the answer does not reveal whether the account exists. |
| AuthController.MailFailureRevealsAccount | src/controllers/AuthController.ts:87-95 | When the transport fails, an existing account gets 500 and an unknown one 200. |

## Left out

- JWT signing and verification, bcrypt hashing and comparison, and random token/id generation are inputs (verdicts, hashes, fresh values). Their cryptography is not modelled.
- Mail delivery is a `Delivery` input. Template HTML is modelled as literal text and placeholders, and the current year is a parameter. JavaScript's `$`-patterns in replacement strings are not modelled: values are inserted literally.
- `$set` with an `undefined` value (the class's rollbacks and token clears) is modelled as clearing the token pair. The legacy module writes `null` there; both are modelled the same way.
- The case-insensitive regex prefix filter of the user listing is modelled with ASCII case folding. The email format (`isEmail`) and ObjectId syntax are parameters of the schemas.
- Concurrency is not modelled: there is one sequential caller. `Promise.all` in the announcement service is modelled as sequential calls.
- The announcement repository's methods are not all in the sources. The model assumes sessions pass through, lookups return populated attachments, and removal from the author's list is a `$pull`. Commit is modelled as never failing.
- UnitOfWork.EndedTransaction: the driver's error for ending an already ended transaction is assumed to be a plain `MongoTransactionError`, so it reaches the client as a 500 carrying its message. Its message "Transaction already ended" is an assumed stand-in: the driver words it per call and state (for a rollback after a commit, "Cannot call abortTransaction after calling commitTransaction"), and the model does not distinguish these.
- `getAllAnnouncements` and `getAnnouncementById` (src/services/AnnouncementService.ts:65-76) are plain reads and are not modelled.
- Multer's stream handling, file ordering and enforcement of the size and count limits are not modelled. The limits (5 MB, 5 files) appear only through the errors they raise. The uniqueness of stored names depends on the clock and randomness and is not modelled.
- The login, verify, reset and unlock controllers only forward to the service, so they are modelled through the service operations. The role and user controllers, routes, request validators, rate limiter and logging are not modelled.
- The role model's defaults (`[]` for omitted actions or authorities) are not modelled: the role schema requires both arrays, so they never apply to validated input.
- One clock value `now` stands for both the service's `new Date()` (src/services/AuthService.ts:262) and the database's `now()` inside the conditional update. With two separate readings, a token that expires between them is also reported as a missing user; AuthService.ExpiryAtClockReportsMissingUser covers only the single-clock case.
- The schemas' minimum lengths (`.min(8)` for passwords, `.min(10)` for phone numbers) count characters here; Zod counts UTF-16 code units, so the two differ on characters outside the Basic Multilingual Plane.
- The listing's `^${filters.email}` and `^${filters.vat}` (src/repository/UserRepository.ts:197-202) are unescaped regular expressions, so characters such as `.` or `+` in a filter act as metacharacters. The model compares the filter literally, as a case-insensitive prefix.
- UserService.DeleteUser: the compensation in registration deletes a user that was just stored, so its NotFound branch is modelled but cannot occur there.

## Findings

| source | as written | input that shows it | evidently intended | confidence | as-written member | corrected member |
|---|---|---|---|---|---|---|
| src/middlewares/auth.middlewares.ts:30 | The Bearer guard verifies with the legacy `verifyAccessToken`, which does not check whether the password changed after the token was issued | A token issued before a successful password reset, presented afterwards, is let through | Use the class's check (src/services/AuthService.ts:231-258), which refuses tokens older than the last password change | not executed | AuthMiddleware.VerifyTokenAsWritten (shown by AuthMiddleware.StaleTokenAfterReset) | AuthMiddleware.VerifyToken |
| src/mapper/mapper.ts:82 | The patch mapper copies `verified` only when `typeof dto.enabled === "boolean"` | A patch body `{verified: true}` without `enabled` leaves the stored flag unchanged | Copy `verified` when it is itself a boolean, as the update mapper does | not executed | Mapper.PatchAsWritten (shown by Mapper.PatchAsWrittenDropsVerified) | Mapper.ToUserSet |
