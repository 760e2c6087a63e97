# Authentication and authorisation core of the LMS backend, in Dafny

This project models the part of the LMS backend that decides who may do what:

- account registration and password login, with a signed token;
- the e-mailed, single-use, one-hour password-reset token;
- replacing a user's role, activating and deactivating accounts, and paging through users;
- the three request guards of `pkg/middleware`, and the two of the second-generation app;
- the static role-to-permission table;
- the second-generation registration and login service;
- start-up seeding of the roles table;
- the input validation and status mapping of the auth and user HTTP handlers.

The database is a class, `Store.Database`, holding the `users` table and the `roles` table as sequences in primary-key order. Each user row carries its assigned roles. Write operations are methods that change that state. Every write takes a `fault` argument: an error message the database may report instead of performing the write. Lookups are pure functions over the rows (module `UserTable`). The row updates the repositories issue are values of type `Patch`, and `UpdateWhere` applies a patch to the row with that id and to no other.

Several facts about the outside world are inputs rather than modelled behaviour:

- **Clock.** A Unix time in seconds.
- **Fresh values.** Fresh UUIDs and reset tokens.
- **bcrypt.** A hash function that may fail. A password matches when it hashes to the stored digest.
- **JWT signing and verification.** Functions from claims to a token and from a token to its claims. A token that fails verification (bad signature, wrong algorithm, expired) has no claims.
- **`uuid.Parse`.** A function that returns the id in canonical form, or nothing.
- **`fmt.Sprint`.** A function.
- **The mail server.** Either accepts the reset e-mail, which is then appended to `outbox`, or fails with a message.

Go's `int` is 64 bits wide on the server's platforms. Where the core does arithmetic on request values, the page offset `(page - 1) * perPage`, the model wraps the result as Go does (`UserTable.WrapInt64`).

The HTTP handlers are pure functions, except where the source builds a slice in a loop. They receive a service as the function it computes for the request's arguments, and a request body as `None` when it did not parse.

Structure, one module per component:

| file | module | component |
|---|---|---|
| wrappers.dfy | Wrappers, Lookup | Option/Result; first-match search |
| strings.dfy | Strings | ASCII versions of the Go `strings` functions used |
| entities.dfy | Entities, Hashing | user and role records, role names, abstract bcrypt |
| claims.dfy | Claims | decoded token claims as JSON values |
| permission.dfy | Permission | `pkg/utils/permission.go` |
| user_table.dfy | UserTable | the queries and row updates of both repositories |
| database.dfy | Store | the database and its write operations |
| auth_service.dfy | Auth | `pkg/auth/service.go` |
| user_service.dfy | Users | `pkg/user/service.go` |
| middleware.dfy | Guards | `pkg/middleware/*.go` |
| app_guards.dfy | AppGuards | `app/middlewares/*.go` |
| app_auth_service.dfy | AppAuth | `app/services/auth_service.go` |
| seed.dfy | Seed | `seedRoles` in `pkg/config/database.go` |
| responses.dfy | Responses | the success/error response envelope |
| auth_handler.dfy | AuthHandlers | `api/handlers/auth_handler.go` |
| user_handler.dfy | UserHandlers | `api/handlers/user_handler.go` |

The source as given does not compile, and the model follows each function as written:

- `auth.AuthRepository` is named but only `UserRepository` exists (pkg/auth/service.go:38, pkg/auth/repository.go:13).
- `RemoveAllRolesFromUser` is missing from every interface (pkg/user/service.go:116).
- The `UserService` interface lacks the methods the handlers call.
- `main.go` passes one repository to the two-argument `NewUserService` (main.go:68).

Both repositories sit over the same database (main.go:61, 67). `Users.UserService` therefore requires its two repositories to be the same object whenever both are present. Handlers whose service methods have no definition take the service as a function.

## Model

| member | source | states |
|---|---|---|
| Lookup.First | pkg/auth/repository.go:41-44 | The index found is the first row satisfying the condition; None exactly when no row does. |
| Strings.TrimPrefix | pkg/middleware/auth_middleware.go:23 | With the prefix, the input is prefix + result; without it, the input comes back unchanged. |
| Strings.TrimPrefixUnchangedIff | pkg/middleware/auth_middleware.go:23-26 | For a non-empty prefix, "trimming changed nothing" holds exactly when the prefix is absent. |
| Strings.Split | app/middlewares/auth_middleware.go:22 | At least one part; no part contains the separator; joining the parts gives the input back. |
| Strings.SplitJoin | app/middlewares/auth_middleware.go:22 | Splitting a join of separator-free parts returns those parts. |
| Strings.SplitTwo | app/middlewares/auth_middleware.go:22-23 | Exactly two parts [a, b] iff the string is a, one separator, b, both free of the separator. |
| Entities.RoleNames | api/handlers/user_handler.go:240-243 | One name per role, in the same order. |
| Claims.Get | pkg/middleware/auth_middleware.go:47 | A missing claim reads as null; a present one as its value. |
| Claims.LoginClaimsJson | pkg/auth/service.go:118-124 | The login token has exactly user_id, email, exp, iat, roles, and `roles` is a plain string. |
| Permission.GetPermissionsByRole | pkg/utils/permission.go:3-33 | Empty exactly for names other than ADMIN, TEACHER, STUDENT; ADMIN has five entries starting with user management; the other two have four; only ADMIN has user management. |
| Permission.AdminExtendsTeacher | pkg/utils/permission.go:5-20 | ADMIN's list is the user-management entry followed by TEACHER's list. |
| Permission.TeacherStudentDisjoint | pkg/utils/permission.go:14-28 | No entry is shared by TEACHER and STUDENT. |
| Permission.LowercaseRoleHasNoPermissions | pkg/utils/permission.go:30-31 | Lower-case role names and the empty role grant nothing: the match is exact. |
| UserTable.FindByEmail | pkg/auth/repository.go:39-48 | Finds a row whose email equals the argument exactly; None iff no row has it. |
| UserTable.FindById | pkg/user/repository.go:46-50 | Finds a row with that id; None iff there is none. |
| UserTable.FindRoleByName | pkg/auth/repository.go:54-62 | Finds a role with that exact name; None iff there is none. |
| UserTable.AppendRoleName | pkg/config/database.go:97-103 | After inserting a role, a name is found iff it was found before or is the new role's. |
| UserTable.AppendRoleId | pkg/config/database.go:99-103 | After inserting a role, an id is taken iff it was taken before or is the new role's. |
| UserTable.FindByEmailUnique | pkg/auth/repository.go:39-48 | With unique emails, the lookup returns the one row holding that email. |
| UserTable.FindByIdUnique | pkg/user/repository.go:46-50 | With unique ids, the lookup returns the one row holding that id. |
| UserTable.FindByResetToken | pkg/auth/repository.go:85-102 | Not found iff no row holds the token; "invalid reset token" iff the first holder has no expiry; "reset token expired" iff now is strictly after it; otherwise that row. |
| UserTable.FirstHolderUnique | pkg/auth/repository.go:87-89 | The row the token query returns is determined. |
| UserTable.ExpiryBoundary | pkg/auth/repository.go:97-99 | A token is accepted at its expiry instant and refused one second later. |
| UserTable.Apply | pkg/auth/repository.go:76-117 | Each column update changes only its own columns; id and timestamps never change. |
| UserTable.UpdateWhere | pkg/auth/repository.go:104-108 | Same length; rows with the id are patched; every other row is unchanged. |
| UserTable.UpdateUnknownId | pkg/user/repository.go:69-81 | An update matching no row changes nothing. |
| UserTable.UpdateKeepsIds | pkg/user/repository.go:69-74 | Updates keep ids unique and the set of ids the same. |
| UserTable.UpdateKeepsEmails | pkg/user/repository.go:52-66 | Updates keep emails unique, a profile change provided no other row has the new email. |
| UserTable.FindAfterUpdate | pkg/auth/repository.go:104-108 | After an update, the row with that id is the patched old row. |
| UserTable.FindByEmailAfterUpdate | pkg/auth/service.go:147-157 | After a non-profile update of the user found by email, the email lookup finds the patched row. |
| UserTable.SavedTokenFound | pkg/auth/repository.go:76-102 | A saved token finds its own row, patched, until its expiry. |
| UserTable.ReissueInvalidatesOld | pkg/auth/repository.go:76-83 | Saving a new token overwrites the old one, which then finds nothing. |
| UserTable.ClearedTokenUnusable | pkg/auth/repository.go:110-117 | After clearing, a token only that user held finds nothing. |
| UserTable.ResetBurnsToken | pkg/auth/service.go:186-193 | After the password update and the clear, the token finds nothing at any time, and the user has the new hash. |
| UserTable.ResetOutcome | pkg/auth/service.go:174-193 | Starting from the row the token lookup found, the password update and the clear leave that user with the new hash; a token no other row held then finds nothing at any time. |
| UserTable.DeactivateIdempotent | pkg/user/repository.go:69-74 | Deactivating twice equals deactivating once. |
| UserTable.DeactivateActivateRestores | pkg/user/repository.go:69-81 | Deactivating, then activating, an active user restores the table. |
| UserTable.ReplaceRolesLeavesOne | pkg/user/service.go:115-127 | Remove-all then insert leaves the user holding exactly the new role, every other field and every other row unchanged. |
| UserTable.StudentLink | pkg/auth/service.go:65-71 | A new account gains the STUDENT role iff that role exists and linking succeeds, and gains nothing else. |
| UserTable.FindAppended | pkg/auth/service.go:61-63 | After inserting a row whose email was free, the email lookup finds that row. |
| UserTable.AddRoleToAppended | pkg/auth/service.go:61-71 | Linking a role to a just-inserted row changes that row's roles only. |
| UserTable.WrapInt64 | pkg/user/repository.go:37 | Go `int` arithmetic: the result is a 64-bit value congruent to the exact one modulo 2^64, and equals it when that fits. |
| UserTable.Offset | pkg/user/repository.go:37 | Always a 64-bit value; equal to (page-1)*perPage, and non-negative, whenever that product fits in 64 bits. |
| UserTable.OffsetNext | pkg/user/repository.go:37 | While the product fits, the next page starts perPage rows later. |
| UserTable.PageStart | pkg/user/repository.go:38-40 | A positive offset starts the page there (clipped at the end of the table); a non-positive one adds no OFFSET, so the page starts at the first row. |
| UserTable.GetAll | pkg/user/repository.go:27-44 | The total counts every user whatever the page; a page holds at most perPage rows; while the offset fits, the rows are min(perPage, rest) rows from (page-1)*perPage, in order, and a page past the end is empty. |
| UserTable.PageSlice | pkg/user/repository.go:37-43 | Every page, one whose offset wrapped included, is the contiguous run of rows from its start, at most perPage long. |
| UserTable.OffsetWrapRepeatsFirstPage | pkg/user/repository.go:37 | Page 2^62+1 with 4 rows a page wraps to offset 0, and with 3 rows a page to a negative offset; both return the first page again. |
| UserTable.PageK | pkg/user/repository.go:37-43 | While its offset fits, page k is the rows from (k-1)*perPage up to k*perPage, clipped at the end of the table. |
| UserTable.FirstPagesArePrefix | pkg/user/repository.go:37-38 | While no page's offset wraps, pages 1..k together are exactly the first k*perPage rows: nothing skipped, nothing repeated. |
| Store.Database.CreateUser | pkg/auth/repository.go:50-52 | Fails with the fault, or as a duplicate key on a taken id or email; otherwise appends the row; uniqueness is preserved. |
| Store.Database.AssignUserRole | pkg/auth/repository.go:64-66 | Fails with the fault, or as a foreign key violation unless both user and role exist; otherwise adds the role to that user only. |
| Store.Database.RemoveAllRolesFromUser | pkg/user/service.go:116 | Unless it fails, empties that user's roles and touches no other row. |
| Store.Database.SaveResetToken | pkg/auth/repository.go:76-83 | Unless it fails, sets token and expiry together on that user only. |
| Store.Database.UpdatePassword | pkg/auth/repository.go:104-108 | Unless it fails, sets only the password hash, on that user only. |
| Store.Database.ClearResetToken | pkg/auth/repository.go:110-117 | Unless it fails, sets token and expiry to absent on that user only. |
| Store.Database.DeactivateUser | pkg/user/repository.go:69-74 | Unless it fails, sets the active flag false on that user only; an unknown id is no error. |
| Store.Database.ActivateUser | pkg/user/repository.go:76-81 | Unless it fails, sets the active flag true on that user only; an unknown id is no error. |
| Store.Database.UpdateProfile | pkg/user/repository.go:52-66 | Unknown id: not found. Then the fault. Then a duplicate email. Otherwise only name and email change, and the saved row is returned. |
| Store.Database.CreateRole | pkg/config/database.go:99 | Fails with the fault or on a duplicate id; otherwise appends the role; users untouched. |
| Auth.StoredHash | pkg/auth/service.go:52-57 | The digest stored is the hash, or "" when hashing failed. |
| Auth.NewUser | pkg/auth/service.go:54-59 | The new row has the given name and email, is active, has the stored digest, no reset token, no roles. |
| Auth.TokenLifetime | pkg/auth/service.go:101-106 | 24 hours unless an hour override is set, then that many hours. |
| Auth.PrimaryRole | pkg/auth/service.go:109-112 | The first role's name, or "" for a user without roles. |
| Auth.TokenClaims | pkg/auth/service.go:118-124 | The claims carry the user's id, email, the expiry, the issue time and the primary role. |
| Auth.LoginCore | pkg/auth/service.go:82-133 | Unknown email: invalid credentials. Inactive: deactivated. Wrong password: invalid credentials, in that order. Then a missing secret, then a signing error. Otherwise a session for that user with expiry now + lifetime and the primary role's permissions. |
| Auth.Login | pkg/auth/service.go:77-80 | Succeeds iff LoginCore does, with its token and expiry; failure gives "" and the zero time. |
| Auth.Logout | pkg/auth/service.go:138-140 | Never fails. |
| Auth.NoAccountProbing | pkg/auth/service.go:83-94 | An unknown email and a wrong password get identical answers: empty token, zero time, same message. |
| Auth.DeactivatedRefusedFirst | pkg/auth/service.go:88-90 | A deactivated account is refused whatever password is given. |
| Auth.SessionSound | pkg/auth/service.go:82-133 | Every session is for an active account of that email whose password matched, with a set secret, expiring one lifetime after issue. |
| Auth.RegisterThenLogin | pkg/auth/service.go:45-124 | A newly registered account logs in with its password exactly when signing succeeds; its token's role is STUDENT iff the role was linked, else "". |
| Auth.LoginCoreAdmits | pkg/auth/service.go:88-130 | An active account whose password matches, with a secret set, gets a session exactly when signing succeeds. |
| Auth.HashFailureLocksOut | pkg/auth/service.go:52-57 | An account registered while hashing failed can never log in, when no password hashes to "". |
| Auth.LifetimeInHours | pkg/auth/service.go:101-106 | The lifetime is 24 or the override, times 3600 seconds. |
| Auth.AuthService.Register | pkg/auth/service.go:45-74 | A taken email fails and changes nothing; an insert failure is returned and changes nothing; otherwise exactly one row is appended, STUDENT linked when present, failure to link ignored, and the user returned. |
| Auth.AuthService.GenerateResetToken | pkg/auth/service.go:145-170 | Unknown email: "email not found", nothing changes. A save failure: nothing changes, no mail. Otherwise the user's token and expiry (now + 1 hour) are stored, overwriting any earlier ones. A mail failure is reported with no mail sent; success returns the token and sends one mail. |
| Auth.AuthService.ResetPassword | pkg/auth/service.go:172-197 | A failed lookup gives "invalid or expired token" and changes nothing. Each later failure stops where it happens; a clear failure is reported after the password changed. On success the hash is the new digest and the token is burnt. |
| Users.GetUserById | pkg/user/service.go:83-86 | The user with that id, or gorm's not-found error iff none. |
| Users.UserService.SetUserRole | pkg/user/service.go:97-136 | A missing repository, an unknown user or an unknown role fails before any change. A failed removal changes nothing. A failed link leaves the user with no role. Success leaves exactly the named role. Other users never change. |
| Guards.Authenticate | pkg/middleware/auth_middleware.go:17-38 | Empty header; no exact "Bearer " prefix; failed verification, refused in that order; otherwise the claims of the header minus that one prefix. |
| Guards.AuthMiddleware | pkg/middleware/auth_middleware.go:16-62 | Every rejection is 401; a non-string or non-UUID user_id is rejected; success stores only user_id. |
| Guards.TeacherMiddleware | pkg/middleware/teacher_middleware.go:15-83 | The loop computes the decision: 401 for header and token failures; 403 without roles; string, list and other shapes tested as in the source; on admission user_id, email and roles are stored unchecked. |
| Guards.AdminMiddleware | pkg/middleware/admin_middleware.go:15-67 | The loop computes the decision: 401 for header and token failures; 403 unless roles is a list holding an object named exactly ADMIN; admission stores nothing. |
| Guards.UnauthenticatedIs401 | pkg/middleware/teacher_middleware.go:17-38 | All three guards answer a missing or malformed header, or an unverified token, with 401. |
| Guards.AuthAdmitsIff | pkg/middleware/auth_middleware.go:23-59 | Admission iff exact prefix, verified token, string user_id that parses as a UUID. |
| Guards.BearerIsCaseSensitive | pkg/middleware/auth_middleware.go:23-26 | "bearer " and "Bearer" without its space are format errors. |
| Guards.TeacherListIgnoresNonStrings | pkg/middleware/teacher_middleware.go:59-65 | Appending a non-string element to the role list never changes the teacher test. |
| Guards.TeacherKeepsUncheckedUserId | pkg/middleware/teacher_middleware.go:77-80 | A token with only roles "teacher" is admitted, with a null user_id stored. |
| Guards.AdminNeedsObjectEntry | pkg/middleware/admin_middleware.go:46-64 | A plain "ADMIN" string, a list of plain strings and an empty list are all 403. |
| Guards.AdminIsCaseSensitive | pkg/middleware/admin_middleware.go:55 | An object named "admin" does not grant admin: the entry test AdminMiddleware is specified by compares names exactly. |
| Guards.LoginTokenNeverAdmin | pkg/middleware/admin_middleware.go:46-49 | No token issued by login passes the admin guard, because its roles claim is a string. |
| Guards.LoginTokenTeacher | pkg/middleware/teacher_middleware.go:54-58 | A login token passes the teacher guard iff its role is TEACHER up to case. |
| AppGuards.AuthMiddleware | app/middlewares/auth_middleware.go:11-44 | All rejections are 401; exactly two space-separated parts with a case-insensitive "bearer" scheme; the second part is validated; success stores only userId. |
| AppGuards.AuthHeaderShape | app/middlewares/auth_middleware.go:22-32 | "scheme token" passes iff neither part has a space, the scheme is "bearer" in any case, and the token validates; userId comes from that token. |
| AppGuards.SplitUnique | app/middlewares/auth_middleware.go:22-23 | A string has one way of being two space-free halves around a space. |
| AppGuards.ExtraSpaceRejected | app/middlewares/auth_middleware.go:22-27 | A space inside the token part, doubled or a third part, is a format error. |
| AppGuards.LowercaseSchemeAccepted | app/middlewares/auth_middleware.go:22-27 | "bearer x" passes when "x" validates: the scheme is matched ignoring case (an instance of AuthHeaderShape). |
| AppGuards.DoubleSpaceRejected | app/middlewares/auth_middleware.go:22-27 | "Bearer  x", with two spaces, is a format error (an instance of ExtraSpaceRejected). |
| AppGuards.ThirdPartRejected | app/middlewares/auth_middleware.go:22-27 | "Bearer x y", with three parts, is a format error (an instance of AuthHeaderShape). |
| AppGuards.AnyEqualFold | app/middlewares/authorization.go:25-29 | True iff some allowed role equals the role up to case. |
| AppGuards.Authorize | app/middlewares/authorization.go:10-33 | No token: 401. Non-string role: 403 "invalid role". Admitted iff the role equals an allowed role up to case, else 403 "forbidden". |
| AppGuards.AuthorizeNoneAllowed | app/middlewares/authorization.go:25-31 | With nothing allowed, every token gets 403. |
| AppGuards.AuthorizeOrderFree | app/middlewares/authorization.go:25-31 | Only the set of allowed roles matters, not order or repetition. |
| AppGuards.AuthorizeIgnoresCase | app/middlewares/authorization.go:26 | Role "admin" is admitted when "ADMIN" is allowed (an instance of Authorize's contract). |
| AppGuards.UserLocal | app/middlewares/authorization.go:12-13 | A missing `user` local reads as no token; a stored token reads as its claims. |
| AppGuards.AuthThenAuthorizeRejects | app/middlewares/auth_middleware.go:40 | For every header the auth guard admits, Authorize run on the locals it left answers 401: only `userId` is stored, never the token. |
| AppAuth.NewAppUser | app/services/auth_service.go:49-57 | A fresh id, the given name and email, the digest, active, created and updated now. |
| AppAuth.UserRole | repositories/role_repository.go:33-46 | The role found is in the roles table and linked to the user; none exactly when no table row is linked. |
| AppAuth.UserRoleFoundIff | repositories/role_repository.go:33-46 | When every link points into the roles table, a role is found iff the user has a link. |
| AppAuth.Login | app/services/auth_service.go:74-103 | Same error for unknown email and wrong password; then a user with no role found fails; then signing errors; success gives 15-minute and 7-day tokens and the found role's name. |
| AppAuth.FindByEmailIgnoresActive | app/services/auth_service.go:75-78 | Toggling any active flag changes nothing else about the email lookup's answer. |
| AppAuth.LoginIgnoresActive | app/services/auth_service.go:74-103 | Login gives the same answer whether an account is active or not. |
| AppAuth.RoleCheckedAfterPassword | app/services/auth_service.go:80-90 | A user with no role links fails; with the right password it is told the role fetch failed, otherwise invalid credentials. |
| AppAuth.AppAuthService.Register | app/services/auth_service.go:35-71 | A taken email fails; a hashing error is returned; an insert error is returned; otherwise one row is appended and STUDENT is linked when it exists, failures ignored. |
| Seed.DefaultName | pkg/config/database.go:80-93 | The seeded names are the three role names of the system. |
| Seed.DefaultRole | pkg/config/database.go:80-93 | The three defaults are ADMIN, TEACHER, STUDENT, in that order. |
| Seed.SeedStep | pkg/config/database.go:96-104 | A role is appended iff the lookup reported not-found and the insert succeeds; otherwise nothing changes. |
| Seed.SeedRoles | pkg/config/database.go:79-107 | The loop's effect is the three steps in order; failures skip a role and the loop goes on; users untouched. |
| Seed.SeedOnlyAppends | pkg/config/database.go:95-106 | Existing roles are never changed or removed. |
| Seed.NamePersists | pkg/config/database.go:96-99 | A role name already present stays present. |
| Seed.SeedIdempotent | pkg/config/database.go:95-106 | When all three names exist, seeding changes nothing, whatever the database does: a second run creates nothing. |
| Seed.CleanRunSeedsAll | pkg/config/database.go:95-106 | After an error-free run with fresh distinct ids, all three names exist. |
| Seed.DefaultNamesDistinct | pkg/config/database.go:80-93 | The three default names differ. |
| Seed.NextDefaultFresh | pkg/config/database.go:95-104 | After the first k defaults were appended, the next default's name and id are still free. |
| Seed.CleanRunAppendsAll | pkg/config/database.go:95-106 | On a table without the defaults, an error-free run appends exactly the three roles, in order. |
| AuthHandlers.Register | api/handlers/auth_handler.go:33-45 | A bad body or a service error is 400; success is 201 with the user. |
| AuthHandlers.Login | api/handlers/auth_handler.go:58-82 | A bad body is 400; any login error is 401 with the service's message; success is 200 with token_type "Bearer". |
| AuthHandlers.LoginFailuresLookAlike | api/handlers/auth_handler.go:64-67 | An unknown email and a wrong password get the same 401 answer. |
| AuthHandlers.LogoutToken | api/handlers/auth_handler.go:101-103 | "Bearer " is stripped only when more follows; otherwise the header is passed on unchanged. |
| AuthHandlers.BarePrefixKept | api/handlers/auth_handler.go:101-103 | The header "Bearer " alone is passed on whole, unlike a prefix trim (an instance of LogoutToken's contract). |
| AuthHandlers.Logout | api/handlers/auth_handler.go:95-111 | Empty header: 400; service error: 500; otherwise 200. |
| AuthHandlers.LogoutAlwaysSucceeds | api/handlers/auth_handler.go:105-110 | Over the real service, the answer is 200 exactly when the header is not empty. |
| AuthHandlers.ForgotPassword | api/handlers/auth_handler.go:124-139 | A bad body or empty email is 400; a service error is 400; success shows the email and the token. |
| AuthHandlers.ResetPassword | api/handlers/auth_handler.go:152-163 | A bad body, empty token or empty password is 400; a service error is 400; otherwise 200. |
| AuthHandlers.ValidationPrecedesService | api/handlers/auth_handler.go:126-133 | On an incomplete request the answer does not depend on the service. |
| UserHandlers.ToResponse | api/handlers/user_handler.go:53-58 | The response copies id, name, email and the active flag. |
| UserHandlers.QueryInt | api/handlers/user_handler.go:35-36 | The query value when it is a number that fits in 64 bits, else the default; so the result is always a 64-bit value. |
| UserHandlers.ClampPage | api/handlers/user_handler.go:38-40 | A page below 1 becomes 1; others pass through. |
| UserHandlers.ClampPerPage | api/handlers/user_handler.go:41-43 | A size below 1 becomes 10; others pass through. |
| UserHandlers.ClampIdempotent | api/handlers/user_handler.go:35-43 | Clamping twice is clamping once; no query gives page 1 of 10. |
| UserHandlers.GetAllUsers | api/handlers/user_handler.go:34-73 | A service error is 500; otherwise one response per user, in order, with meta echoing the clamped page and size and the service's total. |
| UserHandlers.PageOfTable | api/handlers/user_handler.go:35-45 | For any query, page and size are 64-bit values, the total is the full count and the page holds at most perPage rows; while the offset fits, those are the rows from the offset on, and none past the end. |
| UserHandlers.GetUserById | api/handlers/user_handler.go:87-106 | A malformed id is 400; any service error is 404; otherwise the user's response. |
| UserHandlers.SetUserRole | api/handlers/user_handler.go:121-149 | A bad body, an empty role and a malformed id are 400, in that order; a service error is 400; the answer echoes the requested role. |
| UserHandlers.SetStatus | api/handlers/user_handler.go:163-182 | A malformed id or a service error is 400; otherwise 200 with the user's status. |
| UserHandlers.DeactivateUser | api/handlers/user_handler.go:163-182 | It fails iff the id is malformed or the service fails, always with 400; otherwise the deactivated user. |
| UserHandlers.ActivateUser | api/handlers/user_handler.go:196-215 | It fails iff the id is malformed or the service fails, always with 400; otherwise the activated user. |
| UserHandlers.MalformedIdStopsEarly | api/handlers/user_handler.go:88-91 | With a malformed id, the four id-taking handlers answer 400 regardless of the service. |
| UserHandlers.RoleCheckedBeforeId | api/handlers/user_handler.go:127-134 | An empty role is reported even when the id is also malformed. |
| UserHandlers.IsNil | api/handlers/user_handler.go:231 | A `user_id` local that was never set or was set to null is nil. |
| UserHandlers.Profile | api/handlers/user_handler.go:229-254 | A nil user_id is 401; a non-null, non-string one panics; a service error is 404; the roles are the profile's role names, in order. |
| UserHandlers.UpdateProfile | api/handlers/user_handler.go:261-284 | A nil or non-UUID user_id is 401; a non-null, non-string one panics; a bad body is 400; a service error is 500; else the updated user. |

## Left out

- bcrypt: hashing and comparison are an abstract function that may fail; a password matches when it hashes to the stored digest. Salted, non-deterministic digests are not modelled.
- JWT: signing, parsing and the HMAC-method check (golang-jwt, utils/jwt.go) are abstract functions; only the claim contents and the lifetimes are modelled.
- SMTP mail (pkg/utils/mail.go): a step that either fails with a message or delivers.
- Redis caching in pkg/user/service.go and pkg/config/redis.go: `GetUserByID` is modelled without its cache. `GetAllUsers` of the service is not part of this model; the handler gets its page from a function.
- Database reads never fail in the model; only writes take a fault. The seeding lookup is the exception, because its error branch is part of the logic.
- Connection, migration and wiring (`ConnectDatabase`, config/config.go, main.go, app/app.go, cmd/server/main.go, routes): plumbing.
- Health and feedback handlers and the feedback package: pass-through I/O.
- controllers/auth_controller.go, repositories/user_repository.go and utils/mapper.go are not part of this model. Of repositories/role_repository.go only the role query by user id is modelled (AppAuth.UserRole).
- The response helpers `utils.Success` and `utils.Error` are not part of the given source. Their envelope is modelled as a datatype.
- Time is whole Unix seconds; the two clock reads of LoginCore are one instant.
- JWT_EXPIRE_HOURS is an optional whole number of hours; `time.ParseDuration` is not modelled.
- `strings.EqualFold`, `ToUpper`, `ToLower` and `TrimSpace` are ASCII only; `fmt.Sprint` is an abstract function.
- The "Invalid token claims" branches of the guards cannot be reached with golang-jwt's default map claims, and are left out.
- The `log.Printf` and `fmt.Printf` lines (seeding results, reset links) are output only.
- JSON `null` versus `[]` for an empty slice in responses is not distinguished.
- Row order is primary-key order; gorm's `First` is the first matching row in that order.
- AppGuards.UserLocal: a `user` local that is neither absent nor a parsed token would panic at Authorize's type assertion in Go; the model reads it as no token.
- Soft delete: `User.DeletedAt` (pkg/entities/user.go:20) gives gorm a default scope that hides soft-deleted rows from every lookup and from both queries of GetAll. The tables here hold live rows only, so the model cannot represent a soft-deleted row. In particular, an email held only by a deleted row passes Register's "email already registered" check in Go but then fails in CreateUser on the unique index (user.go:13). The model does not show that failure.
- Claims.Json: golang-jwt's `MapClaims` decodes JSON numbers as float64. `JNum` holds an integer, so the model has no fractional or rounded claim values; the guards read only string, list and object claims.
- gorm's automatic `updated_at` on updates is not modelled: every update keeps `updatedAt`.
- Seed.SeedRoles: the success and failure log lines are not produced, only the resulting roles table.
- Users.UserService.SetUserRole: the final re-read of the user is taken to succeed, as reads do throughout.
- Store.Database.UpdateProfile: the returned and saved row carries no roles (the row is loaded without them, as in the source), and `updated_at` is not refreshed.
- AuthHandlers.Login: `expires_in` is the expiry passed through an abstract RFC 3339 formatter.
- Guards.TeacherMiddleware: for claim shapes other than a string or a list, the printed form comes from an abstract `fmt.Sprint`.
