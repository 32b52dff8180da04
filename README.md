# School backend: sessions, users, courses, teachers and students

This project models the core of a NestJS/Prisma REST backend for a school. Teachers own courses, students
enrol in courses, and every account logs in with an e-mail and password. It then proves properties of that
model. The model covers:

- the session state machine: register, login, token issue, refresh-token rotation and logout. Each user
  row holds the hash of the user's current refresh token, and `refresh` and `logout` read and rewrite it;
- the JWT lifetime parser and its copy inside the JWT module factory;
- the access-token strategy and the course-owner guard;
- page/limit pagination;
- database URL resolution, in the application and in the deployment script;
- the repositories and services for courses, teachers and students, including the course–student
  enrollment relation;
- the in-memory student registry of the first-day API.

## Structure

Modules follow the program's structure.

- `Base`: shared helpers, `Option`/`Result`, the error kinds, JavaScript's `trim`/`toLowerCase`, and
  sequence filtering, first match and paging.
- `Crypto`: JWT signing and bcrypt. A `Token` is either `Signed(claims, key)` or an unusable
  `Unsigned` value. `Verify` recovers the claims only under the signing key and before their `exp`.
  `TokenText` is the compact serialization: the fixed HS256 header, then the base64url encoding of the
  UTF-8 JSON payload with its members in the order jsonwebtoken writes them (`iat` and `exp` last). The
  HMAC segment is symbolic: the encoded secret stands in for it. A bcrypt `Digest` keeps the first 72
  UTF-8 bytes of its input, the only ones bcrypt reads, so `Compare` matches every input that agrees
  with the hashed one on those bytes.
- `Store`: the database, as one class `Database` with a field per table (`users`, `teachers`,
  `students`, `courses`, and the `enrollments` relation as a set of pairs). It also has the row
  datatypes and the look-ups by id.
- `UserRepo`, `Users`, `Auth`, `Duration`, `JwtStrategy`: the account and session layer.
- `CourseOwnerGuard`, `Pagination`, `DatabaseUrl`, `Uri`, `DbScript`: decisions, arithmetic and
  configuration.
- `CourseRepo`, `TeacherRepo`, `StudentRepo`, `CoursesSvc`, `TeachersSvc`, `StudentsSvc`: the Prisma
  repositories and the services above them.
- `Day01Students`: the array-backed registry, as classes whose objects are updated in place.

Each operation that changes the database is modelled twice:

- a pure *outcome* function from the old tables to the result and the new tables, whose meaning the
  `…Meaning` lemmas state;
- a method of a class holding the `Database`. The method `modifies` only the tables the source writes,
  and its `ensures` ties the result and the new tables to that outcome.

Modelling conventions:

- Table order stands for `createdAt` order, as if the database clock never runs backwards.
- Generated ids (`randomUUID`, database defaults) and the current time are parameters. A
  `Store.FreshId` precondition says such an id is not yet used.
- Where the code and the written design disagree, the model follows the code:
  - `register` relies on the e-mail unique constraint, so a duplicate address fails with a
    unique-constraint error (`UniqueViolation`), not with a conflict error. Only `UsersService.create`
    checks for a conflict itself.
  - `StudentsService.create` creates the user and then saves a student built without `userId`, so the
    new student row is linked to no user. `StudentsSvc.StudentCreateMeaning` states this, and in the
    same way `TeachersSvc.TeacherCreateMeaning` states that a teacher created through the teachers
    service has `userId` "". The model accepts that row; a foreign key from the teacher's `userId` to
    the users table, if the schema declares one, would make the database refuse it (see Left out).
  - The application treats an explicit empty `DB_PORT` as missing, while the script defaults it to
    5432: see `DbScript.EmptyPortDisagreement`.

## Model

| member | source | states |
|---|---|---|
| Auth.ComparePasswordDigest | src/auth/auth.service.ts:22-32 | a password matches the digest made of it with the configured cost; an attempt matches exactly when its first 72 UTF-8 bytes equal the password's; when both are at most 72 bytes that is exactly the same bytes; two passwords sharing their first 72 characters match each other's digest |
| Auth.DefaultLifetimes | src/auth/auth.service.ts:118-121 | with no lifetime settings the access token lives 900 s ('15m') and the refresh token 604800 s ('7d') |
| Auth.IssueTokensNeedsSecrets | src/auth/auth.service.ts:118-145 | when either JWT secret is missing, issuing fails with "JWT secrets not configured" and the tables are unchanged; issuing succeeds exactly when both secrets are set and the subject exists |
| Auth.IssueTokensIssues | src/auth/auth.service.ts:118-145 | expiresIn is the access lifetime; until it expires, the access token verifies under the access secret to the full payload with type 'access', and the refresh token verifies under the refresh secret to only `sub` with type 'refresh'; afterwards neither verifies; the subject's stored digest is bcrypt's digest of the new refresh token's text, and it matches exactly the texts whose first 72 bytes are those of that text; every other user and every other table is unchanged |
| Auth.IssueTokensKeepsCredentials | src/auth/auth.service.ts:140-141 | issuing keeps the user table's length and changes no user row in any field but its refresh digest |
| Auth.IssueTokensFailsWithoutChange | src/auth/auth.service.ts:118-145 | a failed issue is either the missing-secrets error or record-not-found for an unknown subject, and stores nothing |
| Auth.IssuedTokensVerify | src/auth/auth.service.ts:130-138 | before its expiry each issued token verifies under its own secret to its payload stamped with the issue time and lifetime; from its expiry it does not verify |
| Auth.ValidatedPayload | src/auth/auth.service.ts:92-104 | validateUser yields a payload exactly when an active user has the lowercased e-mail and the password matches; the payload copies that user's id, e-mail, role and profile ids |
| Auth.LoginIff | src/auth/auth.service.ts:106-116 | login succeeds exactly when validateUser yields a payload and the secrets are set; with no payload it fails with "Invalid email or password" and changes nothing; a success reports the lowercased e-mail |
| Auth.RefreshRejectsWithoutChange | src/auth/auth.service.ts:156-176 | each of the four rejections leaves the tables unchanged, and a token that does not verify gives "Invalid or expired refresh token" |
| Auth.RefreshRejectionOrder | src/auth/auth.service.ts:156-176 | the checks run in order: a token that does not verify, then a type other than 'refresh', then a missing, inactive or logged-out user, then a token that does not match the stored digest; each gives Unauthorized with its own message and no change |
| Auth.RefreshAcceptsOnlyCurrentSession | src/auth/auth.service.ts:156-186 | an accepted token is signed with the refresh secret, unexpired and of type 'refresh'; its subject is an active user whose stored digest bcrypt-matches the token's text; the outcome is issuing a pair for the payload rebuilt from that user |
| Auth.RefreshRejectsUnstored | src/auth/auth.service.ts:169-176 | when the stored digest is that of one token's text, a signed token whose text differs from it within its first 72 bytes is rejected |
| Auth.RefreshAcceptsStored | src/auth/auth.service.ts:156-186 | with both secrets set, a refresh-typed token that verifies and whose digest is stored on its active subject is accepted |
| Auth.RefreshRotates | src/auth/auth.service.ts:178-185 | after a successful refresh the subject's stored digest is that of the new refresh token; any token of that subject whose first 72 bytes differ from the new token's is rejected; the new refresh token is accepted until it expires |
| Auth.RefreshJsonShape | src/auth/auth.service.ts:134-137 | a refresh token's JSON payload is `{"sub":…,"type":"refresh","iat":` followed by the issue time, then `,"exp":`, the expiry and `}` |
| Auth.RefreshTokensCollide | src/auth/auth.service.ts:134-140 | any two refresh tokens of one user, whatever their secrets, lifetimes and issue times, have the same first 72 bytes, so each bcrypt-matches the digest of the other |
| Auth.RefreshTextsDiffer | src/auth/auth.service.ts:134-137 | two refresh tokens of one user signed with one secret at different seconds are different texts |
| Auth.StampedCompactsDiffer | src/auth/auth.service.ts:134-137 | payloads that share a head and then differ in the issue time serialize to different token texts under one secret |
| Auth.RefreshReplayAfterRotation | src/auth/auth.service.ts:140-176 | as written: a refresh token the service issued at another second, once used to refresh, differs from the new refresh token and is still accepted on the new state until it expires |
| Auth.RefreshWholeStores | src/auth/auth.service.ts:140-141 | with a whole-token digest, a successful refresh signs the new refresh token for the same subject and stores its whole-token digest on that user, changing nothing else in the row |
| Auth.RefreshWholeRejectsUnmatched | src/auth/auth.service.ts:173-176 | with a whole-token digest, a token whose text does not match its user's stored digest is rejected |
| Auth.RefreshWholeAcceptsStored | src/auth/auth.service.ts:156-186 | with a whole-token digest, an unexpired refresh-typed token whose text matches the digest on its active subject is accepted when both secrets are set |
| Auth.IssueTokensWholeSucceeds | src/auth/auth.service.ts:118-145 | with both secrets set and the subject present, issuing with a whole-token digest succeeds |
| Auth.RefreshWholeRevokesOthers | src/auth/auth.service.ts:178-185 | with a whole-token digest, after a successful refresh every token of that subject whose text differs from the new refresh token is rejected |
| Auth.RefreshWholeAcceptsIssued | src/auth/auth.service.ts:178-185 | with a whole-token digest, the new refresh token is accepted until it expires |
| Auth.RefreshWholeRotates | src/auth/auth.service.ts:178-185 | with a whole-token digest, after a successful refresh exactly the new refresh token text is accepted for that subject, until it expires |
| Auth.RefreshWholeRejectsReplay | src/auth/auth.service.ts:140-176 | with a whole-token digest, a refresh token the service issued at another second is rejected once it has been used to refresh |
| Auth.LogoutIdempotent | src/auth/auth.service.ts:188-190 | logging out twice equals logging out once |
| Auth.LogoutEndsSession | src/auth/auth.service.ts:188-190 | after logout every refresh for that user fails, and other users are unchanged |
| Auth.RegisterRejections | src/auth/auth.service.ts:35-60 | a taken e-mail fails with a unique-constraint error; otherwise a teacher without fullName, or a student missing name, age or grade, fails with its message; every rejection leaves all tables unchanged |
| Auth.ProfileOfFreshUser | src/auth/auth.service.ts:72-84 | a fresh user has no profile, and appending a teacher or student row linked to it gives it that row's id |
| Auth.RegisterTransactionMeaning | src/auth/auth.service.ts:35-76 | a successful transaction appends one user row (lowercased e-mail, password digest, role, active, no session) and one teacher row (with the lowercased e-mail) or student row (active), both linked to the new user, and changes nothing else |
| Auth.RegisterIssuesTokensForNewUser | src/auth/auth.service.ts:78-89 | register returns the new user's id, lowercased e-mail and role, and an access token signed over the new user's payload with the profile id in the slot of its role |
| Auth.UniqueEmailValidates | src/auth/auth.service.ts:92-104 | the only user with the lowercased e-mail, when active and its digest matches the password, validates as itself |
| Auth.RegisterThenLogin | src/auth/auth.service.ts:34-116 | after a successful register, logging in with the same e-mail (any case) and password succeeds for the new user |
| Auth.AuthService.IssueTokens | src/auth/auth.service.ts:118-145 | the method's result and new user table are those of the issue outcome |
| Auth.AuthService.ValidateUser | src/auth/auth.service.ts:92-104 | returns the validated payload and changes nothing |
| Auth.AuthService.Login | src/auth/auth.service.ts:106-116 | result and new user table equal the login outcome |
| Auth.AuthService.Refresh | src/auth/auth.service.ts:156-186 | result and new user table equal the refresh outcome as the code is written, with bcrypt's 72-byte digest |
| Auth.AuthService.Logout | src/auth/auth.service.ts:188-190 | result and new tables equal the logout outcome: the user's stored digest cleared, or record-not-found for an unknown user |
| Auth.AuthService.Register | src/auth/auth.service.ts:34-90 | result and new tables equal the register outcome (transaction, then token issue after commit) |
| Crypto.VerifySigned | src/auth/auth.service.ts:130-138 | a token signed with a non-empty secret verifies under that secret to its claims stamped with `iat` = now and `exp` = now + lifetime while `exp` is in the future, and not from `exp` on |
| Crypto.VerifyNeedsKey | src/auth/auth.service.ts:158-160 | a token verifies only under a non-empty secret it was signed with, and then to its own claims |
| Crypto.TokenTextSigned | src/auth/auth.service.ts:130-138 | a signed token travels as the HS256 header, a dot, the base64url of its UTF-8 JSON claims, a dot and the signature segment |
| Crypto.CompactDeterminesPayload | src/auth/auth.service.ts:130-138 | under one secret, equal token texts have byte-for-byte equal JSON payloads |
| Crypto.Base64UrlAppend | src/auth/auth.service.ts:130-138 | the unpadded base64url of bytes a + b, when a fills whole 3-byte groups, is that of a followed by that of b |
| Crypto.Base64UrlLength | src/auth/auth.service.ts:130-138 | n whole 3-byte groups encode to 4n characters |
| Crypto.Base64UrlInjective | src/auth/auth.service.ts:130-138 | base64url-encoding of byte sequences is injective |
| Crypto.Window | src/auth/auth.service.ts:26-32 | bcrypt reads at most 72 bytes: all of an input of at most 72 bytes, else its first 72 |
| Crypto.CompareHash | src/auth/auth.service.ts:26-32 | a digest matches its input; another input matches exactly when its first 72 UTF-8 bytes are the input's; for inputs of at most 72 bytes that is exactly the same bytes |
| Crypto.SharedPrefixWindow | src/auth/auth.service.ts:30-32 | two inputs agreeing on their first 72 or more characters have the same digest window |
| Crypto.SharedPayloadPrefixCollides | src/auth/auth.service.ts:140-141 | two tokens whose JSON payloads share their first 27 characters have the same first 72 bytes: header, dot and 36 encoded payload characters |
| Crypto.CompareWholeHash | src/auth/auth.service.ts:140-141 | a whole-input digest matches exactly the inputs with the same UTF-8 bytes, and among ASCII texts exactly the hashed text |
| Duration.DigitRun | src/auth/auth.service.ts:147-154 | splits a string into its longest leading run of decimal digits and the rest |
| Duration.MatchDurationIff | src/auth/auth.service.ts:148-150 | the pattern `^(\d+)([smhd])$` matches exactly a non-empty digit string followed by one unit letter, and yields that number and unit |
| Duration.ParseExpiresInMeaning | src/auth/auth.service.ts:147-154 | parseExpiresIn is digits × 1/60/3600/86400 for s/m/h/d when the string matches, else 900 |
| Duration.DefaultDurations | src/auth/auth.service.ts:119-120 | '15m' gives 900 and '7d' gives 604800 |
| Duration.FactoryAgreesWithParseExpiresIn | src/auth/auth.module.ts:19-22 | for every string, the inline computation in the module factory equals parseExpiresIn |
| Duration.JwtModuleFactory | src/auth/auth.module.ts:18-27 | the module's sign options use JWT_ACCESS_SECRET and the computed seconds, 900 when the setting is unset |
| JwtStrategy.StrategySecret | src/auth/strategies/jwt.strategy.ts:9-17 | the strategy can be built exactly when JWT_ACCESS_SECRET is set and non-empty, and then uses it; otherwise "JWT_ACCESS_SECRET is required" |
| JwtStrategy.Validate | src/auth/strategies/jwt.strategy.ts:19-30 | a payload whose type is present and not 'access' is rejected, one without type is accepted; the user copies sub, e-mail and role, turns absent profile ids into null and has no type, iat or exp |
| JwtStrategy.IssuedTokensAuthenticate | src/auth/strategies/jwt.strategy.ts:19-30 | an issued access token authenticates as its payload until it expires and not afterwards; an issued refresh token never authenticates |
| Users.UsersService.FindByEmail | src/users/users.service.ts:13-15 | passes the repository's case-insensitive look-up through |
| Users.UsersService.FindById | src/users/users.service.ts:17-19 | passes the repository's look-up through |
| Users.UsersService.Create | src/users/users.service.ts:21-38 | an e-mail already present (in any case) gives Conflict and no change; otherwise one user is appended with the lowercased e-mail, isActive defaulting to true and no session |
| Users.UsersService.UpdateRefreshTokenHash | src/users/users.service.ts:40-42 | passes the repository's update through |
| UserRepo.ToModelRoundTrip | src/users/repositories/user.repository.prisma.ts:7-31 | toModel keeps every stored column, so the row is recovered from the model; teacherId/studentId are the given profile ids, or null |
| UserRepo.LookupById | src/users/repositories/user.repository.prisma.ts:50-59 | finds the model of the row with that id, and null exactly when no row has it |
| UserRepo.LookupByEmail | src/users/repositories/user.repository.prisma.ts:61-70 | finds the model of the row whose e-mail is the lowercased argument, and null exactly when there is none |
| UserRepo.LookupByEmailIgnoresCase | src/users/repositories/user.repository.prisma.ts:63 | two e-mails with the same lowercasing find the same user |
| UserRepo.SetRefreshHash | src/users/repositories/user.repository.prisma.ts:72-77 | only the given user's refreshTokenHash changes; the table keeps its length and every other row |
| UserRepo.SetRefreshHashIdempotent | src/users/repositories/user.repository.prisma.ts:72-77 | writing the same hash twice equals writing it once |
| UserRepo.SetRefreshHashRowById | src/users/repositories/user.repository.prisma.ts:72-77 | after the write, the look-up by any id finds its old row, with the new hash only on the written user |
| UserRepo.SetRefreshHashLookup | src/users/repositories/user.repository.prisma.ts:72-77 | after the write, the model found by any id is the old one, with the new hash only on the written user |
| UserRepo.UserRepositoryPrisma.FindById | src/users/repositories/user.repository.prisma.ts:50-59 | returns the look-up by id and changes nothing |
| UserRepo.UserRepositoryPrisma.FindByEmail | src/users/repositories/user.repository.prisma.ts:61-70 | returns the look-up by lowercased e-mail and changes nothing |
| UserRepo.UserRepositoryPrisma.Create | src/users/repositories/user.repository.prisma.ts:37-48 | appends a row with e-mail, passwordHash, role and isActive as given and no profile |
| UserRepo.UserRepositoryPrisma.UpdateRefreshTokenHash | src/users/repositories/user.repository.prisma.ts:72-77 | a missing id fails with the record-not-found error and no change; otherwise the table becomes the hash update |
| CourseOwnerGuard.OwnerDecisionMeaning | src/courses/guards/course-owner.guard.ts:18-36 | false with no id or no teacherId; true when the course does not exist; Forbidden when its owner differs; true when the owner is the caller |
| CourseOwnerGuard.PassMeansOwned | src/courses/guards/course-owner.guard.ts:25-35 | when ids are unique, a pass on an existing course means the caller owns it |
| CourseOwnerGuard.CourseOwnerGuard.CanActivate | src/courses/guards/course-owner.guard.ts:18-36 | returns the decision and does not modify the store |
| Pagination.GetTake | src/common/dto/pagination-query.dto.ts:29-31 | take is 20 when limit is absent and lies in 1..100 under validation |
| Pagination.SkipNonNegative | src/common/dto/pagination-query.dto.ts:13-27 | under validation skip is never negative, and the first page skips nothing |
| Pagination.SkipIsWholePages | src/common/dto/pagination-query.dto.ts:23-31 | page n skips n − 1 whole pages: page 1 skips 0 and each later page starts where the previous one ends |
| Pagination.NextPageAdjacent | src/common/dto/pagination-query.dto.ts:23-31 | the next page of a validated query is valid and skip(page + 1) = skip(page) + take |
| Pagination.AdjacentPagesCover | src/common/dto/pagination-query.dto.ts:23-31 | two adjacent windows of a result list together read the window of twice the size, with nothing skipped or repeated |
| DatabaseUrl.MissingMeaning | src/config/database-url.ts:11-23 | a key is listed exactly when it is missing: host, user name and database name when unset or empty, the port only when set to '' (unset defaults to 5432), the password only when unset |
| DatabaseUrl.ResolvedUrlMeaning | src/config/database-url.ts:6-29 | a DATABASE_URL that is not blank is returned trimmed, and the result is non-empty; otherwise the function fails exactly when some key is missing |
| DatabaseUrl.FallbackFromPushes | src/config/database-url.ts:18-32 | the list pushed in the order host, port, user name, password, name is the missing list; when it is empty the result is the built URL, otherwise the error whose message joins the keys with ', ' |
| DatabaseUrl.CollectMissing | src/config/database-url.ts:18-23 | the five checks, pushing in the order host, port, user name, password, name, collect exactly the missing list |
| DatabaseUrl.GetDatabaseUrl | src/config/database-url.ts:6-33 | the method returns the trimmed DATABASE_URL, the missing-variables error or the built URL, as the resolution says |
| DatabaseUrl.PasswordSegmentIsSafe | src/config/database-url.ts:31-32 | the encoded password contains no ':', '@' or '/', so it cannot break the URL's structure |
| Uri.Utf8 | src/config/database-url.ts:32 | a character becomes 1 to 4 bytes, a single byte exactly for ASCII, and then it is the code itself |
| Uri.PercentByte | src/config/database-url.ts:32 | a byte becomes '%' followed by two upper-case hex digits |
| Uri.PercentBytes | src/config/database-url.ts:32 | three characters per byte, each '%' or an upper-case hex digit |
| Uri.EncodeChar | src/config/database-url.ts:32 | an unreserved character stays as it is; any other becomes three characters per UTF-8 byte, starting with '%' |
| Uri.EncodedAlphabet | src/config/database-url.ts:32 | the encoding holds only unreserved characters and '%' |
| Uri.EncodeUnreservedIdentity | src/config/database-url.ts:32 | a string of unreserved characters encodes to itself |
| Uri.EncodeAppend | src/config/database-url.ts:32 | encoding distributes over concatenation |
| Uri.EncodeSpaceExample | src/config/database-url.ts:32 | 'p w' gives 'p%20w': a space is escaped as one byte |
| Uri.EncodeAtExample | src/config/database-url.ts:32 | 'a@b' gives 'a%40b': the '@' that would end the credentials is escaped |
| Uri.EncodeTwoByteExample | src/config/database-url.ts:32 | 'é' gives '%C3%A9': a two-byte UTF-8 character becomes two escapes |
| DbScript.Loaded | scripts/_db.js:11-13 | the loaded environment keeps every variable the process has and adds the file's others |
| DbScript.ProcessEnv.LoadEnv | scripts/_db.js:11-13 | the environment becomes the loaded one |
| DbScript.ProcessEnv.EnsureDatabaseUrl | scripts/_db.js:21-41 | result and new environment equal the ensure outcome |
| DbScript.ScriptUrlMeaning | scripts/_db.js:21-38 | a non-blank DATABASE_URL is returned trimmed; otherwise it fails exactly when host, user name or database name is unset or empty or the password is unset; the built URL encodes user name and password, and its port defaults to 5432 when DB_PORT is unset or empty |
| DbScript.EnsureOutcomeEffect | scripts/_db.js:21-41 | on success DATABASE_URL holds the returned non-empty URL; every other loaded variable keeps its value; on failure the environment is only the loaded one and the error is the "Set DATABASE_URL or …" message |
| DbScript.EnsureTwice | scripts/_db.js:21-41 | a second call resolves the trim of the first URL, so it repeats the first result and environment whenever that URL has no surrounding whitespace |
| DbScript.SecondCall | scripts/_db.js:21-41 | after a success, a second call returns the trim of the first URL and stores it |
| DbScript.EnsureIdempotentForGivenUrl | scripts/_db.js:23-27 | a non-blank DATABASE_URL is returned trimmed, and a second call changes nothing |
| DbScript.ScriptAgreesWithApplication | scripts/_db.js:21-41 | when DATABASE_URL is unset and every part is set (all but the password non-empty) and the user name needs no escaping, the script and the application build the same URL |
| DbScript.EmptyPortDisagreement | scripts/_db.js:29 | with DB_PORT set to '', the script succeeds on port 5432 where the application reports DB_PORT missing |
| Day01Students.Student.constructor | day-01-students-api/students-api/src/students/students.service.ts:18-25 | a student object holds the given values |
| Day01Students.Student.Assign | day-01-students-api/students-api/src/students/students.service.ts:42 | `Object.assign` leaves the object holding the merge of its old values with the dto |
| Day01Students.Assigned | day-01-students-api/students-api/src/students/students.service.ts:42 | each field the dto carries is taken from it, all others are kept, and id and createdAt never change |
| Day01Students.AssignedIdempotent | day-01-students-api/students-api/src/students/students.service.ts:42 | applying the same dto twice equals applying it once |
| Day01Students.IndexOf | day-01-students-api/students-api/src/students/students.service.ts:35 | the first position holding the id, or the list length when no student has it |
| Day01Students.UpdatedEffect | day-01-students-api/students-api/src/students/students.service.ts:40-44 | update merges the dto into the first student with the id and leaves every other position unchanged; with no such student the list is unchanged |
| Day01Students.UpdatedIdempotent | day-01-students-api/students-api/src/students/students.service.ts:40-44 | repeating an update does not change the list further |
| Day01Students.RemovedMeaning | day-01-students-api/students-api/src/students/students.service.ts:46-52 | the kept students are exactly those with other ids; the length is unchanged exactly when none had the id, and then the list is unchanged |
| Day01Students.PassedMeaning | day-01-students-api/students-api/src/students/students.service.ts:54-56 | passed holds exactly the students with grade ≥ minGrade, 50 by default |
| Day01Students.AverageOf | day-01-students-api/students-api/src/students/students.service.ts:58-62 | the average of an empty list is 0 |
| Day01Students.AverageOfConstant | day-01-students-api/students-api/src/students/students.service.ts:58-62 | when all students have the same grade, the average is that grade |
| Day01Students.StudentsService.constructor | day-01-students-api/students-api/src/students/students.service.ts:12-15 | the list starts as a copy of the seed list |
| Day01Students.StudentsService.Create | day-01-students-api/students-api/src/students/students.service.ts:17-28 | appends exactly one new student with the generated id and the dto's fields; earlier entries are unchanged |
| Day01Students.StudentsService.FindAll | day-01-students-api/students-api/src/students/students.service.ts:30-32 | returns the stored list |
| Day01Students.StudentsService.FindById | day-01-students-api/students-api/src/students/students.service.ts:34-38 | returns the first student with the id, or NotFound "Student <id> not found" when there is none |
| Day01Students.StudentsService.Update | day-01-students-api/students-api/src/students/students.service.ts:40-44 | returns what findById returns, keeps the list of objects and changes their values as the update does |
| Day01Students.StudentsService.Remove | day-01-students-api/students-api/src/students/students.service.ts:46-52 | the values become the removal; NotFound exactly when no student had the id, and then nothing changes |
| Day01Students.StudentsService.Passed | day-01-students-api/students-api/src/students/students.service.ts:54-56 | stored objects whose values are exactly the passed values, in stored order |
| Day01Students.StudentsService.AverageGrade | day-01-students-api/students-api/src/students/students.service.ts:58-62 | 0 for an empty list, the average of the values otherwise |
| CourseRepo.WhereForMeaning | src/courses/repositories/course.repository.prisma.ts:30-47 | a course passes the built filter exactly when it is selected: it has the given non-empty teacherId, and for a non-blank search its title or code contains the trimmed term ignoring case |
| CourseRepo.WhereForAbsent | src/courses/repositories/course.repository.prisma.ts:33-46 | there is no filter exactly when the options are absent, or the teacherId is empty and the search absent or blank |
| CourseRepo.WhereForEmpty | src/courses/repositories/course.repository.prisma.ts:36-46 | given options build no filter exactly when the teacherId is empty and there is no search term |
| CourseRepo.CoursesMatching | src/courses/repositories/course.repository.prisma.ts:49-69 | exactly the stored courses that the shared filter selects |
| CourseRepo.PageAgreesWithCount | src/courses/repositories/course.repository.prisma.ts:49-69 | the page has min(take, count − skip) rows, row i is matching row skip + i, and every row is a stored, selected course |
| CourseRepo.FirstMeeting | src/courses/repositories/course.repository.prisma.ts:71-78 | a stored course meeting every given criterion, or null exactly when none does |
| CourseRepo.FirstMeetingIgnoresTitle | src/courses/repositories/course.repository.prisma.ts:71-78 | the title and createdAt criteria make no difference |
| CourseRepo.FirstMeetingById | src/courses/repositories/course.repository.prisma.ts:71-78 | by id it is the look-up by id |
| CourseRepo.NewCourseDefaults | src/courses/repositories/course.repository.prisma.ts:80-88 | with no fields, id, title, code and teacherId are '' and createdAt is now; a create from all of a course's fields gives that course back |
| CourseRepo.MergedMeaning | src/courses/repositories/course.repository.prisma.ts:109-111 | merging no fields keeps the entity, merging twice equals merging once, merging all of another course gives that course, and absent id or createdAt are kept |
| CourseRepo.SaveUpdateMeaning | src/courses/repositories/course.repository.prisma.ts:90-101 | a non-empty id fails with record-not-found and no change exactly when no row has it; otherwise that row gets the entity's title, code and teacherId, keeps its id and createdAt, and every other row is unchanged |
| CourseRepo.SaveInsertMeaning | src/courses/repositories/course.repository.prisma.ts:102-106 | an empty id appends one row with the fresh id and the entity's payload |
| CourseRepo.DeleteMeaning | src/courses/repositories/course.repository.prisma.ts:113-120 | affected is 1 exactly when the id exists, and then the row and its enrollments are gone; 0 otherwise with nothing changed; the other tables never change |
| CourseRepo.CourseRepositoryPrisma.BuildWhere | src/courses/repositories/course.repository.prisma.ts:30-47 | the conditions pushed one by one are the built filter |
| CourseRepo.CourseRepositoryPrisma.FindMany | src/courses/repositories/course.repository.prisma.ts:49-61 | the matching courses after skip, at most take of them |
| CourseRepo.CourseRepositoryPrisma.Count | src/courses/repositories/course.repository.prisma.ts:63-69 | the number of matching courses, or of all courses without options |
| CourseRepo.CourseRepositoryPrisma.FindOneBy | src/courses/repositories/course.repository.prisma.ts:71-78 | the first course meeting the criteria |
| CourseRepo.CourseRepositoryPrisma.Save | src/courses/repositories/course.repository.prisma.ts:90-107 | result and new course table equal the save outcome |
| CourseRepo.CourseRepositoryPrisma.Delete | src/courses/repositories/course.repository.prisma.ts:113-120 | result and new tables equal the delete outcome |
| TeacherRepo.TeacherWhereMeaning | src/teachers/repositories/teacher.repository.prisma.ts:30-39 | no filter exactly when the search is absent or blank; otherwise a teacher passes exactly when fullName or e-mail contains the trimmed term ignoring case |
| TeacherRepo.TeachersMatchingMeaning | src/teachers/repositories/teacher.repository.prisma.ts:41-55 | exactly the teachers passing the shared filter, in table order |
| TeacherRepo.TeacherPageAgreesWithCount | src/teachers/repositories/teacher.repository.prisma.ts:41-55 | the page has min(take, count − skip) rows, and row i is matching row skip + i |
| TeacherRepo.TeacherPageSelected | src/teachers/repositories/teacher.repository.prisma.ts:41-55 | every teacher on a page is stored and matches the name-or-email search |
| TeacherRepo.FirstTeacherMeeting | src/teachers/repositories/teacher.repository.prisma.ts:57-65 | a stored teacher meeting every given criterion, or null exactly when none does |
| TeacherRepo.FirstTeacherMeetingKeys | src/teachers/repositories/teacher.repository.prisma.ts:57-65 | the createdAt criterion makes no difference, and by id alone it is the look-up by id |
| TeacherRepo.NewTeacherDefaults | src/teachers/repositories/teacher.repository.prisma.ts:67-75 | with no fields, id, userId, fullName and e-mail are '' and createdAt is now; a create from all of a teacher's fields gives that teacher back; an absent userId is '' |
| TeacherRepo.MergedTeacherMeaning | src/teachers/repositories/teacher.repository.prisma.ts:94-96 | merging no fields keeps the entity, merging twice equals merging once, merging all of another teacher gives that teacher, and an absent id is kept |
| TeacherRepo.SaveTeacherUpdateMeaning | src/teachers/repositories/teacher.repository.prisma.ts:77-88 | a non-empty id fails with record-not-found and no change exactly when no row has it; otherwise that row gets the entity's userId, fullName and e-mail, keeps id and createdAt, and every other row is unchanged |
| TeacherRepo.SaveTeacherInsertMeaning | src/teachers/repositories/teacher.repository.prisma.ts:89-91 | an empty id appends a row with a fresh id holding the payload |
| TeacherRepo.DeleteTeacherMeaning | src/teachers/repositories/teacher.repository.prisma.ts:98-105 | affected is 1 exactly when the id exists, and then the row is gone; 0 otherwise with nothing changed |
| TeacherRepo.TeacherRepositoryPrisma.FindMany | src/teachers/repositories/teacher.repository.prisma.ts:41-50 | the page of matching teachers |
| TeacherRepo.TeacherRepositoryPrisma.Count | src/teachers/repositories/teacher.repository.prisma.ts:52-55 | the number of matching teachers |
| TeacherRepo.TeacherRepositoryPrisma.FindOneBy | src/teachers/repositories/teacher.repository.prisma.ts:57-65 | the where built field by field gives the first teacher meeting the criteria |
| TeacherRepo.TeacherRepositoryPrisma.Save | src/teachers/repositories/teacher.repository.prisma.ts:77-92 | result and new teacher table equal the save outcome |
| TeacherRepo.TeacherRepositoryPrisma.Delete | src/teachers/repositories/teacher.repository.prisma.ts:98-105 | result and new teacher table equal the delete outcome |
| StudentRepo.EntitiesOf | src/students/repositories/student.repository.prisma.ts:7-23 | each entity copies its row's id, name, age, grade, isActive and createdAt |
| StudentRepo.NewStudentDefaults | src/students/repositories/student.repository.prisma.ts:29-38 | with no fields, name '', age 0, grade 0, isActive true and createdAt now; a create from all of an entity's fields gives it back |
| StudentRepo.MergedStudentMeaning | src/students/repositories/student.repository.prisma.ts:98-103 | merging no fields keeps the entity, merging twice equals merging once, merging all of another entity gives it, and an absent id is kept |
| StudentRepo.OrderByOf | src/students/repositories/student.repository.prisma.ts:78-82 | one entry per order key, descending exactly for 'DESC' |
| StudentRepo.FoundStudentsMeaning | src/students/repositories/student.repository.prisma.ts:65-85 | exactly the rows meeting every supplied where-field; id '' constrains nothing; an empty where, or no options, gives every row |
| StudentRepo.FirstStudentMeeting | src/students/repositories/student.repository.prisma.ts:87-96 | a stored row meeting every non-null criterion, or null exactly when none does |
| StudentRepo.FirstStudentMeetingById | src/students/repositories/student.repository.prisma.ts:87-96 | by id it is the look-up by id, so id '' is a real constraint, unlike in find |
| StudentRepo.GradeAtLeastMeaning | src/students/repositories/student.repository.prisma.ts:118-124 | exactly the rows with grade ≥ minGrade, in table order |
| StudentRepo.GradeAtLeastMonotone | src/students/repositories/student.repository.prisma.ts:118-124 | the result for a higher minGrade is the result for a lower one filtered again |
| StudentRepo.SaveStudentUpdateMeaning | src/students/repositories/student.repository.prisma.ts:47-58 | a non-empty id fails with record-not-found and no change exactly when no row has it; otherwise that row gets the entity's name, age, grade and isActive and keeps the rest, and every other row is unchanged |
| StudentRepo.SaveStudentInsertMeaning | src/students/repositories/student.repository.prisma.ts:59-62 | an empty id appends one row with the fresh id and the payload, linked to no user |
| StudentRepo.DeleteStudentMeaning | src/students/repositories/student.repository.prisma.ts:105-112 | affected is 1 exactly when the id exists, and then the row and its enrollments are gone; 0 otherwise with nothing changed; the other tables never change |
| StudentRepo.FirstMissing | src/students/repositories/student.repository.prisma.ts:138-146 | no missing column exactly when every item has name, age and grade |
| StudentRepo.SeedRows | src/students/repositories/student.repository.prisma.ts:138-146 | one row per item, each the item's seeded row |
| StudentRepo.SeedIfEmptyMeaning | src/students/repositories/student.repository.prisma.ts:134-147 | a non-empty table is left as it is; an empty one with complete items gets one row per item, in order, with its name, age and grade, isActive defaulting to true, and no user; seeding again after a success changes nothing |
| StudentRepo.StudentRepositoryPrisma.Save | src/students/repositories/student.repository.prisma.ts:40-63 | result and new student table equal the save outcome |
| StudentRepo.StudentRepositoryPrisma.Find | src/students/repositories/student.repository.prisma.ts:65-85 | the entities of the found rows, and the order list computed from the options |
| StudentRepo.StudentRepositoryPrisma.FindOneBy | src/students/repositories/student.repository.prisma.ts:87-96 | the where built field by field gives the first matching entity |
| StudentRepo.StudentRepositoryPrisma.Delete | src/students/repositories/student.repository.prisma.ts:105-112 | result and new tables equal the delete outcome |
| StudentRepo.StudentRepositoryPrisma.Count | src/students/repositories/student.repository.prisma.ts:114-116 | the number of rows |
| StudentRepo.StudentRepositoryPrisma.FindWithGradeGreaterOrEqual | src/students/repositories/student.repository.prisma.ts:118-124 | the entities of the rows reaching minGrade |
| StudentRepo.StudentRepositoryPrisma.SeedIfEmpty | src/students/repositories/student.repository.prisma.ts:134-147 | result and new student table equal the seed outcome |
| CoursesSvc.ResponsesOf | src/courses/mappers/course.mapper.ts:7-14 | each response copies its course's id, title, code and creation time |
| CoursesSvc.ListMeaning | src/courses/courses.service.ts:29-57 | total is the number of matching courses; page and limit default to 1 and 20; data has min(limit, total − skip) responses, entry i of matching course skip + i; the default query answers the first 20 |
| CoursesSvc.FindMeaning | src/courses/courses.service.ts:59-66 | the course with that id, or NotFound "Course <id> not found" exactly when none exists |
| CoursesSvc.CreateMeaning | src/courses/courses.service.ts:95-104 | appends one course with the fresh id, the dto's title and code, and the authenticated teacher's id if any, else the dto's teacherId, else ''; returns its response |
| CoursesSvc.UpdateMeaning | src/courses/courses.service.ts:106-115 | NotFound with no change exactly when no course has the id; otherwise the stored course merged with the dto is saved, keeping id and createdAt, and every other row is unchanged |
| CoursesSvc.RemoveMeaning | src/courses/courses.service.ts:117-122 | NotFound with no change exactly when no course has the id; otherwise the course and its enrollments are gone |
| CoursesSvc.EnrollmentCheckMeaning | src/courses/courses.service.ts:124-160 | the check fails exactly when course or student is missing, and a missing course is reported before a missing student |
| CoursesSvc.EnrollMeaning | src/courses/courses.service.ts:124-141 | the result is the check; on failure nothing changes; on success the pair is in the relation; other pairs never change; repeating the call changes nothing |
| CoursesSvc.UnenrollMeaning | src/courses/courses.service.ts:143-160 | the result is the same check; on failure nothing changes; on success the pair is absent; other pairs never change; repeating the call changes nothing |
| CoursesSvc.EnrollThenUnenroll | src/courses/courses.service.ts:124-160 | enrolling then unenrolling a pair that was absent restores the relation |
| CoursesSvc.CoursesService.FindAll | src/courses/courses.service.ts:29-57 | returns the list outcome |
| CoursesSvc.CoursesService.FindById | src/courses/courses.service.ts:59-66 | returns the find outcome |
| CoursesSvc.CoursesService.Create | src/courses/courses.service.ts:95-104 | result and new course table equal the create outcome |
| CoursesSvc.CoursesService.Update | src/courses/courses.service.ts:106-115 | result and new course table equal the update outcome |
| CoursesSvc.CoursesService.Remove | src/courses/courses.service.ts:117-122 | result and new tables equal the remove outcome |
| CoursesSvc.CoursesService.EnrollStudent | src/courses/courses.service.ts:124-141 | result and new relation equal the enroll outcome |
| CoursesSvc.CoursesService.UnenrollStudent | src/courses/courses.service.ts:143-160 | result and new relation equal the unenroll outcome |
| TeachersSvc.TeacherResponsesOf | src/teachers/mappers/teacher.mapper.ts:4-11 | each response copies its teacher's id, fullName, e-mail and creation time |
| TeachersSvc.TeacherListMeaning | src/teachers/teachers.service.ts:24-45 | total is the number of teachers matching the search; page and limit default to 1 and 20; data has min(limit, total − skip) responses, entry i of matching teacher skip + i |
| TeachersSvc.TeacherFindMeaning | src/teachers/teachers.service.ts:47-54 | the teacher with that id, or NotFound "Teacher <id> not found" exactly when none exists |
| TeachersSvc.TeacherCreateMeaning | src/teachers/teachers.service.ts:56-63 | appends one teacher with the fresh id, the dto's fullName and e-mail and userId '', and returns its response; with no foreign-key rule modelled, that insert always succeeds |
| TeachersSvc.TeacherUpdateMeaning | src/teachers/teachers.service.ts:65-74 | NotFound with no change exactly when no teacher has the id; otherwise the stored teacher merged with the dto is saved, keeping id, userId and createdAt, and every other row is unchanged |
| TeachersSvc.TeacherRemoveMeaning | src/teachers/teachers.service.ts:76-81 | NotFound with no change exactly when no teacher has the id; otherwise the teacher is gone |
| TeachersSvc.TeacherCoursesMeaning | src/teachers/teachers.service.ts:83-101 | NotFound exactly when the teacher is missing; otherwise one entry per course the teacher owns, in order, with id, title and code kept, and total equal to the entry count |
| TeachersSvc.TeachersService.FindAll | src/teachers/teachers.service.ts:24-45 | returns the list outcome |
| TeachersSvc.TeachersService.FindById | src/teachers/teachers.service.ts:47-54 | returns the find outcome |
| TeachersSvc.TeachersService.Create | src/teachers/teachers.service.ts:56-63 | result and new teacher table equal the create outcome |
| TeachersSvc.TeachersService.Update | src/teachers/teachers.service.ts:65-74 | result and new teacher table equal the update outcome |
| TeachersSvc.TeachersService.Remove | src/teachers/teachers.service.ts:76-81 | result and new teacher table equal the remove outcome |
| TeachersSvc.TeachersService.GetCoursesForTeacher | src/teachers/teachers.service.ts:83-101 | returns the courses outcome |
| StudentsSvc.StudentCreateMeaning | src/students/students.service.ts:24-44 | a taken e-mail fails with a unique-constraint error and no change; otherwise one user (lowercased e-mail, role STUDENT, active, no session, a digest of the password) and one student with the dto's fields are appended, and that student is linked to no user |
| StudentsSvc.StudentListMeaning | src/students/students.service.ts:46-49 | the entities of all rows, in creation order |
| StudentsSvc.StudentFindMeaning | src/students/students.service.ts:51-58 | the student with that id, or NotFound "Student <id> not found" exactly when none exists |
| StudentsSvc.StudentUpdateMeaning | src/students/students.service.ts:60-69 | NotFound with no change exactly when no student has the id; otherwise the dto's fields are merged into the stored student, and every other row is unchanged |
| StudentsSvc.StudentRemoveMeaning | src/students/students.service.ts:71-76 | NotFound with no change exactly when no student has the id; otherwise the student and its enrollments are gone |
| StudentsSvc.PassedMeaning | src/students/students.service.ts:78-81 | every returned student reaches minGrade, 50 by default, and every stored student that reaches it is returned |
| StudentsSvc.StudentCoursesMeaning | src/students/students.service.ts:87-102 | NotFound exactly when the student is missing; otherwise one entry per course the student is enrolled in, in order, with id, title and code kept |
| StudentsSvc.EnrollmentShowsInStudentCourses | src/students/students.service.ts:87-102 | after enrolling a student the course is listed for that student, and after unenrolling it is not |
| StudentsSvc.StudentsService.Create | src/students/students.service.ts:24-44 | result and new user and student tables equal the create outcome |
| StudentsSvc.StudentsService.FindAll | src/students/students.service.ts:46-49 | returns the list outcome |
| StudentsSvc.StudentsService.FindById | src/students/students.service.ts:51-58 | returns the find outcome |
| StudentsSvc.StudentsService.Update | src/students/students.service.ts:60-69 | result and new student table equal the update outcome |
| StudentsSvc.StudentsService.Remove | src/students/students.service.ts:71-76 | result and new tables equal the remove outcome |
| StudentsSvc.StudentsService.Passed | src/students/students.service.ts:78-81 | returns the passed outcome |
| StudentsSvc.StudentsService.GetCoursesForStudent | src/students/students.service.ts:87-102 | returns the courses outcome |

## Left out

- Cryptography is partly symbolic. Tokens carry `iat` and `exp`, `Verify` rejects a token from its `exp` on, and a token's text is its compact serialization, but the HMAC is not computed: the signature segment is the encoded secret. bcrypt is modelled by what it reads, the first 72 UTF-8 bytes of its input, and the model exploits that truncation (see Findings). Not modelled: bcrypt's salt, cost arithmetic, NUL handling and timing; JSON `null` members, which are taken as absent, so the access payload's `teacherId: null` and `studentId: null` are omitted from its text; and collisions of the SHA-256 pre-hash behind the whole-token digest.
- Auth.RefreshRotates: revokes only tokens whose first 72 bytes differ from the new refresh token's, weaker than the written design's "the previous refresh token no longer succeeds", because the code as written does not keep that promise (see Findings); the full promise is proved of the whole-token digest by Auth.RefreshWholeRotates.
- Auth.RefreshRejectsUnstored: rejects only tokens that differ from the stored one within the first 72 bytes, for the same reason.
- Auth.AuthService.Refresh: follows the code as written, so it accepts a replayed refresh token of the same user; the corrected behaviour is stated of the outcome functions only.
- Prisma query execution is not modelled. The model has no transaction isolation, unique constraints other than the user e-mail, foreign-key restrict/cascade rules (only the implicit removal of a deleted course's or student's enrollments; in particular, the teachers service creates a teacher with `userId` "", and if the schema has a foreign key from the teacher's `userId` to the users table the database would refuse that insert, which the model does not capture because the Prisma schema is not part of this model), `updatedAt` maintenance, or the database's own id and creation-time defaults, which are parameters.
- Dates are integers. `new Date()` is a parameter, and `toISOString` in the mappers is left as the stored value.
- `getAverageGrade` in the student repository and `averageGrade` in the students service are not modelled, because they rely on floating-point division and `Math.round`.
- Day01Students.AverageOf: the non-empty branch uses exact real division rounded half up to two decimals, not IEEE 754 doubles.
- StudentRepo.StudentRepositoryPrisma.Find: the computed order list is returned, but it is not applied to the rows, because the sort Prisma performs on arbitrary columns is not part of this model.
- `findByIdWithDetails` in the courses service (course with teacher and student count) is not modelled.
- `toStudentResponseDto` is not part of this model, so the students service returns the repository entity.
- The update DTO classes (`UpdateCourseDto`, `UpdateTeacherDto`, `UpdateStudentDto`) are not part of this model. They are taken as the create DTOs with every field optional.
- The `TeacherModel` type declares no `userId`, but the teacher repository reads and writes one. The model follows the repository.
- `toLowerCase`, `ILIKE` and `contains` with `mode: 'insensitive'` are modelled with ASCII case folding only.
- `Promise.all` is treated as sequential. The race between concurrent refreshes of one session is not modelled.
- `loadEnv` in the script reads a `.env` file. The file's entries are a parameter.
- Controllers, modules, decorators, the JWT and roles guards, the trace context and logger, seeds and migrations, the Joi environment schema, and the other deployment scripts are framework wiring and are not modelled. The TypeORM student repository and the students-api-project variant delegate to a library that is not shown.
- JavaScript numbers are unbounded integers. `parseInt` of a digit run is its natural value, and large page numbers do not lose precision.

## Findings

| source | as written | input that shows it | evidently intended | confidence | as-written member | corrected member |
|---|---|---|---|---|---|---|
| src/auth/auth.service.ts:140-176 | `issueTokens` stores `bcrypt.hash(refreshToken, 10)` and `refresh` checks `bcrypt.compare(refreshToken, hash)`. bcrypt reads only the first 72 bytes of its input, and every refresh token of one user starts with the same 72 bytes: the 36-character header, a dot, and the encoding of `{"sub":"<id>","type":"refresh","iat":`. So the stored digest matches every refresh token of that user. | a user's unexpired refresh token issued at second n, used to refresh at a later second, and then presented to `refresh` again | once a refresh token has been used to refresh, it is rejected and only the newly issued one is accepted | not executed | Auth.RefreshReplayAfterRotation | Auth.RefreshWholeRejectsReplay |

`Auth.RefreshTokensCollide` shows the shared 72-byte prefix. `Auth.RefreshTextsDiffer` shows that the replayed token and the new one are different texts. The corrected outcomes `Auth.IssueTokensWholeOutcome` and `Auth.RefreshWholeOutcome` store and check a digest of the whole token, as bcrypt over a SHA-256 pre-hash of the token would. With them, `Auth.RefreshWholeRotates` proves that only the new refresh token is accepted. The `Auth.AuthService` class keeps the behaviour of the code as written.
