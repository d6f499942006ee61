# User service credential and session core, in Dafny

This project models the credential and session core of the NestJS user
service of the energy-control system.

## What is modelled

- **Value objects.** `ValueType` and its email, phone, name and password
  subclasses. Each one accepts exactly the language of its regular
  expression, and otherwise throws its domain exception.
- **Users table.** The `users` table with its `serial` id, its CHECK
  constraints on the phone number and email formats, and its UNIQUE
  indexes. It is modelled as a sequence of rows in id order, plus the next
  value of the sequence. INSERT ... RETURNING and UPDATE ... RETURNING
  refuse what PostgreSQL would refuse with the phone CHECK the authors
  meant, `^(\+7|8)\d{10}$`. A refused INSERT still uses up its serial
  value. The CHECK as schema.ts types it is modelled beside it; see
  Findings.
- **`UserEntity`.** Construction defaults, the credential check, the
  password check, the setters and `fromDb` rehydration.
- **`UsersRepository`.** `save`, which turns an entity into an INSERT or an
  UPDATE and reads the row back. Also the lookups by email, phone, id,
  login and refresh token, and `findMany` with its pagination.
- **`UsersService.upsert`.** The older store front beside the repository.
- **`AuthService`.** `register`, `login` and `refreshTokens`, together with
  the session helpers `ensureRefreshToken`, `rotateRefreshToken` and
  `buildTokens`.
- **Token helpers.** `createRefreshToken` (three UUIDs with their dashes
  removed, valid for 24 hours), and `JwtService`'s payload and expiry
  computation.
- **`JwtAuthGuard`.** How it reads the `Authorization: Bearer` header.
- **Request and response schemas.** The zod schemas for login, register,
  refresh, pagination, user ids and the user view.

## How the model is built

Each call that can throw returns a `Result`. Each call that touches the
table takes the table and returns it. So a failure after a write, such as a
read-back that throws, still shows the write.

bcrypt, the JWT library, `crypto.randomUUID()` and the clock are
parameters (`Hasher`, `Signer`, `Env`). Where a property needs one of these
libraries to behave, it is stated as a premise: `HashesNonEmpty`,
`CompareAcceptsOwnHash` or `VerifiesOwnTokens`.

`Consistent` is the invariant the service keeps. It holds when the table's
own constraints hold and every row reads back through `fromDb` without
throwing. `save`, `login`, `register` and `refreshTokens` preserve it.

The value objects are wider than the table's CHECK constraints, in both
directions that matter:

- `+15551234567` is a valid `PhoneValueType` but not a valid
  `phone_number`.
- `a@b.c` is a valid `EmailValueType` but not a valid `email`.

So such a registration fails at the INSERT with a constraint violation, not
with INVALID_PHONE or INVALID_EMAIL. `RegisterRejectedByDb` states this.
The reverse inclusions hold: every stored phone number and email passes its
value object.

## Model

| member | source | states |
|---|---|---|
| Value.Wrap | src/lib/domain/core/value.ts:2-6 | the base constructor checks nothing; `getValue` returns exactly the wrapped value |
| Value.ToString | src/lib/domain/core/value.ts:8-10 | `toString` of a string wrapper is the wrapped string |
| Value.WrapInjective | src/lib/domain/core/value.ts:1-11 | two wrappers are equal exactly when their values are, since nothing else is stored |
| EmailValue.ValidateEmailMatchesPattern | src/lib/domain/users/email.value.ts:19-22 | the left-to-right scan accepts exactly the strings `^[^\s@]+@[^\s@]+\.[^\s@]+$` matches (both directions) |
| EmailValue.Create | src/lib/domain/users/email.value.ts:8-17 | accepts exactly the pattern's language and stores the input unchanged; any other input throws INVALID_EMAIL |
| EmailValue.FromString | src/lib/domain/users/email.value.ts:24-26 | `fromString` behaves as the constructor |
| EmailValue.AcceptedEmailShape | src/lib/domain/users/email.value.ts:20 | an accepted address has exactly one '@' and no whitespace; after the '@' there are at least three characters, with a '.' strictly inside them |
| PhoneValue.IsStringValidMatchesPattern | src/lib/domain/users/phone.value.ts:7 | `isStringValid` accepts exactly the language of `^\+?[1-9]\d{1,14}$` (both directions) |
| PhoneValue.Create | src/lib/domain/users/phone.value.ts:10-19 | accepts exactly the pattern's language and stores the input unchanged; any other input throws INVALID_PHONE |
| PhoneValue.FromString | src/lib/domain/users/phone.value.ts:21-23 | `fromString` behaves as the constructor |
| PhoneValue.AcceptedPhoneShape | src/lib/domain/users/phone.value.ts:25-27 | an accepted number is an optional '+' then 2 to 15 digits, not starting with '0'; it holds no '@', so it can never be read as an email |
| PasswordValue.Create | src/lib/domain/users/password.value.ts:5-14 | accepted exactly when the UTF-16 length is at least 8, and then stored unchanged; otherwise throws INVALID_PASSWORD |
| PasswordValue.FromString | src/lib/domain/users/password.value.ts:16-18 | `fromString` behaves as the constructor |
| PasswordValue.PasswordLengthRule | src/lib/domain/users/password.value.ts:6 | any 8 characters are accepted; below 8 UTF-16 units is refused; for text inside the Basic Multilingual Plane, acceptance is exactly "at least 8 characters" |
| NameValue.ToUpperChar | src/lib/domain/users/name.value.ts:24 | upper-casing maps each lower-case Latin or Cyrillic letter to an upper-case one and leaves every other character alone |
| NameValue.ToLowerChar | src/lib/domain/users/name.value.ts:24 | lower-casing maps each upper-case letter to a lower-case one and leaves every other character alone |
| NameValue.Create | src/lib/domain/users/name.value.ts:8-25 | accepts exactly the non-blank strings over `[a-zA-Zа-яА-ЯёЁ\s-]`, otherwise throws INVALID_NAME; the stored value is capitalised and equals the input up to case |
| NameValue.FromString | src/lib/domain/users/name.value.ts:27-29 | `fromString` behaves as the constructor |
| NameValue.CapitalizeKeepsName | src/lib/domain/users/name.value.ts:24 | capitalising an accepted name gives an accepted, capitalised name that equals the input up to case |
| NameValue.CaseMapping | src/lib/domain/users/name.value.ts:16-24 | both case mappings stay inside the name alphabet, keep whitespace as whitespace, and agree once lower-cased |
| NameValue.CapitalizedUnique | src/lib/domain/users/name.value.ts:24 | two capitalised names that agree up to case are equal, so the constructor's contract fixes the stored value |
| NameValue.CreateStoredName | src/lib/domain/users/name.value.ts:8-25 | rebuilding a name from its stored value gives the same name, which is what `fromDb` relies on |
| NameValue.CreateIdempotent | src/lib/domain/users/name.value.ts:24 | normalising twice is normalising once |
| Exceptions.UsersHttpStatus | src/lib/domain/exceptions/users.exception.ts:24-32 | USER_NOT_FOUND maps to 404, USER_ALREADY_EXISTS to 409, and every other users code to 400 (each as an if-and-only-if) |
| Exceptions.AuthHttpStatus | src/lib/domain/exceptions/auth.exception.ts:21-26 | a bad password or access token maps to 403; a bad or expired refresh token maps to 401 |
| Exceptions.UsersException | src/lib/domain/exceptions/users.exception.ts:4-12 | the exception carries its code and the status the table assigns to it |
| Exceptions.AuthException | src/lib/domain/exceptions/auth.exception.ts:4-12 | the exception carries its code and the status the table assigns to it |
| Roles.RoleId | src/lib/infrastructure/db/schema.ts:17 | every role is stored as an id from 1 to 3 |
| Roles.RoleFromId | src/lib/infrastructure/db/schema.ts:17 | exactly the ids 1 to 3 name a role, and they name the role stored as that id |
| Roles.RoleIdRoundTrip | src/lib/infrastructure/db/schema.ts:17 | storing a role and reading the id back gives the role |
| RefreshTokenCrypto.CreateRefreshToken | src/lib/utils/crypto/refreshToken.ts:6-15 | the token is the three UUIDs with every '-' deleted; it contains no '-'; with real UUIDs it is 96 lower-case hex digits; it expires exactly 24 hours after `now` |
| RefreshTokenCrypto.UuidsWithoutDashes | src/lib/utils/crypto/refreshToken.ts:11 | three UUIDs with their dashes removed make 96 lower-case hex digits |
| RefreshTokenCrypto.UuidWithoutDashes | src/lib/utils/crypto/refreshToken.ts:11 | one UUID without its four dashes is 32 lower-case hex digits |
| DbSchema.Insert | src/lib/infrastructure/db/schema.ts:12-53 | an INSERT always draws the next `serial` value; it fails exactly on a CHECK failure or a phone number or email already in the table, and then adds no row though the value stays used; otherwise it appends one row with that id and `now()` timestamps, and keeps the table's invariants |
| DbSchema.Apply | src/lib/infrastructure/db/schema.ts:33-39 | an UPDATE writes the patched columns, keeps absent keys and `createdAt`, and sets `updatedAt` to `now()` |
| DbSchema.FirstIndex | src/modules/users/users.repository.ts:124-126 | `findFirst` finds the first row, in table order, that satisfies the condition, or no row when none does |
| DbSchema.IndexOfId | src/modules/users/users.repository.ts:71 | `WHERE id = ?` finds the row with that id, or none exactly when no row has it |
| DbSchema.Update | src/lib/infrastructure/db/schema.ts:42-51 | an UPDATE of a missing id returns no row; otherwise it fails exactly on a CHECK or UNIQUE violation by the patched row; on success it replaces only that row and keeps the invariants |
| DbSchema.Cooked | src/lib/infrastructure/db/schema.ts:44 | a template literal hands on plain characters unchanged and turns `\\` into one backslash, so its escapes are resolved before PostgreSQL sees the text |
| DbSchema.CookedPhonePattern | src/lib/infrastructure/db/schema.ts:44 | the phone pattern as typed reaches PostgreSQL as `^(+7\|8)\d{10}$`, whose group opens with a quantifier |
| DbSchema.CookedIntendedPhonePattern | src/lib/infrastructure/db/schema.ts:44 | typed as `\\+`, the pattern would reach PostgreSQL as `^(\+7\|8)\d{10}$`, which has no such group |
| DbSchema.InsertAsWritten | src/lib/infrastructure/db/schema.ts:42-49 | an INSERT against the table as declared draws its serial value; the CHECKs run in name order, so an email failing `email_format` is a constraint violation; it behaves as the intended INSERT only if PostgreSQL compiles the phone pattern |
| DbSchema.UpdateAsWritten | src/lib/infrastructure/db/schema.ts:42-49 | an UPDATE against the table as declared finds no row for an unknown id; a patched email failing `email_format` is a constraint violation; it behaves as the intended UPDATE only if PostgreSQL compiles the phone pattern |
| DbSchema.AsWrittenTableRefusesWrites | src/lib/infrastructure/db/schema.ts:42-49 | as declared, every INSERT fails and adds no row, and every UPDATE of an existing row fails; the error is the pattern error exactly when the new row's email passes `email_format`, and that CHECK's violation otherwise |
| DbSchema.IntendedPhoneCheckAdmits | src/lib/infrastructure/db/schema.ts:42-49 | with the intended pattern, `+79991234567` and `ivan@example.com` are stored in an empty table with id 1 |
| Users.OrNull | src/lib/domain/users/users.entity.ts:81 | the `or null` fallback turns a missing or empty string into null and keeps any other string |
| Users.Create | src/lib/domain/users/users.entity.ts:50-94 | fails with INVALID_PASSWORD exactly when there is no plaintext and no non-empty hash; otherwise applies each default (id 0, role Inspector, `createdAt` now) and hashes the plaintext in preference to a supplied hash |
| Users.CreatedHasCredential | src/lib/domain/users/users.entity.ts:67-93 | when the hasher never returns "", every constructed entity has a non-empty hash |
| Users.ComparePassword | src/lib/domain/users/users.entity.ts:96-103 | fails with INVALID_PASSWORD exactly when bcrypt rejects the candidate |
| Users.SetPassword | src/lib/domain/users/users.entity.ts:133-135 | only the hash changes, to the hash of the new password; under bcrypt's law the new password then passes `comparePassword` |
| Users.SetRole | src/lib/domain/users/users.entity.ts:137-139 | only the role changes |
| Users.SetRefreshToken | src/lib/domain/users/users.entity.ts:161-163 | only the refresh token changes, to exactly the value given |
| Users.SetRefreshTokenExpiredAfter | src/lib/domain/users/users.entity.ts:165-167 | only the expiry changes |
| Users.RehydratePatronymic | src/lib/domain/users/users.entity.ts:175-177 | a null or empty patronymic reads back as null; any other value is revalidated as a name |
| Users.FromDb | src/lib/domain/users/users.entity.ts:169-186 | a row reads back exactly when its names, phone, email and hash pass (both directions); a failure throws the error of the first failing field in order; a success keeps every column |
| UsersRepository.PatronymicColumn | src/modules/users/users.repository.ts:56 | `patronymic?.getValue() ?? null` is null exactly for a missing patronymic |
| UsersRepository.SavePatch | src/modules/users/users.repository.ts:51-66 | the UPDATE writes the identity columns and the role; it writes the hash only when it is non-empty; it always writes both session columns, null included |
| UsersRepository.SaveValues | src/modules/users/users.repository.ts:86-96 | the INSERT writes every column of the entity, session included |
| UsersRepository.Save | src/modules/users/users.repository.ts:34-100 | an entity with id 0 is INSERTed only with a hash, and that INSERT always uses up one serial value; any other id is UPDATEd; an unknown id writes nothing; a refused write adds or changes no row, and a refused UPDATE leaves the table exactly as it was; the returned user keeps the keys, role and session; the table invariants are kept |
| UsersRepository.DbPhoneIsPhone | src/lib/infrastructure/db/schema.ts:42-45 | every phone number the CHECK admits passes `PhoneValueType` |
| UsersRepository.DbEmailIsEmail | src/lib/infrastructure/db/schema.ts:46-49 | every email the CHECK admits passes `EmailValueType` |
| UsersRepository.PhoneWiderThanDb | src/lib/domain/users/phone.value.ts:7 | `+15551234567` passes the value object but not the table's CHECK |
| UsersRepository.EmailWiderThanDb | src/lib/domain/users/email.value.ts:20 | `a@b.c` passes the value object but not the table's CHECK |
| UsersRepository.WrittenRowReadsBack | src/modules/users/users.repository.ts:74 | a row written from a well-formed entity reads back as that entity, with the columns the database owns taken from the row |
| UsersRepository.SaveInsertRoundTrip | src/modules/users/users.repository.ts:84-99 | saving a new user that the table accepts appends one row and returns the same user, with the new id and timestamps |
| UsersRepository.SaveUpdateRoundTrip | src/modules/users/users.repository.ts:50-75 | saving a stored user replaces only its row and returns the same user; an empty hash keeps the stored hash, and `createdAt` is the stored one |
| UsersRepository.InsertKeepsConsistent | src/modules/users/users.repository.ts:84-99 | an accepted INSERT of a well-formed user keeps every row readable |
| UsersRepository.UpdateKeepsConsistent | src/modules/users/users.repository.ts:68-74 | an accepted UPDATE from a well-formed user keeps every row readable |
| UsersRepository.SaveKeepsConsistent | src/modules/users/users.repository.ts:34-100 | `save` keeps every row readable; when it fails it writes nothing, and the failure comes from the database or from the missing credential |
| UsersRepository.LoadedUserResaves | src/modules/users/users.repository.ts:48-74 | a user read from a row can be saved back by UPDATE of that same row without violating any constraint |
| UsersRepository.IdsUnique | src/lib/infrastructure/db/schema.ts:15 | no two rows share an id |
| UsersRepository.RowHoldsItsKeys | src/lib/infrastructure/db/schema.ts:50-51 | rewriting a row's own phone number and email clashes with no other row |
| UsersRepository.FirstOrThrow | src/modules/users/users.repository.ts:124-135 | no matching row throws USER_NOT_FOUND; otherwise the result is the read-back of a matching row |
| UsersRepository.FirstOrNull | src/modules/users/users.repository.ts:141-147 | no matching row gives null; otherwise the result is the read-back of a matching row |
| UsersRepository.SomeOf | src/modules/users/users.repository.ts:147 | a read-back is wrapped without changing its outcome |
| UsersRepository.GetByEmail | src/modules/users/users.repository.ts:121-136 | returns a user with that email, or USER_NOT_FOUND; on a consistent table it succeeds exactly when some row has the email |
| UsersRepository.GetByEmailOrNull | src/modules/users/users.repository.ts:138-148 | returns a user with that email, or null; on a consistent table it is never an error and is null exactly when no row has the email |
| UsersRepository.GetByPhone | src/modules/users/users.repository.ts:150-165 | returns a user with that phone number, or USER_NOT_FOUND; on a consistent table it succeeds exactly when some row has the number |
| UsersRepository.GetByPhoneOrNull | src/modules/users/users.repository.ts:167-177 | returns a user with that phone number, or null; on a consistent table it is null exactly when no row has the number |
| UsersRepository.GetById | src/modules/users/users.repository.ts:209-224 | returns the user with that id, or USER_NOT_FOUND; on a consistent table it succeeds exactly when the id exists |
| UsersRepository.GetByRefreshToken | src/modules/users/users.repository.ts:195-207 | returns a user holding the token, or null; a NULL column never matches; on a consistent table it is null exactly when no row holds the token |
| UsersRepository.GetByPhoneOrEmail | src/modules/users/users.repository.ts:102-119 | a phone login looks up by phone and an email login by email; the user found has that login |
| UsersRepository.SavedRow | src/modules/users/users.repository.ts:74 | the user `save` returns is the read-back of the row it wrote: the appended row, or the row with the entity's id |
| UsersRepository.LoginLookupFromRow | src/modules/users/users.repository.ts:102-165 | a user found by login was read back from some row of the table |
| UsersRepository.TokenLookupFromRow | src/modules/users/users.repository.ts:195-207 | a user found by refresh token was read back from a row that holds that token |
| UsersRepository.FilterRows | src/modules/users/users.repository.ts:187 | the WHERE keeps exactly the table's rows whose id is listed, or every row when the list is empty or missing |
| UsersRepository.Page | src/modules/users/users.repository.ts:186-190 | OFFSET then LIMIT give the elements from the offset onwards in order, at most `limit` of them |
| UsersRepository.MapResult | src/modules/users/users.repository.ts:192 | mapping a throwing function succeeds exactly when every element succeeds, and then keeps the order; otherwise it throws some element's error |
| UsersRepository.RehydrateAll | src/modules/users/users.repository.ts:192 | a list of rows reads back exactly when each row does, element by element |
| UsersRepository.FindMany | src/modules/users/users.repository.ts:179-193 | returns at most `limit` users, each read back from a selected row, and only listed ids when ids are given; never fails on a consistent table |
| UsersRepository.PageRowsAreSelected | src/modules/users/users.repository.ts:186-190 | every row of a page is a table row that passes the WHERE |
| UsersRepository.FindManySound | src/modules/users/users.repository.ts:186-192 | reading back selected rows yields selected users, and never fails on a consistent table |
| UsersRepository.PageUserIsSelected | src/modules/users/users.repository.ts:187-192 | a user read back from a selected row has a listed id |
| UsersRepository.PageRowsRehydrate | src/modules/users/users.repository.ts:192 | every row taken from a consistent table reads back |
| UsersRepository.ReadBackRow | src/lib/domain/users/users.entity.ts:169-186 | a read-back user keeps the row's id, phone number and email, and is well formed |
| UsersService.UpsertPatch | src/modules/users/users.service.ts:40-49 | the UPDATE of `upsert` is `save`'s UPDATE without the two session columns |
| UsersService.UpsertValues | src/modules/users/users.service.ts:69-77 | the INSERT of `upsert` is `save`'s INSERT with both session columns NULL |
| UsersService.Upsert | src/modules/users/users.service.ts:33-81 | `upsert` follows the same insert/update split and error cases as `save`, including the serial value a refused INSERT uses up, but never changes a stored session; it keeps the table invariants |
| UsersService.UpsertIsSaveWithoutSession | src/modules/users/users.service.ts:33-81 | `upsert` equals `save` of the same user with the session dropped (on insert) or taken from the stored row (on update) |
| UsersService.GetByPhoneOrEmail | src/modules/users/users.service.ts:83-100 | the service's login lookup agrees with the repository's |
| UsersService.GetByEmail | src/modules/users/users.service.ts:102-117 | agrees with the repository's `getByEmail`; an unknown email is USER_NOT_FOUND |
| UsersService.GetByPhone | src/modules/users/users.service.ts:119-134 | agrees with the repository's `getByPhone`; an unknown number is USER_NOT_FOUND |
| AuthSchema.ParseLogin | src/modules/auth/schema.ts:9-14 | a phone-shaped login becomes that phone; anything else is an email when the email pattern accepts it, and INVALID_EMAIL otherwise |
| AuthSchema.LoginClassificationUnambiguous | src/modules/auth/schema.ts:10 | no string is both phone-shaped and email-shaped |
| AuthSchema.ParsedLoginKeepsText | src/modules/auth/schema.ts:9-14 | a parsed login holds exactly the text it was given |
| AuthSchema.ParseLoginInput | src/modules/auth/schema.ts:16-25 | the login payload parses exactly when the login parses and the password has at least 8 units; a login error comes first |
| AuthSchema.ParsePatronymic | src/modules/auth/schema.ts:49-55 | a missing or empty patronymic is undefined; anything else must be an accepted name |
| AuthSchema.ParseRegister | src/modules/auth/schema.ts:27-58 | the payload parses exactly when zod's email check, the email pattern, the phone pattern, the password length and the name rules all pass; an email refused by zod fails after the other fields |
| AuthSchema.CheckedEmail | src/modules/auth/schema.ts:29-32 | an email zod refused has no value object; an accepted one is validated by `EmailValueType` or throws INVALID_EMAIL |
| AuthSchema.ParseRefresh | src/modules/auth/schema.ts:76-84 | the refresh token string is passed on unchanged |
| JwtService.PayloadOf | src/modules/auth/jwt.service.ts:31-37 | an entity is signed as its id and role; a payload is signed as it is |
| JwtService.SignWithMeta | src/modules/auth/jwt.service.ts:25-50 | the token signs the payload with the configured secret and lifetime, and expires `expiresIn` seconds after now |
| JwtService.Sign | src/modules/auth/jwt.service.ts:20-23 | `sign` is the token part of `signWithMeta` |
| JwtService.VerifyAsync | src/modules/auth/jwt.service.ts:52-67 | verification succeeds exactly when the library accepts the token, and returns its payload; otherwise it throws INVALID_TOKEN |
| JwtService.SignVerifyRoundTrip | src/modules/auth/jwt.service.ts:20-67 | a token signed for a user verifies to that user's id and role |
| JwtGuard.ExtractTokenFromHeaders | src/lib/core/guards/jwt.guard.ts:37-51 | a missing or empty header gives no token; a token that is found is non-empty and has no space |
| JwtGuard.ExtractIffBearer | src/lib/core/guards/jwt.guard.ts:44-50 | the header yields `token` exactly when it is "Bearer", a space, the token, then either nothing or a space and anything |
| JwtGuard.ExtraSegmentsIgnored | src/lib/core/guards/jwt.guard.ts:44 | segments after the second are ignored: `Bearer a b` yields `a` |
| JwtGuard.CanActivate | src/lib/core/guards/jwt.guard.ts:20-35 | no token is Unauthorized without consulting the verifier; otherwise the request carries the verified payload, or fails with INVALID_TOKEN |
| JwtGuard.GuardAcceptsIssuedToken | src/lib/core/guards/jwt.guard.ts:20-51 | a request carrying `Bearer` plus an access token issued for a user is admitted as that user with that role |
| Pagination.ParseLimit | src/lib/core/zod/pagination.ts:6-12 | a missing limit is 20; a given one is accepted exactly when it is an integer from 1 to 20, and is kept |
| Pagination.ParseOffset | src/lib/core/zod/pagination.ts:13-18 | a missing offset is 0; a given one is accepted exactly when it is a non-negative safe integer (at most 2^53 - 1, as zod 4's `.int()` demands), and is kept |
| Pagination.ParseBoundsStable | src/lib/core/zod/pagination.ts:5-19 | every limit and offset the schema accepts parses back to itself, and a whole offset above 2^53 - 1 is refused |
| BrandSchema.ParseUserId | src/lib/core/zod/brand.schema.ts:4-8 | an id is accepted exactly when it is a positive safe integer, and is kept |
| BrandSchema.ParsedIdNeverInserts | src/lib/core/zod/brand.schema.ts:4-8 | an accepted id is never 0, so an entity carrying it is saved by UPDATE |
| UsersSchema.ParseId | src/modules/users/schema.ts:8-11 | the coerced element check followed by `UserIdSchema` is `UserIdSchema` |
| UsersSchema.ParseIds | src/modules/users/schema.ts:7-12 | missing ids become the empty list; the list parses exactly when every element is a positive safe integer, and keeps its order and values |
| UsersSchema.ParseEach | src/modules/users/schema.ts:11 | a list parses exactly when each element does, element by element |
| UsersSchema.ParseUsersQuery | src/modules/users/schema.ts:6-13 | the query parses exactly when ids, limit and offset each parse, and holds their values |
| UsersSchema.QueryFindMany | src/modules/users/schema.ts:6-13 | a parsed query never returns more than 20 users, and returns only listed ids when ids are given |
| UsersSchema.ViewOf | src/modules/users/dto.ts:10-21 | the view keeps the user's id, role, nullable patronymic and `updatedAt` |
| UsersSchema.ParseUserView | src/modules/users/schema.ts:15-27 | a view is accepted exactly when its id is a positive safe integer and zod's `z.email()` accepts its email, and is passed on unchanged |
| UsersSchema.StoredUserViewIff | src/modules/users/dto.ts:10-21 | `fromEntity` of a user read from a valid table succeeds exactly when zod accepts the stored email |
| UsersSchema.StoredUserHasView | src/modules/users/dto.ts:10-21 | when every stored email passes `z.email()`, every user read from a valid table has a view the schema accepts |
| AuthService.IssuedToken | src/modules/auth/auth.service.ts:137 | the token a call issues is the one `createRefreshToken` builds from that call's UUIDs and clock |
| AuthService.KindOf | src/modules/users/users.repository.ts:48 | `save` INSERTs exactly the entities with id 0 |
| AuthService.RotateRefreshToken | src/modules/auth/auth.service.ts:136-140 | rotation changes only the session, to a fresh token valid for 24 hours, which is then a live session |
| AuthService.EnsureRefreshToken | src/modules/auth/auth.service.ts:123-134 | rotates exactly when there is no live session, and reports whether it did; a live session is left unchanged |
| AuthService.BuildTokens | src/modules/auth/auth.service.ts:142-162 | succeeds exactly when the session has a token and an expiry, and then returns the signed access token and the stored refresh token; otherwise throws INVALID_REFRESH_TOKEN |
| AuthService.Issue | src/modules/auth/auth.service.ts:61-67 | with a live session nothing is written and the stored tokens are returned; otherwise exactly one `save` follows; table invariants are kept |
| AuthService.NewUserParams | src/modules/auth/auth.service.ts:76-83 | `register` builds the entity from the plaintext password, with no id, role or session |
| AuthService.Register | src/modules/auth/auth.service.ts:70-94 | writes nothing unless it saves; the first save is an INSERT; table invariants are kept |
| AuthService.IssueRotates | src/modules/auth/auth.service.ts:61-67 | without a live session, issuing is one rotation and one save |
| AuthService.InsertAndIssue | src/modules/auth/auth.service.ts:85-93 | after the key checks, `register` INSERTs first and saves at most once more; table invariants are kept |
| AuthService.Login | src/modules/auth/auth.service.ts:51-68 | writes nothing unless it saves, saves at most once, and keeps table invariants |
| AuthService.RefreshTokens | src/modules/auth/auth.service.ts:96-121 | writes nothing unless it saves, saves at most once, and keeps table invariants |
| AuthService.RegisterConflict | src/modules/auth/auth.service.ts:29-49 | a taken email or phone ends `register` with USER_ALREADY_EXISTS, and nothing is written |
| AuthService.RegisterRejectedByDb | src/modules/auth/auth.service.ts:85 | a registration the value objects accept but the CHECK constraints refuse fails at the INSERT with a constraint violation; no row is written, and the serial value the INSERT drew is used up |
| AuthService.LoginWrongPassword | src/modules/auth/auth.service.ts:59 | a wrong password fails with INVALID_PASSWORD before any write |
| AuthService.LoginKeepsLiveSession | src/modules/auth/auth.service.ts:61-67 | a user with a live session logs in without a write and gets the stored refresh token back |
| AuthService.LoginAcceptsOwnPassword | src/lib/domain/users/users.entity.ts:96-135 | under bcrypt's law, the password a user last set passes the check |
| AuthService.LoginRotatesStaleSession | src/modules/auth/auth.service.ts:51-68 | a correct login without a live session issues a fresh 24-hour token, which one UPDATE stores in that user's row only; the access token is for the user's id and role |
| AuthService.LoginContinuesAsIssue | src/modules/auth/auth.service.ts:57-67 | past the password check, `login` is `issue` for the user read from the row the lookup found |
| AuthService.RotatedUserSaves | src/modules/auth/auth.service.ts:64 | saving the rotated session of a stored user succeeds and rewrites that user's row only |
| AuthService.RotatedTokens | src/modules/auth/auth.service.ts:136-162 | after rotation, `buildTokens` succeeds with the new token, its 24-hour expiry, and an access token for the user |
| AuthService.RefreshRejectsUnknown | src/modules/auth/auth.service.ts:103-108 | a token no row holds is refused with INVALID_REFRESH_TOKEN, and nothing is written |
| AuthService.RefreshRejectsExpired | src/modules/auth/auth.service.ts:110-115 | a user's current token past its expiry is refused with EXPIRED_REFRESH_TOKEN, and nothing is written |
| AuthService.RefreshRotates | src/modules/auth/auth.service.ts:96-121 | a current, unexpired token is exchanged for a fresh one that one UPDATE writes into that user's row only; both tokens are returned |
| AuthService.RefreshIsRotation | src/modules/auth/auth.service.ts:117-120 | past its two checks, `refreshTokens` is one rotation and one save |
| AuthService.RefreshRevokesOldToken | src/modules/auth/auth.service.ts:96-121 | refresh tokens are single-use: once a refresh has rotated the row holding a token, presenting that token again is refused |
| AuthService.RegisterSucceeds | src/modules/auth/auth.service.ts:70-94 | a registration with free keys that pass the CHECKs inserts one Inspector row at the next id, with the hashed password; it then stores a fresh session with an UPDATE and returns that session's tokens |
| AuthService.RegisterBuildsInsertable | src/modules/auth/auth.service.ts:73-85 | with both keys free, `register` goes on to insert an Inspector with the given keys and the hashed password |
| AuthService.InsertThenRotate | src/modules/auth/auth.service.ts:85-93 | inserting an insertable user and ensuring its session succeeds, returning the fresh refresh token |
| AuthService.InsertThenRotateSaves | src/modules/auth/auth.service.ts:85-91 | a successful registration issues an INSERT, then an UPDATE |
| AuthService.InsertThenRotateAccess | src/modules/auth/auth.service.ts:93 | the access token returned is for the new row's id and the user's role |
| AuthService.InsertThenRotateRow | src/modules/auth/auth.service.ts:85-91 | the table gains one row at the next id, holding the new user's identity, hash and session; earlier rows are unchanged |
| AuthService.InsertedThenIssued | src/modules/auth/auth.service.ts:85-87 | after the INSERT, `register` continues as `issue` on the user read back from the new row |
| AuthService.ReissueStoredUser | src/modules/auth/auth.service.ts:61-67 | issuing for a stored user without a live session makes one UPDATE and returns the fresh session's tokens |
| AuthService.ReissueStoredRow | src/modules/auth/auth.service.ts:61-65 | that UPDATE rewrites only the user's row, with its identity and the fresh session |
| AuthService.InsertedRow | src/modules/auth/auth.service.ts:85 | the INSERT appends a row that reads back as the new user, with the assigned id and timestamps |
| AuthService.RotatedRowKeepsIdentity | src/modules/users/users.repository.ts:51-72 | the UPDATE of a stored user writes its own id, role, keys, hash and session into its row |
| AuthService.IssueCompletesSession | src/modules/auth/auth.service.ts:145-150 | with well-formed UUIDs, issuing never reaches the invalid-state error |
| AuthService.LoginNeverInvalidState | src/modules/auth/auth.service.ts:51-68 | `login` never ends in the invalid-state error |
| AuthService.RegisterNeverInvalidState | src/modules/auth/auth.service.ts:70-94 | `register` never ends in the invalid-state error |
| AuthService.InsertAndIssueCompletesSession | src/modules/auth/auth.service.ts:85-93 | neither save of `register` leads to the invalid-state error |
| AuthService.IssueKeepsConsistent | src/modules/auth/auth.service.ts:61-65 | issuing for a well-formed user keeps every row readable |
| AuthService.LoginKeepsConsistent | src/modules/auth/auth.service.ts:51-68 | `login` keeps every row readable, whatever the input |
| AuthService.RegisterKeepsConsistent | src/modules/auth/auth.service.ts:70-94 | `register` of parsed input keeps every row readable |
| AuthService.InsertAndIssueKeepsConsistent | src/modules/auth/auth.service.ts:85-91 | the two saves of `register` keep every row readable |
| AuthService.RefreshKeepsConsistent | src/modules/auth/auth.service.ts:96-121 | `refreshTokens` keeps every row readable, whatever the token |
| AuthService.RefusalWritesNothing | src/modules/auth/auth.service.ts:103-115 | a refresh that fails one of its checks writes nothing |
| AuthService.RotationKeepsConsistent | src/modules/auth/auth.service.ts:117-118 | the rotating save of `refreshTokens` keeps every row readable |

## Left out

- bcrypt's hashing and comparison are the `Hasher` parameter. That bcrypt never returns an empty hash (`HashesNonEmpty`) and accepts a password against its own hash (`CompareAcceptsOwnHash`) are stated premises, because bcrypt.ts only calls the library.
- JWT signing and verification are the `Signer` parameter. Expiry checking inside `verifyAsync` belongs to the library; `VerifiesOwnTokens` is a stated premise.
- `JWT_EXPIRES_IN` is a natural number. `Number(...)` of a malformed setting (NaN) and a missing setting (`getOrThrow`) are not modelled, because configuration is outside the core.
- Dates are milliseconds since the epoch. `toISOString()` formatting in `buildTokens` and the user view is not modelled, because it only changes the representation.
- Each call reads the clock once, and SQL `now()` is that same reading. `crypto.randomUUID()` is three parameters of the call. The randomness and the clock are outside the model.
- Concurrency between requests, and the async/await scheduling, are not modelled. Each call is atomic on the table.
- `findFirst` and `findMany` read rows in insertion (id) order. PostgreSQL guarantees no order without ORDER BY, so this is one of the orders it may return.
- The table is a `seq`, not a map, so that a lookup on the non-unique `refresh_token` column has a definite first row.
- Role ids outside 1–3 in the `role_id` column are not represented: role.enum.ts is not part of this model, and the column comment names exactly three roles.
- The INVALID_LOGIN fallthrough of `getByPhoneOrEmail` cannot be reached, because a login is one of two constructors and the schema only ever builds those.
- `isRefreshTokenExpired` is called by the auth service but is not defined in users.entity.ts. It is modelled as "an expiry is recorded and is not after now". Every lemma that depends on it uses this assumed meaning.
- `AuthSchema.ParseRegister`: zod's own `z.email()` address check is the parameter `zodEmail`. Zod's pattern is not modelled.
- `UsersSchema.ParseUserView` takes `z.email()` as the same `zodEmail` parameter. So the model cannot say which stored addresses zod refuses. A user stored through `upsert` with such an address cannot be returned by `fromEntity`, and `UsersSchema.StoredUserHasView` takes "every stored email passes zod" as a premise.
- `serial` is a 4-byte integer, and `nextval` fails once it passes 2^31 - 1. The model lets ids grow without bound and does not model that failure. `UsersSchema.StoredUserViewIff` and `UsersSchema.StoredUserHasView` therefore take "the next id is at most 2^53 - 1" as a premise, which every real table meets.
- The phone CHECK as schema.ts types it makes every write fail (see Findings). The rest of the model uses the intended pattern, so that the service's behaviour can be stated at all.
- An UPDATE that matches no row leaves `updated[0]` undefined, and `fromDb(undefined)` then throws a TypeError. This is the `MissingRow` error.
- Exception messages, `console.log`, the Nest `Logger`, controllers, modules, DTO classes and the user decorator are outside the credential core.
- The JavaScript number of a query parameter is NaN or a finite real. The infinities are not modelled: `.int()` refuses them like NaN.
- `AuthService.Register`: the contract says only `|saves| <= 2` with an INSERT first. The exact outcomes are in `AuthService.RegisterConflict`, `AuthService.RegisterRejectedByDb` and `AuthService.RegisterSucceeds`.
- `AuthService.Login`: the contract says only `|saves| <= 1`. The exact outcomes are in `AuthService.LoginWrongPassword`, `AuthService.LoginKeepsLiveSession` and `AuthService.LoginRotatesStaleSession`.
- `AuthService.RefreshTokens`: the contract says only `|saves| <= 1`. The exact outcomes are in `AuthService.RefreshRejectsUnknown`, `AuthService.RefreshRejectsExpired` and `AuthService.RefreshRotates`.
- The `-(2^53 - 1)` lower bound of `.int()` is in `ZodNumber.IsInt`, but no schema here accepts a negative number.
- `UsersRepository.FindMany`: the contract bounds and characterises the returned page. It does not state the page's exact position in the filtered rows; `UsersRepository.Page` states that.

## Findings

| source | as written | input that shows it | evidently intended | confidence | as-written member | corrected member |
|---|---|---|---|---|---|---|
| src/lib/infrastructure/db/schema.ts:44 | the pattern sits in a `sql` template literal, where `\+` cooks to a bare `+`, so the CHECK is `^(+7\|8)\d{10}$` and PostgreSQL refuses to compile it ("quantifier operand invalid"); as `email_format` is tested first, a row with a bad email gets that CHECK's violation instead, so no write ever succeeds | any INSERT, e.g. phone `+79991234567` and email `ivan@example.com`, and any UPDATE of an existing row | `\\+` in the template, giving `^(\+7\|8)\d{10}$`: a `+7` or `8` prefix and ten digits | medium: not executed; it rests on drizzle passing on the cooked strings, and the migrations are not part of this model | DbSchema.AsWrittenTableRefusesWrites | DbSchema.Insert |
