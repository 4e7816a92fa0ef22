# User account service: credentials and the account table

A Dafny model of the credential and account-record layer of a small
Express/Mongoose user service. It has two parts.

- **The User model** (`src/models/User.js`):
  - the password policy `validatePassword`. It checks length, then the complexity
    regular expression, then a 24-entry list of common passwords. The first failure wins.
  - the schema's validators: every path is required, the email must match
    `/^[^\s@]+@[^\s@]+\.[^\s@]+$/`, and the gender must be Male, Female or Other.
  - the two bcrypt helpers `comparePassword` and `hashedPassword`.
- **The user controller** (`src/controllers/userController.js`):
  - signup, login (`getUserByRoleEmailAndPassword`), `getUserById`, `getAllUsers`,
    `updateUser` and `deleteUser`.
  - They work over a users collection. The model holds it as a `map<Id, User>` in
    the class `UserCollection`.
  - The unique indexes on username and email are the collection's invariant
    (`UniqueKeys`).

bcrypt is abstract. A `Hasher` is a pair of functions, `hash(plaintext, salt)`
and `compare(plaintext, stored)`. The model relies on two facts about it
(`Bcrypt.Sound`):
- a plaintext always matches its own hash;
- a hash is never empty.

The random salt is a parameter of `Signup`. Document ids come from a counter
in the collection, which stands in for ObjectId generation.

Files:
- `wrappers.dfy`: `Option`.
- `bcrypt.dfy`: the hasher.
- `password_policy.dfy`: `validatePassword`.
- `user_schema.dfy`: the document, its validators and the password helpers.
- `user_controller.dfy`: the handlers and the collection.

What the proofs establish:
- The "Password is too common." branch can never be taken. Every common password
  consists of lower-case letters and digits only. A password that passes the
  complexity check holds one of `@$!%*?&`, and lower-casing keeps that character.
- The policy therefore accepts exactly the passwords of length at least 8 that
  meet the complexity rule.
- A common password in any casing is refused for its length or for complexity.
  For example, `"PASSWORD"` is refused for complexity, not as a common password.
- Signup applies no password policy. Whether the saved document is valid does
  not depend on the password. The empty password is registered.
- Login answers an unknown email and a wrong password with the same outcome,
  `InvalidCredentials`. On success it returns the document without its password.
  After a signup, login with the same email and password succeeds.
- `updateUser` writes a supplied password as plaintext. After such an update, login
  with that password succeeds only if bcrypt would accept the plaintext as its
  own hash.

Behaviour of the code that the model follows:
- No reset-password or forgot-password flow exists in the code, so none is modelled.
- Signup never calls `validatePassword`. The only content checks on signup are:
  - the username/email guard (400);
  - the schema validators at save time. A refused document takes the 500 path
    and nothing is stored.
- The complexity rule also limits every character to `[A-Za-z0-9@$!%*?&]`. So a
  space, `#` or `-` anywhere makes a long password fail.
- `findByIdAndUpdate` runs no schema validators. Mongoose leaves update validators
  off by default. So an update may store a malformed email, an unknown gender or
  an empty field. The unique indexes still refuse a duplicate username or email,
  which gives the 400 path.
- `getUserById` and `getAllUsers` return documents with their password hashes.
  Only login removes the password.

## Model

| member | source | states |
|---|---|---|
| `PasswordPolicy.ScanPassword` | src/models/User.js:55-56 | one pass over the password finds exactly the character classes (lower, upper, digit, special) that occur in it, and whether every character is in `[A-Za-z0-9@$!%*?&]` |
| `PasswordPolicy.ComplexityTest` | src/models/User.js:55-56 | the complexity test holds iff the password has a lower-case letter, an upper-case letter, a digit and one of `@$!%*?&`, and no other character |
| `PasswordPolicy.ToLowerCase` | src/models/User.js:67 | lower-casing keeps the length and lowers each ASCII capital in place, leaving other characters unchanged |
| `PasswordPolicy.ValidatePassword` | src/models/User.js:49-71 | shorter than 8 gives TooShort and no later check; otherwise failing complexity gives InsufficientComplexity; TooCommon iff long, complex and lower-cased in the list; Accepted iff all three checks pass |
| `PasswordPolicy.Violation.Message` | src/models/User.js:52-68 | the three error messages validatePassword throws, word for word, one per refusal |
| `PasswordPolicy.RefusedWhenNotComplex` | src/models/User.js:51-58 | a password failing complexity is refused with TooShort when shorter than 8, otherwise with InsufficientComplexity |
| `PasswordPolicy.CommonPasswordsAreLowerAndDigits` | src/models/User.js:61-66 | every one of the 24 common passwords consists of lower-case letters and digits only |
| `PasswordPolicy.ComplexNeverLowerAndDigits` | src/models/User.js:55-67 | the lower-cased form of a password meeting the complexity rule keeps its special character, so it is not made of lower-case letters and digits only |
| `PasswordPolicy.ComplexNeverCommon` | src/models/User.js:55-67 | a password meeting the complexity rule never lower-cases to a common password |
| `PasswordPolicy.TooCommonUnreachable` | src/models/User.js:49-71 | validatePassword never fails with "Password is too common." |
| `PasswordPolicy.AcceptedIffLongAndComplex` | src/models/User.js:49-71 | the policy accepts exactly the passwords of length at least 8 meeting the complexity rule; the denylist never decides |
| `PasswordPolicy.CommonPasswordFailsComplexity` | src/models/User.js:55-67 | any password whose lower-cased form is a common password fails the complexity rule |
| `PasswordPolicy.AllCapsPasswordRefusedForComplexity` | src/models/User.js:55-68 | "PASSWORD" is refused for complexity, not as a common password |
| `PasswordPolicy.ForeignCharacterRefused` | src/models/User.js:55-58 | a password of length at least 8 holding any character outside `[A-Za-z0-9@$!%*?&]` is refused for complexity |
| `PasswordPolicy.SampleAccepted` | src/models/User.js:49-71 | "Abcdef1!" is accepted |
| `UserSchema.ValidEmailMatchesPattern` | src/models/User.js:15-17 | an email the validator accepts splits as a + "@" + b + "." + c with a, b, c non-empty runs of `[^\s@]` |
| `UserSchema.PatternMatchIsValidEmail` | src/models/User.js:15-17 | every a + "@" + b + "." + c with a, b, c non-empty runs of `[^\s@]` is accepted by the validator |
| `UserSchema.SampleEmailValid` | src/models/User.js:16 | "alice@example.com" passes the email validator |
| `UserSchema.EmailValidatorMatchesPattern` | src/models/User.js:14-19 | the validator accepts exactly the strings the regular expression matches |
| `UserSchema.ValidEmailShape` | src/models/User.js:16 | an accepted email has no white space, exactly one '@' that is neither first nor last, and a '.' in the domain that is neither the domain's first nor last character |
| `UserSchema.IsValidEmail` | src/models/User.js:14-17 | the email validator: split at the first '@', a non-empty run of `[^\s@]` before it, and after it a run of `[^\s@]` with an inner '.'; proved equal to the expression by `EmailValidatorMatchesPattern` |
| `UserSchema.IsValidGender` | src/models/User.js:33-36 | the enum validator on `gender`: one of Male, Female, Other |
| `UserSchema.IsPresent` | src/models/User.js:5-36 | `required: true` on a String path: the value is not the empty string |
| `UserSchema.IsValidDocument` | src/models/User.js:4-38 | the validation `save()` runs: every String path present, the email validator and the gender enum; characterised by `ValidDocumentIff` |
| `UserSchema.ValidDocumentIff` | src/models/User.js:4-38 | a document passes the schema iff username, password and full name are non-empty, the email matches the pattern and gender is Male, Female or Other |
| `UserSchema.ComparePassword` | src/models/User.js:41-47 | with a sound hasher, a candidate matches any stored hash made from it |
| `UserSchema.HashedPassword` | src/models/User.js:73-80 | with a sound hasher, the hash is non-empty and the plaintext matches it |
| `UserController.NewRecord` | src/controllers/userController.js:27-34 | the new document carries the hash in `password` and the other five request fields unchanged |
| `UserController.UniqueKeys` | src/models/User.js:5-13 | the unique indexes on username and email: no two stored documents share a username, and no two share an email |
| `UserController.InUse` | src/controllers/userController.js:14-18 | the signup guard's `$or` query finds a stored document with the requested username or with the requested email |
| `UserController.ClashesWithOthers` | src/controllers/userController.js:119-126 | the unique indexes of src/models/User.js:5-13 refusing an update: the patched document shares a username or an email with another stored document, which the catch turns into a 400 |
| `UserController.FindByEmail` | src/controllers/userController.js:56 | finds no document iff none has the email; a found id is stored and has the email |
| `UserController.WithoutPassword` | src/controllers/userController.js:63-67 | the document login returns: the id and every field except the password |
| `UserController.Login` | src/controllers/userController.js:51-71 | LoggedIn iff some document has the email and its stored hash matches the password; the result is that document without its password; an unknown email gives InvalidCredentials |
| `UserController.GetUserById` | src/controllers/userController.js:104-114 | not found iff the id is absent; otherwise the stored document, password included |
| `UserController.GetAllUsers` | src/controllers/userController.js:93-100 | the result holds exactly the stored documents with their ids |
| `UserController.ApplyPatch` | src/controllers/userController.js:119 | each of the six fields supplied in the body replaces the stored one verbatim (the password unhashed); every absent field keeps its stored value |
| `UserController.UserCollection.Signup` | src/controllers/userController.js:4-45 | AlreadyInUse iff a stored user shares the username or the email; SaveFailed iff not in use and the hashed document fails validation; both leave the collection unchanged; Registered adds exactly the hashed document under a fresh id; the unique indexes hold afterwards |
| `UserController.UserCollection.UpdateUser` | src/controllers/userController.js:117-127 | not found iff the id is absent; DuplicateKey iff the patched document would share a username or email with another; otherwise only that document changes, to the patched one, which is returned |
| `UserController.UserCollection.DeleteUser` | src/controllers/userController.js:130-140 | not found iff the id is absent; the collection afterwards is the old one without that id |
| `UserController.InsertKeepsUniqueKeys` | src/controllers/userController.js:14-18 | adding a document whose username and email are both unused keeps usernames and emails unique |
| `UserController.ReplaceKeepsUniqueKeys` | src/controllers/userController.js:119 | replacing a document by one that clashes with no other keeps usernames and emails unique |
| `UserController.SignupThenLogin` | src/controllers/userController.js:20-67 | after signup stores a document, login with the same email and password returns that document without its password |
| `UserController.SignupValidityIgnoresPassword` | src/controllers/userController.js:20-37 | whether the document signup saves is valid does not depend on the password, so no password policy is applied |
| `UserController.SignupAcceptsEmptyPassword` | src/controllers/userController.js:4-45 | the empty password is refused by the policy, yet signup on an empty collection builds a valid document for it with the username and email unused, so by `Signup`'s contract a fresh collection registers it |
| `UserController.LoginAfterPasswordUpdate` | src/controllers/userController.js:119 | a password written by update is stored as given, and login with it succeeds iff bcrypt accepts the plaintext as its own hash |
| `UserController.LoginFailuresIndistinguishable` | src/controllers/userController.js:58-61 | an unknown email and a known email with a wrong password give the same InvalidCredentials |

## Left out

- `getUserByPhone` (src/controllers/userController.js:74-88) is not modelled. No route
  reaches it, and it queries a `phoneNumber` path the schema does not define. Its result
  depends on Mongoose's filter casting.
- bcrypt internals are not modelled: salt generation, the cost factor of 10 and the
  digest comparison. The hasher is abstract and the salt is a parameter. The model does
  not claim that two hashes of one plaintext differ, or that a wrong password never matches.
- UserSchema.ComparePassword: states only that a candidate matches its own hash. When
  bcrypt.compare rejects a candidate is left to the abstract hasher.
- The process bootstrap (index.js), the database connection (config/env/database.js), the
  route table (src/routes/userRoutes.js) and the Order schema (src/models/Order.js) are not
  part of this model. They are I/O or carry no behaviour.
- Store failures are not modelled. These are lost connections, and the 500 and 400 paths
  they take in every handler.
- Mongoose casting is not modelled. Request fields are present strings, and the date of
  birth is an integer. Missing or wrongly typed body fields, and malformed ids, are not
  modelled. Ids are natural numbers.
- Concurrent signups are not modelled. A signup and a save that race on the same username
  or email would be settled by the unique index at save time. Handlers here run one at a time.
- HTTP status codes and JSON bodies are reduced to outcome tags. The messages are noted
  beside each tag. The `__v` version key is not modelled.
- UserController.ApplyPatch: covers update bodies of plain schema fields only. A body
  carrying update operators (`$unset`, `$inc`, `$rename`, `$push`, ...) is passed through
  as given by Mongoose and is not modelled; for example removing the stored hash, after
  which login's bcrypt.compare throws and login answers 500. A body setting `_id`, which
  the database refuses as an immutable field and the handler answers with 400, is not
  modelled either.
- UserController.GetAllUsers: returns a set. The natural order in which `User.find()`
  lists documents is not modelled.
- PasswordPolicy.ToLowerCase: lowers ASCII capitals only. Only passwords that passed the
  complexity check reach it, and those are all ASCII, so it agrees with JavaScript there.
- Lengths count characters, where JavaScript counts UTF-16 code units. The two differ only
  for characters outside the Basic Multilingual Plane.
