# User authentication controller of a code-review backend

This project models the user controller of the code-review platform's backend
(`UserAuthentication`). It has two parts.

- **The credential-format validator** (`isLegalFormat`), used by registration.
  It is modelled twice. `CredentialFormat.IsLegalFormatAsWritten` follows the code
  line by line. `CredentialFormat.IsLegalFormat` is the corrected validator that the
  method's own documentation describes.
- **The decision logic of the endpoints** `login`, `registerUser`, `reportUser`,
  `updateUserReputation`, `getReputation` and `isBanned`. Each is a pure function.
  The data store's answers are inputs: whether the credentials match, whether the
  username exists, the user a lookup finds (or null), and whether a create or a
  report succeeded. Each function returns the HTTP status, the response payload,
  and the one write it hands to the store (if any).

Modules:

- `Outcomes` (outcomes.dfy): a Java call either returns or throws an unchecked
  exception (`Outcome`); a lookup may return null (`Option`).
- `CredentialFormat` (credential_format.dfy): the validator, the documented rule,
  and the lemmas relating them.
- `UserAuthentication` (user_authentication.dfy): the endpoints. Registration takes
  a `Validator` argument, so it can be studied with the code as written
  (`AsWritten`) or with the corrected check (`Intended`).

An uncaught exception is modelled as `Thrown`. The status the web framework then
sends back is not part of this model.

Behaviour of the code worth noting:

- The self-vote guard compares the request's `uploaderName` with its `voterId`,
  a username with a field named as an id. The model keeps this comparison.
- `getReputation`, `isBanned` and `updateUserReputation` answer BAD_REQUEST for an
  unknown user, while `reportUser` answers NOT_FOUND.
- `reportUser` answers METHOD_NOT_ALLOWED whenever the store's `addReport` returns
  false, whatever the reason; the controller itself never looks at the report type.
- `login` checks the credentials first. If they match but the lookup then returns
  null, the code dereferences null. The model returns `Thrown(NullPointer)` in that case.

## Model

| member | source | states |
|---|---|---|
| CredentialFormat.ScanAcceptsIffAllPass | src/main/java/me/pointofreview/api/UserAuthentication.java:109-119 | a character loop accepts exactly when every character from its start index, lower-cased, passes the loop's test |
| CredentialFormat.IsLegalFormatAsWritten | src/main/java/me/pointofreview/api/UserAuthentication.java:96-104 | an empty username throws StringIndexOutOfBounds, because the first character is read before any length check; for a non-empty username, a username or password length outside 3..12 gives false |
| CredentialFormat.AsWrittenIsLengthCheck | src/main/java/me/pointofreview/api/UserAuthentication.java:96-122 | as written, for a non-empty username the verdict is exactly "both lengths lie in 3..12"; the character loops never reject |
| CredentialFormat.AsWrittenAcceptsSymbols | src/main/java/me/pointofreview/api/UserAuthentication.java:109-119 | username "a_b" with password "p@ss" is accepted, although the documented rule allows letters and digits only |
| CredentialFormat.AsWrittenAcceptsLeadingDigit | src/main/java/me/pointofreview/api/UserAuthentication.java:106-109 | username "1ab" is accepted, although the documented rule says a username starts with a letter |
| CredentialFormat.IsLegalFormatMatchesDocumentedRule | src/main/java/me/pointofreview/api/UserAuthentication.java:45-48 | the corrected validator accepts exactly the credentials the documentation allows: lengths 3..12, letters and digits only, username starting with a letter |
| CredentialFormat.IntendedAcceptsLessThanAsWritten | src/main/java/me/pointofreview/api/UserAuthentication.java:96-122 | every credential pair the corrected validator accepts is also accepted by the code as written |
| UserAuthentication.Login | src/main/java/me/pointofreview/api/UserAuthentication.java:33-43 | failed credentials give UNAUTHORIZED whatever the ban status; with matching credentials a banned user gets UNAVAILABLE_FOR_LEGAL_REASONS and never OK; a lookup that then finds no user throws NullPointer, and only then; OK carries the user; login never writes to the store |
| UserAuthentication.RegisterUser | src/main/java/me/pointofreview/api/UserAuthentication.java:56-72 | an existing username gives CONFLICT whatever the format; otherwise a bad format gives PRECONDITION_FAILED, and a throwing check propagates with the check's own fault; creation of exactly (username, password) is attempted iff the name is new and the format legal; OK iff that creation succeeded, SERVICE_UNAVAILABLE iff it failed |
| UserAuthentication.RegisterCreatesOnlyDocumentedCredentials | src/main/java/me/pointofreview/api/UserAuthentication.java:58-66 | with the corrected check, registration never throws and reaches the store iff the name is new and the credentials follow the documented rule |
| UserAuthentication.RegisterAsWrittenChecksOnlyLengths | src/main/java/me/pointofreview/api/UserAuthentication.java:58-66 | as written, a new non-empty username reaches the store iff both lengths are in 3..12 |
| UserAuthentication.RegisterAsWrittenThrowsOnEmptyUsername | src/main/java/me/pointofreview/api/UserAuthentication.java:58-62 | as written, registering a new empty username throws; with the corrected check it gets PRECONDITION_FAILED and no store write |
| UserAuthentication.ReportUser | src/main/java/me/pointofreview/api/UserAuthentication.java:83-94 | an unknown user gives NOT_FOUND with no store call; for a known user the report is handed to the store, and its failure gives METHOD_NOT_ALLOWED and its success OK carrying the user object as the store left it after the call |
| UserAuthentication.UpdateUserReputation | src/main/java/me/pointofreview/api/UserAuthentication.java:125-136 | an unknown uploader gives BAD_REQUEST and no update; a self-vote gives OK with no update; any other vote gives OK and exactly one update carrying the voter, the impression and the review-section id if non-empty, else the snippet id; the OK payload is the user object as it stands after the update, which the store may have changed in place |
| UserAuthentication.GetReputation | src/main/java/me/pointofreview/api/UserAuthentication.java:139-146 | an unknown user gives BAD_REQUEST; a known user gives OK with the user's score; the store is never written |
| UserAuthentication.IsBanned | src/main/java/me/pointofreview/api/UserAuthentication.java:155-163 | an unknown user gives BAD_REQUEST; a known user gives OK with the user's ban flag; the store is never written |
| UserAuthentication.UpdateUserReputationDependsOnlyOnChosenSource | src/main/java/me/pointofreview/api/UserAuthentication.java:130-133 | two requests that agree on uploader, voter, impression and chosen source id get the same answer and the same store update |
| UserAuthentication.UnknownUserAnswers | src/main/java/me/pointofreview/api/UserAuthentication.java:37-159 | a lookup that finds no user gives BAD_REQUEST from getReputation, isBanned and updateUserReputation, NOT_FOUND from reportUser, and a throw from login past the credential check, each exactly when the lookup fails; none of them then writes to the store |
| UserAuthentication.BannedUserCannotLogIn | src/main/java/me/pointofreview/api/UserAuthentication.java:39-40 | a user the ban endpoint reports as banned never gets OK from login |

## Left out

- Persistence: `UserDataStore` (credential check, lookups, `createUser`, `addReport`
  with its category validation, `updateUserReputation`). Its code is not part of
  this model, so its answers are inputs.
- `Reputation.calculate` and `ReportStatus.isBanned`: their code is not part of this
  model. A user's score and ban flag are opaque fields of `UserView`. Vote
  bookkeeping, score arithmetic and ban thresholds are therefore not modelled.
- The notification endpoints `getNotifications` and `addNotification` pass straight
  through to the store and have no logic of their own.
- The random user id from `UUID.randomUUID`: randomness is out of scope.
  `CreatedBody` carries only the username and password.
- Spring routing, annotations, request marshalling, and the status the framework
  sends for an uncaught exception.
- Null request fields: strings are never null in the model. `StringUtils.isEmpty` is
  therefore "length zero".
- `CredentialFormat.ToLower` maps only ASCII letters, one character to one
  character. Java's `toLowerCase` follows the default locale and Unicode. Under a
  Turkish or Azerbaijani locale 'I' lower-cases to dotless 'ı'; the Kelvin sign
  lower-cases to 'k'; and "I" followed by U+0307 lower-cases to the single "i", so
  the lower-cased string can be shorter than the original. Java counts string
  length in UTF-16 code units; the model counts characters.
- CredentialFormat.IsLegalFormatAsWritten: assumes lower-casing maps each character to
  one character (a locale other than Turkish or Azerbaijani, no length-changing
  mappings). In Java the loops index the lower-cased string up to the original
  length, so a non-empty username such as "aI" followed by U+0307 can also throw
  StringIndexOutOfBounds. The model throws only for the empty username.
- CredentialFormat.AsWrittenIsLengthCheck: rests on the same assumption. Under a
  length-changing lower-casing the as-written validator can throw for a non-empty
  username instead of returning the length verdict.
- CredentialFormat.IsLegalFormat: judges letters by ASCII lower-casing, so characters
  whose Java lower case is an ASCII letter (the Kelvin sign; under a Turkish or Azerbaijani locale also 'İ') are rejected
  here though Java's lower-casing would let them pass the intended test.
- `TagGenerator` and `User`: they are outside the controller. The first depends on
  a global random source, and the second delegates to reputation code that is not
  part of this model.

## Findings

| source | as written | input that shows it | evidently intended | confidence | as-written member | corrected member |
|---|---|---|---|---|---|---|
| src/main/java/me/pointofreview/api/UserAuthentication.java:111-117 | `(c >= '0' \|\| c <= '9')` holds for every character, so neither loop can reject | username "a_b", password "p@ss": accepted | `(c >= '0' && c <= '9')`: letters and digits only, as documented | high, not executed | CredentialFormat.AsWrittenAcceptsSymbols | CredentialFormat.IsLegalFormatMatchesDocumentedRule |
| src/main/java/me/pointofreview/api/UserAuthentication.java:97-101 | `username.charAt(0)` runs before the length check | new username "": StringIndexOutOfBounds instead of PRECONDITION_FAILED | reject a short username before reading any character | high, not executed | UserAuthentication.RegisterAsWrittenThrowsOnEmptyUsername | CredentialFormat.IsLegalFormatMatchesDocumentedRule |
| src/main/java/me/pointofreview/api/UserAuthentication.java:106-109 | the first-letter check is commented out, yet the username loop still starts at index 1 | username "1ab", password "abc": accepted | the username starts with a letter, as documented | medium, not executed | CredentialFormat.AsWrittenAcceptsLeadingDigit | CredentialFormat.IsLegalFormatMatchesDocumentedRule |
