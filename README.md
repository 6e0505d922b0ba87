# odin-book-backend request helpers and validation rules

This is a Dafny model of `controllers/internalFunctions.js` in the odin-book backend. That file holds the request-level helpers the Express controllers share:

- **Bearer-token extraction.** `getTokenFromReq` splits the `Authorization` header on `" "` and keeps the last piece. It answers `null` when the header is absent.
- **Error envelopes.** `generateIndividualErrorMessage` and `generateErrorMessageFromArray` build the `{ errors: [ { message }, ... ] }` body the API sends with an error status.
- **Rule sets.** `trimFields`, `validateProfile`, `validateUpdate` and `validateUser` are express-validator rule sets. They sanitize the form body and gather validation errors.

The model is pure, like the source: datatypes, functions and lemmas.

- `Wrappers` holds `Option`, which stands for JavaScript's `undefined`/`null`.
- `Strings` holds two pieces of string logic:
  - validator.js `trim`, which strips the characters of the regular-expression class `\s`;
  - JavaScript `split(" ")`, modelled together with its inverse `Join`.
- `Envelopes` holds the two error builders and the shape of a validation error.
- `Tokens` holds `getTokenFromReq` over a header map. Node lower-cases header names, so the key is `authorization`.
- `Rules` holds the chain kinds the rule sets use and the four rule sets. Each `body(field)` chain runs in declaration order:
  - `trim()` writes back into the body;
  - an absent field is read as `""`;
  - `withMessage` labels only the validator just before it, so a validator without one reports `"Invalid value"`;
  - `bail()` stops its chain;
  - `optional({ checkFalsy: true })` belongs to the whole chain, so no step of it runs on a falsy value: an absent or empty `website` is neither trimmed nor checked.
- `Scenarios` replays the inputs of the integration tests (`test/profile.test.js`, `test/user.test.js`). It shows the helpers produce what those tests expect in the response body.

`isEmail` and `isURL` belong to validator.js. They are parameters of type `string -> bool`, and nothing about them is assumed beyond what a lemma requires.

## Model

| member | source | states |
|---|---|---|
| Strings.Trim | controllers/internalFunctions.js:40 | validator.js `trim()`: the result is never longer than the input; its exact shape is stated by TrimSpec |
| Strings.TrimStartSpec | controllers/internalFunctions.js:44 | the result of dropping leading whitespace is a suffix of the input; everything dropped is whitespace; the result is empty or starts with non-whitespace |
| Strings.TrimEndSpec | controllers/internalFunctions.js:44 | the result of dropping trailing whitespace is a prefix of the input; everything dropped is whitespace; the result is empty or ends with non-whitespace |
| Strings.TrimSpec | controllers/internalFunctions.js:40 | `trim()` returns a contiguous slice of its input with only whitespace cut on either side, and the slice does not begin or end with whitespace |
| Strings.TrimEmpty | controllers/internalFunctions.js:44-45 | a value trims to `""` exactly when it is all whitespace, which is when `exists({ checkFalsy: true })` fails on the name |
| Strings.TrimUnchanged | controllers/internalFunctions.js:40 | a value that neither begins nor ends with whitespace is left unchanged by `trim()` |
| Strings.TrimIdempotent | controllers/internalFunctions.js:40 | trimming twice gives the same result as trimming once |
| Strings.TrimDropsTrailingSpace | controllers/internalFunctions.js:83 | `trim()` of a word followed by one space gives back the word |
| Strings.Split | controllers/internalFunctions.js:23 | `split(" ")` yields at least one piece and no piece contains a space; with JoinSplit and SplitJoin this fixes it as the inverse of joining with spaces |
| Strings.JoinSplit | controllers/internalFunctions.js:23 | joining the pieces of `split(" ")` with spaces gives back the header |
| Strings.SplitJoin | controllers/internalFunctions.js:23 | splitting space-free pieces joined by spaces gives back exactly those pieces |
| Strings.SplitNoSpace | controllers/internalFunctions.js:23 | a string without a space splits into itself alone |
| Strings.SplitCons | controllers/internalFunctions.js:23 | splitting `a + " " + b`, where `a` has no space, gives `a` followed by the pieces of `b` |
| Strings.JoinSnoc | controllers/internalFunctions.js:23-24 | a join of two or more pieces is the join of all but the last, a space, and the last piece |
| Strings.LastPieceIsLastSegment | controllers/internalFunctions.js:24 | the last piece of the split is the space-free tail of the header that follows its last space, or the whole header |
| Strings.LastSegmentUnique | controllers/internalFunctions.js:24 | that tail is unique, so any definition of "after the last space" gives the same token |
| Strings.AfterLastSpace | controllers/internalFunctions.js:24 | a definition that reads from the right end of the header meets the last-segment description |
| Envelopes.FromArray | controllers/internalFunctions.js:4-12 | the envelope built from an error array has one item per validation error |
| Envelopes.FromArrayAt | controllers/internalFunctions.js:6-8 | item `i` of the envelope carries the `msg` of validation error `i` |
| Envelopes.FromArrayMessages | controllers/internalFunctions.js:4-12 | the envelope's messages are the errors' messages, in the same order |
| Envelopes.FromArrayAppend | controllers/internalFunctions.js:6 | the envelope of two concatenated error arrays is the concatenation of their envelopes |
| Envelopes.FromArrayEmpty | controllers/internalFunctions.js:6 | the envelope has no items exactly when there are no validation errors |
| Envelopes.Individual | controllers/internalFunctions.js:14-18 | a single-error envelope has exactly one item, whose message is the given one |
| Envelopes.IndividualIsSingletonArray | controllers/internalFunctions.js:14-18 | the single-error envelope equals the envelope built from a one-element error array with that message |
| Tokens.TokenFromReq | controllers/internalFunctions.js:20-28 | the result is `null` exactly when the `authorization` header is absent; otherwise it is the last space-separated segment of the header |
| Tokens.TokenIsAfterLastSpace | controllers/internalFunctions.js:23-25 | the token equals the independent right-to-left definition of the text after the last space |
| Tokens.TokenHasNoSpace | controllers/internalFunctions.js:23-24 | an extracted token never contains a space |
| Tokens.SchemeThenToken | controllers/internalFunctions.js:23-25 | for a header `scheme + " " + t` with no space in either part, the token is exactly `t` |
| Tokens.BearerToken | controllers/internalFunctions.js:23-25 | for `"Bearer " + t`, where `t` has no space, the token is exactly `t` |
| Tokens.NoSpaceHeaderUnchanged | controllers/internalFunctions.js:23-24 | a header without a space is returned unchanged as the token |
| Tokens.TrailingSpaceEmptyToken | controllers/internalFunctions.js:23-24 | a header that ends in a space yields the empty token |
| Rules.TrimFields | controllers/internalFunctions.js:40 | `trimFields` records no error and always leaves `email` and `password` in the body |
| Rules.TrimFieldsEffect | controllers/internalFunctions.js:40 | `trimFields` records no error, sets `email` and `password` to their trimmed values (absent ones to `""`), keeps every other field, and is idempotent |
| Rules.ValidateProfile | controllers/internalFunctions.js:42-56 | `validateProfile` reports at most two errors, one per chain that has a validator; the exact list is ProfileErrors |
| Rules.ProfileErrors | controllers/internalFunctions.js:42-56 | `validateProfile` reports "Name must exist." when the trimmed name is empty, then "Website must be a valid URL." when the trimmed website is non-empty and not a URL, and nothing else |
| Rules.ProfileBlankMessageUnreachable | controllers/internalFunctions.js:45-49 | because of `bail()`, "Name must not be blank." is never reported |
| Rules.ProfileAccepted | controllers/internalFunctions.js:42-56 | the profile passes exactly when the trimmed name is non-empty and the trimmed website is empty or a URL |
| Rules.ProfileSanitized | controllers/internalFunctions.js:42-56 | after `validateProfile`, `name` and `about` hold their trimmed values (absent ones `""`); `website` is trimmed when it was sent and stays absent when it was not, because the optional chain skips its `trim()`; every other field is unchanged |
| Rules.ValidateUser | controllers/internalFunctions.js:80-96 | `validateUser` reports at most four errors: email, password length, missing confirmation and mismatch; the exact list is UserErrors |
| Rules.ValidateUserCorrected | controllers/internalFunctions.js:86-95 | the corrected signup rules report at most four errors; UserCorrectedConfirmRule states how they differ from the rules as written |
| Rules.UserErrors | controllers/internalFunctions.js:80-96 | `validateUser` reports, in this order: the email error, the password length error, `"Invalid value"` for an absent confirmation, and "Passwords must match." when the confirmation as submitted differs from the trimmed password |
| Rules.UserAllRejected | controllers/internalFunctions.js:80-96 | with a bad email, a bad-length password and a differing confirmation, exactly those three errors are reported, in declaration order |
| Rules.UserPasswordRules | controllers/internalFunctions.js:82-95 | the password error is reported exactly when the trimmed length is outside 6..16; the match error exactly when the confirmation is absent or differs from the trimmed password |
| Rules.UserSanitized | controllers/internalFunctions.js:80-96 | after `validateUser`, `email`, `password` and `confirmPassword` are trimmed (absent ones `""`) and every other field is unchanged |
| Rules.SignupTrailingSpaceRejected | controllers/internalFunctions.js:82-95 | a password and a confirmation typed identically with a trailing space are reported as not matching |
| Rules.UserCorrectedConfirmRule | controllers/internalFunctions.js:86-95 | with the corrected confirmation chain, "Passwords must match." is reported exactly when the confirmation is absent or its trimmed value differs from the trimmed password; on an already-trimmed confirmation the corrected rules agree with the rules as written |
| Rules.SignupTrailingSpaceAcceptedCorrected | controllers/internalFunctions.js:86-95 | with the correction, the identical trailing-space password and confirmation are not reported |
| Rules.ValidateUpdate | controllers/internalFunctions.js:58-78 | `validateUpdate` reports at most four errors: new email, new-password length, missing confirmation and mismatch; the exact list is UpdateErrors |
| Rules.ValidateUpdateCorrected | controllers/internalFunctions.js:68-77 | the corrected update rules report at most four errors; UpdateCorrectedConfirmRule states how they differ from the rules as written |
| Rules.UpdateErrors | controllers/internalFunctions.js:58-78 | `validateUpdate` reports, in this order: the new-email error, the new-password length error, `"Invalid value"` for an absent confirmation, and "Password confirmation must match." when the confirmation as submitted differs from the trimmed new password |
| Rules.UpdateAllRejected | controllers/internalFunctions.js:58-78 | with a bad new email, a bad-length new password and a differing confirmation, exactly those three errors are reported, in declaration order |
| Rules.UpdatePasswordRules | controllers/internalFunctions.js:64-77 | the new-password error is reported exactly when its trimmed length is outside 6..16; the match error exactly when the confirmation is absent or differs from the trimmed new password |
| Rules.UpdateBody | controllers/internalFunctions.js:58-78 | the body after `validateUpdate` is the input with `currentPassword`, `newEmail`, `newPassword` and `newPasswordConfirm` each replaced by its trimmed value, in chain order |
| Rules.UpdateSanitized | controllers/internalFunctions.js:58-78 | after `validateUpdate`, those four fields are trimmed (absent ones `""`) and every other field is unchanged |
| Rules.UpdateTrailingSpaceRejected | controllers/internalFunctions.js:64-77 | a new password and a confirmation typed identically with a trailing space are reported as not matching |
| Rules.UpdateCorrectedConfirmRule | controllers/internalFunctions.js:68-77 | with the corrected confirmation chain, the match error is reported exactly when the confirmation is absent or its trimmed value differs from the trimmed new password; on an already-trimmed confirmation the corrected rules agree with the rules as written |
| Scenarios.BrokenTokenExtracted | test/profile.test.js:71-82 | `Bearer broken_t0k3n` yields the token `broken_t0k3n`; rejecting it is left to the signature check |
| Scenarios.BlankNameResponse | test/profile.test.js:84-99 | a blank name with no website is answered with exactly the envelope for "Name must exist." |
| Scenarios.BadWebsiteResponse | test/profile.test.js:101-116 | a valid name with the website `not_a_w3b5ite` is answered with exactly "Website must be a valid URL." |
| Scenarios.BlankAboutPassedOn | controllers/internalFunctions.js:50 | the `about` chain is a plain `trim()` with no `optional`, so an `about` sent empty or not sent at all is passed on as `""`; the profile test at test/profile.test.js:134-159 sees `""` as well, though the controller's own `|| ""` would give that too |
| Scenarios.SignupAllInvalidResponse | test/user.test.js:129-143 | a bad email, the password `12345` and the confirmation `123456` are answered with the email, password and confirmation messages in that order |
| Scenarios.SignupBadConfirmResponse | test/user.test.js:117-127 | a good email and password with the confirmation `12345` are answered with exactly "Passwords must match." |
| Scenarios.UpdateAllInvalidResponse | test/user.test.js:478-507 | an update with a bad new email, the new password `12345` and the confirmation `1234567` is answered with the three update messages in order |

## Left out

- `getUserInfoFromToken` (controllers/internalFunctions.js:30-38) verifies a JSON Web Token with jsonwebtoken. That is a cryptographic library call, so it is not modelled. The same goes for `sign` in controllers/securityController.js.
- `isEmail` and `isURL` are validator.js library behaviour. They are uninterpreted `string -> bool` parameters.
- Rules.LengthChain: validator.js `isLength` does not count U+FE0E and U+FE0F and counts a surrogate pair once. The model counts every Unicode scalar value, so it differs only on strings that contain those variation selectors.
- Form fields that arrive as arrays or objects (`a[]=x` bodies) are not modelled, and neither are JSON bodies, which `express.json()` (app.js:16) also accepts. Every body value is a string, as `express.urlencoded` gives for plain fields. A JSON number, boolean or `null` can reach the rules; a numeric `confirmPassword`, for instance, never passes the `!==` against the trimmed string `password` (controllers/internalFunctions.js:89), and the model does not show this.
- express-validator's handling of a field that is absent is modelled as read as `""` and written back as `""` after `trim()`. This follows its `toString(undefined) === ""` conversion. In an `optional({ checkFalsy: true })` chain, each step is modelled as running only when the field's current value is truthy, so an absent or empty `website` is left as it was. The library's internals are not part of this model.
- Routing, `app.js`, the controllers that call these helpers, the Prisma query layer, and the authorization middleware the tests exercise are not part of this model. The same goes for the status codes they send.
- `controllers/controller.js` holds leftovers (`formatDate`, `indexGet`, an unused `validateUser`/`validatePost`). `controllers/userController.js` loads, but its `createUser` handler throws a `ReferenceError` at line 46 (a stray `ˇ`, which parses as an identifier statement) and would again at line 55 (`newUser` is undefined), once validation has passed. Neither file is part of this model.

## Findings

| source | as written | input that shows it | evidently intended | confidence | as-written member | corrected member |
|---|---|---|---|---|---|---|
| controllers/internalFunctions.js:86-95 | the `password` chain has already trimmed `req.body.password` when the `custom` check compares it with the untrimmed `confirmPassword` | `password` and `confirmPassword` both `"123456 "` | the two fields are compared after trimming both, so identical input matches | medium, not executed | Rules.SignupTrailingSpaceRejected | Rules.UserCorrectedConfirmRule |
| controllers/internalFunctions.js:68-77 | the `newPassword` chain has already trimmed `req.body.newPassword` when the `custom` check compares it with the untrimmed `newPasswordConfirm` | `newPassword` and `newPasswordConfirm` both `"1234567 "` | the two fields are compared after trimming both, so identical input matches | medium, not executed | Rules.UpdateTrailingSpaceRejected | Rules.UpdateCorrectedConfirmRule |

The corrected rule sets are `Rules.ValidateUserCorrected` and `Rules.ValidateUpdateCorrected`. They differ from the rules as written only in the confirmation chain. Rules.SignupTrailingSpaceAcceptedCorrected shows that the corrected signup rules accept the input above.
On a confirmation without surrounding whitespace, which is what every test sends, the corrected and the written rule sets give the same result (the second clause of each corrected-rule lemma). The scenarios therefore state the written rules.
