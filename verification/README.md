# MY-VOTING-APP, modelled in Dafny

This project models the decision logic of an online voting application. The
application has an Express/Mongoose backend and a React frontend. The model
covers four parts:

- **The voter registry and its request handlers.** This is the `User` schema
  (validators, defaults, the e-mail normaliser and unique keys on aadhaar,
  phone and e-mail). It also covers the `/register`, `/login` and vote
  routes, and the two helper layers `userController.js` and
  `userOperations.js`.
  - The store is a sequence of records in insertion order, and `findOne`
    returns the first record that matches.
  - The voter list is a set of eligible aadhaar numbers.
  - The clock, fresh ids and store failures are parameters of each handler.
    A store failure is the message of the error thrown; whichever step
    throws, the handler gives the same reply and writes nothing. `save()`
    validates a document before it reaches the store, so where the first
    store access is a save, an invalid document gets its validation
    message even when the store is failing.
  - The schema's `timestamps` option is modelled: each record carries
    `createdAt` and `updatedAt`. A save stamps both with the handler's
    clock, and each voted update refreshes `updatedAt`.
  - `bcrypt` is a symbolic hash, `Hashed(x)`. A comparison succeeds only
    against the hash of the same plain text.
- **The face check of `/login`.** This is the Euclidean distance between two
  descriptors and the strict `< 0.6` threshold. Both are stated on the
  squared distance and `0.36`.
- **The client pages.** These are the input sanitisers, the ordered
  registration checks, the login gates and the form state of the two voter
  pages, plus the admin login decision.
- **The admin tools and the ballot.** This covers:
  - on the admin dashboard: form validation, analytics, the top-three
    ranking, selection and bulk status, and CSV import and export;
  - the list operations of the candidate manager;
  - the vote-button and dialog state machine of the voter ballot.

Each store-changing handler is a method on `Registry.UserCollection`, and
each page is a class whose fields are the page's state. Each method is tied
by its postcondition to a function of the old state; the properties are
proved as lemmas about that function. Pure code (validators, sanitisers,
CSV text, ranking, list operations) consists of functions and lemmas.

Three behaviours of the code as written are kept in the model:

- `/register` hashes the password, and the schema's pre-save hook hashes it
  again. A voter who registers through that route is therefore refused at
  `/login` with the same password (`AuthRoutes.RegisterThenLoginRefused`).
- The vote route has no check for an earlier vote, so a repeated vote
  succeeds again and overwrites the voting date
  (`VoteRoute.RepeatVoteOverwritesDate`).
- The page of `VoterAuth.jsx` posts its login form without a descriptor, so
  `euclidean` throws for every record with a stored descriptor and `/login`
  answers 500 (`AuthRoutes.MissingDescriptorFails`).

Lengths checked by the pages and the schema are JavaScript lengths, which
count UTF-16 code units (`Text.JsLength`).

## Model

| member | source | states |
|---|---|---|
| FaceMatch.Euclidean | backend/routes/auth.js:8-14 | The loop sums squared differences over the first vector's indices. The result is a number exactly when the second vector is at least as long, and `NaN` otherwise. |
| FaceMatch.ThresholdOnSquares | backend/routes/auth.js:113-115 | For a non-negative root of `s`, `root < 0.6` holds iff `s < 0.36`, so the strict threshold can be checked on squares. |
| FaceMatch.SelfMatch | backend/routes/auth.js:8-14 | A descriptor is at distance 0 from itself and matches itself. |
| FaceMatch.SelfDistanceZero | backend/routes/auth.js:8-14 | The partial sum of squares of a vector against itself is 0 for every prefix. |
| FaceMatch.SumSqSymmetric | backend/routes/auth.js:8-14 | The partial sums of squares do not depend on the order of the two vectors. |
| FaceMatch.DistanceSymmetric | backend/routes/auth.js:8-14 | For equal-length vectors the distance is symmetric. |
| FaceMatch.SumSqPrefix | backend/routes/auth.js:8-14 | Entries of the second vector beyond the summed prefix do not change the partial sum. |
| FaceMatch.ExtraEntriesIgnored | backend/routes/auth.js:8-14 | Extra trailing entries in the second vector never change the distance. |
| FaceMatch.ShorterNeverMatches | backend/routes/auth.js:8-14 | A second vector shorter than the first never matches, because the distance is `NaN`. |
| FaceMatch.Square | backend/routes/auth.js:11 | A squared difference is non-negative. |
| FaceMatch.Euclid | backend/routes/auth.js:8-14 | The squared distance, or `NaN` for a shorter second vector; `Euclidean` computes it by the source's loop. |
| FaceMatch.IsMatch | backend/routes/auth.js:113-115 | `distance < 0.6`, taken on squares by `ThresholdOnSquares`; false for `NaN`. |
| FaceMatch.SumSqTo | backend/routes/auth.js:10-13 | Every partial sum of squares is non-negative. |
| AuthRoutes.DuplicateKeyReply | backend/routes/auth.js:79-84 | A duplicate-key store error becomes a 400 whose message starts with the name of the key field. |
| AuthRoutes.Register | backend/routes/auth.js:17-87 | The handler's reply and the new store are those of the registration outcome, including the 500 of a thrown store or hash error, and the store's invariant is kept. |
| AuthRoutes.IneligibleRefusedFirst | backend/routes/auth.js:23-27 | An aadhaar that is not on the voter list is refused with "Aadhaar is not in voter list." before any other check, and nothing is written. |
| AuthRoutes.DuplicateOrder | backend/routes/auth.js:31-49 | Taken keys are checked in the order aadhaar, then e-mail, then phone. The first taken key decides the 400 message, and the store is unchanged. |
| AuthRoutes.RegisterFailureWritesNothing | backend/routes/auth.js:17-87 | A thrown store or hash error gives 500 with its message, and every outcome other than success leaves the store unchanged. |
| AuthRoutes.RegisteredMeansChecksPassed | backend/routes/auth.js:23-74 | A success implies the voter is eligible, that all three lookups found nothing, and that the save succeeded. Exactly the saved record is appended, and the reply carries only the message, the id and the name. |
| AuthRoutes.RegisteredRecord | backend/routes/auth.js:52-74 | The appended record has the submitted aadhaar, phone and descriptor, the normalised e-mail and trimmed name, a twice-hashed password, `hasVoted` false and no voting date. It also satisfies every schema rule. |
| AuthRoutes.RegisterSuccessRecord | backend/routes/auth.js:23-49 | After a success, no earlier record held the aadhaar, the e-mail or the phone. |
| AuthRoutes.RegisterDocumentDefaults | backend/routes/auth.js:55-64 | The document built for saving takes the submitted keys and descriptor, with `hasVoted` false and no voting date. |
| AuthRoutes.NoDuplicateKeyReply | backend/routes/auth.js:79-84 | In a sequential store the lookups rule out the duplicate-key path: registration never returns that reply. |
| AuthRoutes.ShortPasswordNotRejected | backend/routes/auth.js:52 | The schema's 8-character minimum is checked against the hash, so a short password passes it. |
| AuthRoutes.LoginOutcome | backend/routes/auth.js:90-135 | A thrown store error gives 500 with its message. Otherwise an unknown id and a wrong password give the same 401 "Invalid credentials". With the right password, login succeeds iff a descriptor is sent or the stored one is empty; a missing descriptor against a non-empty stored one gives 500 with the TypeError of `b[i]`. A success carries id, aadhaar, name, e-mail, hasVoted, phone and the face flag, and neither the password nor the descriptor. |
| AuthRoutes.MismatchIsNotAnError | backend/routes/auth.js:112-130 | Among sent descriptors, the descriptor changes only the `match` flag of a successful login, never whether it succeeds. |
| AuthRoutes.MissingDescriptorFails | backend/routes/auth.js:94-134 | A login without `loginDescriptor`, as the page of `VoterAuth.jsx` sends it, is a 500 for every record with a stored descriptor, even with the right password; the same login with a descriptor is a 200. |
| AuthRoutes.FaceMatched | backend/routes/auth.js:113-115 | With a sent descriptor the flag is the threshold test of the distance; without one (possible only for an empty stored descriptor) it is true. |
| AuthRoutes.RegisterOutcome | backend/routes/auth.js:17-87 | The ordered registration chain; its properties are stated by `RegisterFailureWritesNothing`, `RegisteredMeansChecksPassed`, `RegisteredRecord`, `IneligibleRefusedFirst` and `DuplicateOrder`. |
| AuthRoutes.RegisterDocument | backend/routes/auth.js:55-64 | The document the route saves; its fields are stated by `RegisterDocumentDefaults` and `RegisteredRecord`. |
| AuthRoutes.DigitsNormalizeToThemselves | backend/routes/auth.js:96-98 | A digit string is unchanged by the e-mail setter, so an aadhaar used as a login id is compared to e-mails as is. |
| AuthRoutes.StoredEmailIsNotAadhaar | backend/routes/auth.js:96-98 | A valid e-mail is never a valid aadhaar, nor its normalised form. |
| AuthRoutes.LoginByAadhaarFindsRecord | backend/routes/auth.js:96-98 | With unique aadhaars and valid e-mails, logging in with a record's aadhaar finds that record. |
| AuthRoutes.DoubleHashRefused | backend/routes/auth.js:106-110 | A record whose password was hashed twice is refused with 401 for its own password. |
| AuthRoutes.RegisterThenLoginRefused | backend/routes/auth.js:52 | Right after a successful registration, logging in with the same aadhaar and password is refused with 401. |
| VoteRoute.CastVote | backend/routes/vote.js:7-44 | The handler's reply and new store are those of the vote outcome, and the store's invariant is kept. |
| VoteRoute.VoteOutcome | backend/routes/vote.js:7-44 | The vote reply and new store; stated by `UnknownAadhaarNotFound`, `FaultWritesNothing`, `VoteUpdatesOnlyTarget` and `VotePreservesConsistent`. |
| VoteRoute.UnknownAadhaarNotFound | backend/routes/vote.js:11-27 | The reply is 404 "User not found" iff no record has the aadhaar, and then nothing changes. Any other reply without a store error is a 200. |
| VoteRoute.FaultWritesNothing | backend/routes/vote.js:40-43 | A store error gives a 500 with its message, and nothing changes. |
| VoteRoute.VoteUpdatesOnlyTarget | backend/routes/vote.js:11-38 | Only the matching record changes. It gets `hasVoted` true, and its voting date and `updatedAt` become the current time; every other field is kept. The 200 reply carries its id, name, flag and date. |
| VoteRoute.RepeatVoteOverwritesDate | backend/routes/vote.js:11-24 | Voting again with the same aadhaar succeeds again and overwrites the voting date. |
| VoteRoute.VoteNeverUnvotes | backend/routes/vote.js:7-44 | No record's `hasVoted` ever goes from true to false, and the number of records is kept. |
| VoteRoute.VotePreservesConsistent | backend/routes/vote.js:11-23 | A vote keeps every schema rule and the uniqueness of aadhaar, phone and e-mail. |
| UserController.FaceOrFalse | backend/controllers/userController.js:35 | `face_detected \|\| false` keeps a truthy value and replaces a falsy one with `false`. |
| UserController.RegisterUser | backend/controllers/userController.js:4-54 | The handler's result and new store are those of the registration outcome, and the store's invariant is kept. |
| UserController.RegisterUserOutcome | backend/controllers/userController.js:4-54 | The registration result and new store; stated by `ConflictIffTaken`, `RegisterUserSaved`, `RegisterUserSavesOne` and `RegisterUserFailureWritesNothing`. |
| UserController.ConflictField | backend/controllers/userController.js:18-21 | The name of the conflicting field; stated by `ConflictFieldNamed`. |
| UserController.AnyKeyLookupRulesOutClash | backend/controllers/userController.js:9-15 | When the `$or` lookup finds nothing, the new document clashes with no unique key. |
| UserController.ConflictIffTaken | backend/controllers/userController.js:9-27 | A conflict is reported iff some record shares the aadhaar, the phone or the e-mail, and then nothing is saved. |
| UserController.ConflictReply | backend/controllers/userController.js:17-27 | The conflict message names the field of the first record the `$or` lookup finds. |
| UserController.ConflictFieldNamed | backend/controllers/userController.js:18-21 | The field is tested on the found record in the order aadhaar, phone, e-mail. If only the normalised e-mail matches and the submitted e-mail is not normalised, the name is empty. |
| UserController.RegisterUserSaved | backend/controllers/userController.js:29-44 | A success means the lookup found nothing and the save succeeded. Exactly the saved record is appended, and its public profile is returned. |
| UserController.RegisterUserSavesOne | backend/controllers/userController.js:29-44 | The appended record has the submitted keys, the descriptor cast from `face_detected \|\| false`, a hashed password, no vote and a fresh id. |
| UserController.RegisterUserFailureWritesNothing | backend/controllers/userController.js:46-53 | Every result other than success leaves the store unchanged. |
| UserController.LoginUserOutcome | backend/controllers/userController.js:57-100 | A missing aadhaar or password is refused before any lookup, and a store error then gives "Login failed". A login succeeds iff there is no store error and the aadhaar's first record has the password; its profile is then returned. |
| UserController.UnknownAndWrongPasswordAlike | backend/controllers/userController.js:68-84 | An unknown aadhaar and a wrong password give the same "Invalid credentials". |
| UserController.RegisterThenLoginAccepted | backend/controllers/userController.js:29-90 | After a successful registration through the controller, which hashes once, login with the same aadhaar and password succeeds and returns the new profile. |
| UserController.LoginAfterAppend | backend/controllers/userController.js:68-90 | A record appended with a once-hashed password and a fresh aadhaar can log in with that password. |
| UserController.FindUserOutcome | backend/controllers/userController.js:103-127 | "User not found" is returned iff there is no store error and no record has the aadhaar. A store error gives "Failed to fetch user" with the error's message. With no store error, an aadhaar some record holds is found, and the profile is that of a record with the aadhaar. |
| UserController.MarkUserAsVoted | backend/controllers/userController.js:130-171 | The handler's result and new store are those of the once-only vote outcome, and the store's invariant is kept. |
| UserController.MarkUserAsVotedOutcome | backend/controllers/userController.js:130-171 | The once-only vote result and new store; stated by `SecondVoteRefused`, `AtMostOneVoteSucceeds` and `MarkUpdatesOnlyTarget`. |
| UserController.SecondVoteRefused | backend/controllers/userController.js:142-148 | A user who has already voted gets 400 "User has already voted", and nothing changes. |
| UserController.AtMostOneVoteSucceeds | backend/controllers/userController.js:132-161 | After a successful mark, a second mark for the same aadhaar never succeeds. |
| UserController.MarkUpdatesOnlyTarget | backend/controllers/userController.js:132-161 | A success marks only the first record with the aadhaar, which had not voted. The reply carries the aadhaar, name, flag and voting date. |
| UserController.SortDirection | backend/controllers/userController.js:176-179 | The direction is -1 exactly when `sortOrder` is absent or `'desc'`, and 1 otherwise. |
| UserController.TotalPages | backend/controllers/userController.js:194 | For a positive limit the page count is the ceiling of total/limit. A zero limit gives NaN for no users and Infinity otherwise. |
| UserController.CeilDivBounds | backend/controllers/userController.js:194 | The integer ceiling `n` satisfies `(n-1)*limit < total <= n*limit`. |
| UserController.PaginationDefaults | backend/controllers/userController.js:176-178 | The defaults are page 1, limit 10, sort by `createdAt` descending, and skip 0. |
| UserController.PageOfPosition | backend/controllers/userController.js:178-194 | The user at position `k` falls inside the skip window of page `k / limit + 1`, which is a valid page number. |
| UserController.PageWindow | backend/controllers/userController.js:181-185 | The listed users are the ordered users from `skip` on: exactly as many of them as the absolute value of the limit, or all remaining ones when fewer remain or the limit is 0. |
| UserController.Skip | backend/controllers/userController.js:178 | `(page - 1) * limit`; its use is stated by `PaginationDefaults` and `PageOfPosition`. |
| UserController.GetAllUsersOutcome | backend/controllers/userController.js:174-210 | A listing reports the page, the limit, the user count, the page count and the window of users. A store error gives "Failed to fetch users" with the error's message. With no store error and a non-negative skip, the result is a listing. |
| UserOperations.DuplicateMessage | backend/userOperations.js:11-16 | A duplicate-key error reads "<key field> already exists". |
| UserOperations.DuplicateMessages | backend/userOperations.js:11-16 | The three messages are "aadhaar already exists", "phone already exists" and "email already exists". |
| UserOperations.RegisterUser | backend/userOperations.js:4-23 | The handler's result and new store are those of `RegisterOutcome`, with the store error met only by a valid document, and the store's invariant is kept. |
| UserOperations.RegisterOutcome | backend/userOperations.js:4-23 | The save result and new store; stated by `ValidationBeforeFault`, `DuplicateReported` and `SaveReplyOutcomes`. |
| UserOperations.ValidationBeforeFault | backend/userOperations.js:6-7 | `save()` validates first: an invalid document gets its validation message whatever the store does. A valid one gets the store error if there is one. Success happens iff there is no store error, the document is valid and no key clashes. Nothing is written otherwise. |
| UserOperations.SaveReply | backend/userOperations.js:4-22 | The reply to one save; stated by `SaveReplyOutcomes`. |
| UserOperations.DuplicateReported | backend/userOperations.js:10-17 | For a valid document, the first clashing key in index order aadhaar, phone, e-mail is named, and nothing is saved. |
| UserOperations.SaveReplyOutcomes | backend/userOperations.js:4-22 | An invalid document gives the schema's validation message. Success happens iff the document is valid and clashes with no key; the record is then appended with a fresh id and a hashed password. |
| UserOperations.DocumentFields | backend/userOperations.js:6 | The saved document takes the submitted fields through the schema's setters and defaults. |
| UserOperations.FindUserByAadhar | backend/userOperations.js:26-34 | The result is null iff the store fails or no record has the aadhaar. Otherwise it is a record with the aadhaar. |
| UserOperations.MarkUserAsVoted | backend/userOperations.js:37-49 | The handler's result and new store are those of the unconditional mark outcome at the given time, and the store's invariant is kept. |
| UserOperations.MarkOutcome | backend/userOperations.js:37-49 | The unconditional mark, with `updatedAt` refreshed, and its result; stated by `MarkChangesOnlyFlag` and `MarkIdempotent`. |
| UserOperations.FlagKeepsKey | backend/userOperations.js:41 | Setting the flag changes none of the unique keys. |
| UserOperations.MarkChangesOnlyFlag | backend/userOperations.js:39-44 | Null is returned iff no record has the aadhaar, and then nothing changes. Otherwise only the first such record changes, and only in `hasVoted`, which becomes true, and in `updatedAt`, which becomes the current time. The updated record is returned. |
| UserOperations.MarkIdempotent | backend/userOperations.js:39-43 | Marking the same aadhaar twice leaves the store as one mark at the later time does. |
| UserOperations.GetAllUsers | backend/userOperations.js:52-60 | Every user is listed without its password, in store order. A store error gives the empty list. |
| UserOperations.Profiles | backend/userOperations.js:54 | The projection maps each record to its password-free profile, in order. |
| UserSchema.CastDescriptor | backend/models/user.js:87-88 | A descriptor is stored as is, and a boolean flag is cast to the one-number array `[1]` or `[0]`. |
| UserSchema.ProfileOf | backend/controllers/userController.js:105 | The profile keeps the id, keys, name, vote flag and date of the record, and also its timestamps. |
| UserSchema.ProfileHidesOnlyPassword | backend/controllers/userController.js:105 | Two records have the same profile iff they differ at most in their password. |
| UserSchema.NormalizeEmail | backend/models/user.js:44-45 | The stored e-mail is trimmed and has no upper-case letter. |
| UserSchema.NormalizeEmailIdempotent | backend/models/user.js:44-45 | Normalising an e-mail twice is normalising it once. |
| UserSchema.AadhaarError | backend/models/user.js:6-17 | The aadhaar is refused iff it is not exactly 12 digits. |
| UserSchema.NameError | backend/models/user.js:19-25 | The trimmed name is refused iff it is shorter than 2 or longer than 100 UTF-16 code units. |
| UserSchema.PhoneError | backend/models/user.js:27-38 | The phone is refused iff it is not 10 digits starting with 6 to 9. |
| UserSchema.EmailError | backend/models/user.js:40-53 | The e-mail is refused iff it does not have the shape local@host.tld, whose parts are non-empty and free of white space and `@`. |
| UserSchema.PasswordError | backend/models/user.js:55-59 | The stored password is refused iff it is shorter than 8 UTF-16 code units (a bcrypt hash is 60). |
| UserSchema.ValidAadhaar | backend/models/user.js:6-17 | Exactly 12 ASCII digits; `AadhaarError` is refused iff this fails. |
| UserSchema.ValidName | backend/models/user.js:19-25 | Between 2 and 100 UTF-16 code units after trimming; `NameError` is refused iff this fails. |
| UserSchema.ValidPhone | backend/models/user.js:27-38 | Ten ASCII digits, the first 6 to 9; `PhoneError` is refused iff this fails. |
| UserSchema.ValidEmail | backend/models/user.js:40-53 | The `local@host.tld` shape; `EmailParts` and `EmailOfParts` prove it equals the composition of its parts. |
| UserSchema.ValidPassword | backend/models/user.js:55-59 | At least 8 UTF-16 code units; `PasswordError` is refused iff this fails. |
| UserSchema.PathError | backend/models/user.js:5-89 | A schema path reports an error iff its value breaks that path's rule. |
| UserSchema.FailuresOver | backend/models/user.js:5-89 | The failures listed are exactly the failing paths, each with its own message. |
| UserSchema.ValidationErrors | backend/models/user.js:5-89 | A record has no validation error iff it satisfies every schema rule. |
| UserSchema.SchemaPathsCover | backend/models/user.js:5-89 | Schema validity is the conjunction of the rules of the listed paths. |
| UserSchema.NewUser | backend/models/user.js:61-93 | A new document has `hasVoted` false, no voting date, type "voter" and active status. Its name is trimmed and its e-mail normalised. `createdAt` and `updatedAt` are the registration time. |
| UserSchema.AadhaarIsNeverEmail | backend/models/user.js:12 | A valid aadhaar is never a valid e-mail. |
| UserSchema.EmailOfParts | backend/models/user.js:48 | Any non-empty local, host and tld parts free of white space and `@` form a valid e-mail. |
| UserSchema.EmailParts | backend/models/user.js:48 | Every valid e-mail splits into such parts. |
| Registry.FindOne | backend/routes/auth.js:96-98 | The lookup returns the first matching record, and none iff no record matches. |
| Registry.FirstClash | backend/routes/auth.js:79-84 | The first clashing unique key is reported in index order aadhaar, phone, e-mail, and none iff no key clashes. |
| Registry.NoClashOnAnyKey | backend/models/user.js:9 | No clash on the three keys means no clash at all. |
| Registry.LookupCoversIndex | backend/routes/auth.js:31-49 | A lookup on a key that finds nothing rules out a clash on that key. |
| Registry.LookupsRuleOutClash | backend/routes/auth.js:31-49 | Three empty lookups on aadhaar, e-mail and phone rule out every clash. |
| Registry.NothingFoundNoHolder | backend/routes/auth.js:31-49 | Three empty lookups mean no record holds any of the three keys. |
| Registry.NothingFoundByAnyKey | backend/controllers/userController.js:9-15 | An empty `$or` lookup means no record holds any of the three keys. |
| Registry.SaveOutcome | backend/models/user.js:96-104 | An invalid document fails with its validation errors. A clash fails with the first clashing key. Otherwise the document is saved with a fresh id and its password hashed by the pre-save hook. |
| Registry.UniqueAppend | backend/models/user.js:9 | Appending a record that clashes with no key keeps that key unique. |
| Registry.UniqueReplace | backend/models/user.js:9 | Replacing a record by one with the same key keeps the key unique. |
| Registry.SavePreservesConsistent | backend/models/user.js:5-104 | A successful save keeps every schema rule and every uniqueness constraint. |
| Registry.UpdatePreservesConsistent | backend/models/user.js:5-104 | An in-place update that keeps the id and keys and satisfies the schema keeps the store consistent. |
| Registry.AadhaarLookupFindsRecord | backend/models/user.js:9 | With unique aadhaars, looking up a record's aadhaar finds that record. |
| Registry.FindOneCongruence | backend/routes/auth.js:96-98 | Lists that agree on the head's match and on the lookup of their tails give the same lookup. |
| Registry.FindOneAfterReplace | backend/routes/vote.js:11-23 | Replacing a record by one that matches the filter alike leaves the lookup unchanged. |
| Registry.OwnAadhaarFound | backend/routes/auth.js:96-98 | With unique aadhaars and no e-mail equal to it, a record's aadhaar used as a login id finds that record. |
| Registry.FindOneAt | backend/routes/auth.js:96-98 | The lookup returns the first matching position. |
| Registry.AppendedFoundByAadhaar | backend/routes/auth.js:96-98 | An appended record with a fresh aadhaar is found at the end. |
| Registry.MarkVoted | backend/routes/vote.js:11-23 | A marked record has `hasVoted` true, and the given time as both its voting date and its `updatedAt`. |
| Registry.MarkVotedKeepsKeys | backend/routes/vote.js:11-23 | Marking changes only the flag, the voting date and `updatedAt`. The id, `createdAt`, the keys and schema validity are kept. |
| Registry.UserCollection.constructor | backend/models/user.js:108 | An empty collection is consistent. |
| Registry.UserCollection.Save | backend/models/user.js:96-104 | The collection gets the save outcome: the saved record appended on success and unchanged otherwise. It stays consistent. |
| Registry.UserCollection.Replace | backend/routes/vote.js:11-23 | One record is replaced in place and the collection stays consistent. |
| RegisterForm.Set | frontend/src/VoterLogin.jsx:188 | Setting a field changes that field only. |
| RegisterForm.SanitizeDigits | frontend/src/VoterLogin.jsx:172-186 | The kept text is the first `n` of the input's digits, or all of them when there are fewer: a prefix of the digits with length equal to the smaller of their count and `n`. |
| RegisterForm.SanitizeIdempotent | frontend/src/VoterLogin.jsx:172-186 | Sanitising twice is sanitising once, and a short all-digit value is kept as is. |
| RegisterForm.RegisterChangeEffect | frontend/src/VoterLogin.jsx:170-189 | Aadhaar keeps at most 12 digits and phone at most 10; other fields are stored verbatim. No other field changes, and re-entering the stored value changes nothing. |
| RegisterForm.RegisterChecks | frontend/src/VoterLogin.jsx:238-271 | The checks run in the order 12-digit aadhaar, 10-digit phone, a length of at least 8 UTF-16 code units, an upper-case letter, a symbol, a matching confirmation and a captured face. The form passes iff all hold, and each of the seven messages is given exactly when the earlier checks pass and its own fails. |
| RegisterForm.FirstRegisterError | frontend/src/VoterLogin.jsx:238-271 | The first failing check's message; stated by `RegisterChecks`. |
| RegisterForm.RegisterChange | frontend/src/VoterLogin.jsx:170-189 | The register input rule; stated by `RegisterChangeEffect`. |
| RegisterForm.LengthCountsCodeUnits | frontend/src/VoterLogin.jsx:252 | "Ab!" followed by three emoji is 6 characters but 9 UTF-16 code units, so it passes the length check. |
| Text.JsLength | frontend/src/VoterLogin.jsx:252 | `s.length` counts UTF-16 code units: at least the character count and at most twice it. |
| Text.JsLengthBmp | backend/models/user.js:19-25 | The code-unit count equals the character count iff every character is in the Basic Multilingual Plane. |
| RegisterForm.EmptyFormRefused | frontend/src/VoterLogin.jsx:244-247 | An empty form is refused with the aadhaar message. |
| RegisterForm.TwelveDigitsPassAadhaarCheck | frontend/src/VoterLogin.jsx:172-178 | Input with at least 12 digits always yields an aadhaar that passes the check. |
| RegisterForm.PhoneCheckLooserThanSchema | frontend/src/VoterLogin.jsx:248-251 | The page accepts a 10-digit phone that the schema refuses. |
| VoterLogin.LoginUserIdChange | frontend/src/VoterLogin.jsx:159-165 | An all-digit login id is cut to 12 digits, and any other id is kept unchanged. |
| VoterLogin.LoginUserIdShape | frontend/src/VoterLogin.jsx:159-165 | The stored id is all digits and at most 12 long when the input is all digits, and the change is idempotent. |
| VoterLogin.LoginDecision | frontend/src/VoterLogin.jsx:209-222 | Login is accepted iff the status is 200 and `match` is true. `match: false` gives the face-mismatch outcome. |
| VoterLogin.VoterLoginPage.constructor | frontend/src/VoterLogin.jsx:14-30 | The page opens with empty forms, no messages, no descriptors and the cameras off. |
| VoterLogin.VoterLoginPage.ChangeLoginUserId | frontend/src/VoterLogin.jsx:157-166 | Only the login id changes, to its sanitised value; the messages, cameras, descriptors and the register form are unchanged. |
| VoterLogin.VoterLoginPage.ChangeLoginPassword | frontend/src/VoterLogin.jsx:167 | Only the login password changes, to the typed value; every other field is unchanged. |
| VoterLogin.VoterLoginPage.ChangeRegister | frontend/src/VoterLogin.jsx:170-189 | Only the register form changes, as the register change rule says; every other field is unchanged. |
| VoterLogin.VoterLoginPage.SubmitLogin | frontend/src/VoterLogin.jsx:192-233 | Without a descriptor the submit is refused with "Please capture your face to login." and nothing else changes. Otherwise the outcome is the login decision, and the descriptor, the form and the login camera are reset whatever the reply. The register form, its message, its camera and its descriptor are unchanged. |
| VoterLogin.VoterLoginPage.SubmitRegister | frontend/src/VoterLogin.jsx:235-310 | The first failing check sets its message and sends nothing. Otherwise the error is cleared. Only a 201 signs up, which empties the form and descriptor and turns the register camera off; another status shows `data.error` or "Registration failed", and a failed request shows nothing. The login side is unchanged. |
| VoterAuth.ErrorOr | frontend/src/VoterAuth.jsx:90 | The server's non-empty error is shown, else the fallback. |
| VoterAuth.LoginMessages | frontend/src/VoterAuth.jsx:72-96 | Exactly one of the error and success messages is set, and the success message is set iff the reply is 2xx. |
| VoterAuth.VoterAuthPage.constructor | frontend/src/VoterAuth.jsx:9-27 | The page opens with empty forms, no messages and no descriptor. |
| VoterAuth.VoterAuthPage.ChangeLogin | frontend/src/VoterAuth.jsx:44-45 | Login inputs are stored verbatim; the messages, the register form, the descriptor and the tab flag are unchanged. |
| VoterAuth.VoterAuthPage.ChangeRegister | frontend/src/VoterAuth.jsx:47-70 | Register inputs follow the same sanitising rule as the other voter page; every other field is unchanged. |
| VoterAuth.VoterAuthPage.SubmitLogin | frontend/src/VoterAuth.jsx:72-96 | Both messages are cleared, then set from the reply. The forms, the descriptor, the register messages and the tab flag are kept. |
| VoterAuth.VoterAuthPage.SubmitRegister | frontend/src/VoterAuth.jsx:98-169 | The first failing check sets its message and sends nothing. A 2xx reply sets the success message, empties all six fields, drops the descriptor and schedules the tab switch. Any other reply sets `data.error` or "Registration failed", a failed request the network message, and keeps the form. |
| AdminLogin.Decide | frontend/src/AdminLogin.jsx:18-43 | An empty field gives the missing-fields outcome. Access is granted iff the pair is exactly `admin1@domain.com`/`Admin123`, with role "admin". Every other pair is denied. |
| AdminLogin.OnlyOnePairGranted | frontend/src/AdminLogin.jsx:25-43 | For filled fields, the request is denied iff the pair differs from the built-in one. |
| AdminLogin.AdminLoginForm.constructor | frontend/src/AdminLogin.jsx:6-9 | The form opens empty, with no error and not loading. |
| AdminLogin.AdminLoginForm.Submit | frontend/src/AdminLogin.jsx:12-44 | The outcome is the decision on the typed pair, and its message is set. `loading` is false on every exit. |
| AdminDashboard.FormSet | frontend/src/AdminDashboard.jsx:468-473 | Setting a form field changes that field only. |
| AdminDashboard.FormChangeSetsInput | frontend/src/AdminDashboard.jsx:468-473 | A change stores the typed value in the named field and keeps the others. |
| AdminDashboard.FormChange | frontend/src/AdminDashboard.jsx:468-473 | The change rule; `FormChangeSetsInput` proves it always equals setting the field. |
| AdminDashboard.ValidateForm | frontend/src/AdminDashboard.jsx:475-490 | The form is valid iff name, image, position, party and description are non-blank after trimming, and then the error is empty. Otherwise the fixed message is set. |
| AdminDashboard.BlankFormRefused | frontend/src/AdminDashboard.jsx:475-490 | A form whose name is only white space is refused with the fixed message. |
| AdminDashboard.EmptyFormRefused | frontend/src/AdminDashboard.jsx:311-324 | The empty form is refused with the fixed message. |
| AdminDashboard.BlankTrimsToEmpty | frontend/src/AdminDashboard.jsx:477 | White space trims to the empty text. |
| AdminDashboard.BlankTrimStart | frontend/src/AdminDashboard.jsx:477 | White space loses everything to the leading trim. |
| AdminDashboard.CountStatus | frontend/src/AdminDashboard.jsx:364-372 | A status count never exceeds the number of candidates. |
| AdminDashboard.RoundDiv | frontend/src/AdminDashboard.jsx:397 | `Math.round(a / b)` is the integer nearest `a / b`, with halves rounded up. |
| AdminDashboard.AnalyticsFacts | frontend/src/AdminDashboard.jsx:359-399 | The three status counts add up to at most the candidate count. There is one live session iff some candidate is active. The average is total/count rounded, and the distinct positions and parties are at most the candidate count. |
| AdminDashboard.AnalyticsOf | frontend/src/AdminDashboard.jsx:359-399 | The analytics record; stated by `AnalyticsFacts`. |
| AdminDashboard.TotalVotes | frontend/src/AdminDashboard.jsx:360-363 | The sum of the vote counts; stated by `NonNegativeTotal` and `VotesWithinTotal`. |
| AdminDashboard.StatusCountsBound | frontend/src/AdminDashboard.jsx:364-372 | The active, inactive and suspended counts add up to at most the candidate count. |
| AdminDashboard.ActiveCountPositive | frontend/src/AdminDashboard.jsx:364-366 | The active count is positive iff some candidate is active. |
| AdminDashboard.ProjectionBound | frontend/src/AdminDashboard.jsx:373-374 | There are no more distinct positions or parties than candidates. |
| AdminDashboard.InsertByVotes | frontend/src/AdminDashboard.jsx:404 | Inserting adds exactly the candidate: the result is a permutation of the list plus it. |
| AdminDashboard.SortByVotes | frontend/src/AdminDashboard.jsx:403-404 | The sorted list is a permutation of the candidates. |
| AdminDashboard.InsertKeepsDescending | frontend/src/AdminDashboard.jsx:404 | Inserting into a list sorted by votes, highest first, keeps it sorted. |
| AdminDashboard.SortByVotesSorts | frontend/src/AdminDashboard.jsx:404 | The sorted list is in descending vote order. |
| AdminDashboard.TopPerforming | frontend/src/AdminDashboard.jsx:401-414 | The ranking has min(3, n) entries. |
| AdminDashboard.TopPerformingShape | frontend/src/AdminDashboard.jsx:401-414 | Entries are ranked 1..k, are candidates, and are in descending vote order. No candidate left out has more votes. Every percentage is 0 when the vote total is 0. |
| AdminDashboard.PercentageBounds | frontend/src/AdminDashboard.jsx:409-412 | With non-negative votes every percentage is between 0 and 100. |
| AdminDashboard.Percentage | frontend/src/AdminDashboard.jsx:409-412 | `Math.round(votes / total * 100)`, 0 for a zero total; stated by `PercentageBounds` and `PercentageRange`. |
| AdminDashboard.PercentageRange | frontend/src/AdminDashboard.jsx:409-412 | The rounded share of a part of a total is between 0 and 100. |
| AdminDashboard.VotesWithinTotal | frontend/src/AdminDashboard.jsx:360-363 | With non-negative votes each candidate's votes are within the total. |
| AdminDashboard.NonNegativeTotal | frontend/src/AdminDashboard.jsx:360-363 | With non-negative votes the total is non-negative. |
| AdminDashboard.Toggle | frontend/src/AdminDashboard.jsx:584-587 | Toggling flips the membership of exactly that id. |
| AdminDashboard.ToggleTwice | frontend/src/AdminDashboard.jsx:584-587 | Toggling twice restores the selection. |
| AdminDashboard.BulkStatus | frontend/src/AdminDashboard.jsx:749-751 | Selected candidates get the status and the others are kept, in order. |
| AdminDashboard.BulkStatusFacts | frontend/src/AdminDashboard.jsx:749-751 | An empty selection changes nothing, and only the status of a candidate changes. Applying the update twice is applying it once. |
| AdminDashboard.Dashboard.constructor | frontend/src/AdminDashboard.jsx:302-327 | The dashboard opens with no candidates, no selection, the empty form and no error. |
| AdminDashboard.Dashboard.ChangeForm | frontend/src/AdminDashboard.jsx:468-473 | Only the form changes, by the form-change rule. |
| AdminDashboard.Dashboard.Validate | frontend/src/AdminDashboard.jsx:475-490 | The result and the error message are those of the validation, and nothing else changes. |
| AdminDashboard.Dashboard.SelectCandidate | frontend/src/AdminDashboard.jsx:582-593 | The id is toggled, and "select all" holds iff the selection is as large as the non-empty candidate list. |
| AdminDashboard.Dashboard.SelectAll | frontend/src/AdminDashboard.jsx:570-580 | A full non-empty selection is cleared. Otherwise every candidate id is selected. |
| AdminDashboard.Dashboard.BulkUpdateStatus | frontend/src/AdminDashboard.jsx:743-757 | An empty selection changes nothing. Otherwise the selected candidates get the status and the selection is cleared. |
| CandidateCsv.CleanLines | frontend/src/AdminDashboard.jsx:613 | The kept lines are trimmed and non-empty, and there are no more of them than pieces; `CleanLinesSnoc` and `CleanLinesConcat` state which lines are kept and in what order. |
| CandidateCsv.CleanLinesSnoc | frontend/src/AdminDashboard.jsx:613 | One more piece adds its trimmed text at the end, unless that text is empty. |
| CandidateCsv.CleanLinesConcat | frontend/src/AdminDashboard.jsx:613 | Cleaning two runs of pieces gives the cleaned first run followed by the cleaned second run: each non-blank piece is kept, trimmed, in its place. |
| CandidateCsv.CleanCell | frontend/src/AdminDashboard.jsx:621 | A cleaned cell has no double quote and holds every other character of the trimmed text as often as it does. Trimmed text without quotes is kept as it is. |
| CandidateCsv.CleanCellDropsQuote | frontend/src/AdminDashboard.jsx:621 | Removing a quote leaves the cleaned text before it followed by the cleaned text after it, so the order is kept. |
| Text.RemoveCharConcat | frontend/src/AdminDashboard.jsx:621 | Removing a character from joined texts is removing it from each and joining the results. |
| Text.RemoveAround | frontend/src/AdminDashboard.jsx:621 | Removing a character around one occurrence of it leaves the cleaned text on each side, in order. |
| CandidateCsv.MissingOf | frontend/src/AdminDashboard.jsx:622-625 | A required column is reported missing iff no lower-cased header contains it. |
| CandidateCsv.RowOf | frontend/src/AdminDashboard.jsx:633-656 | A data line gives at most one candidate. A line whose value count differs from the header count gives none. Otherwise it gives one iff the name, party, position and description are non-empty, and the candidate then has that name and 0 votes. |
| CandidateCsv.RowsOf | frontend/src/AdminDashboard.jsx:632-657 | There are never more candidates than data lines. |
| CandidateCsv.BuildObject | frontend/src/AdminDashboard.jsx:638-641 | The loop builds the object keyed by the lower-cased headers, a later header winning. |
| CandidateCsv.ParseRows | frontend/src/AdminDashboard.jsx:631-657 | The loop yields the rows of the data lines in order. |
| CandidateCsv.ImportCsv | frontend/src/AdminDashboard.jsx:612-662 | The parse returns the import result, with its early exits for too few lines, missing columns and no valid row. |
| CandidateCsv.Import | frontend/src/AdminDashboard.jsx:612-662 | The parse result; `ImportCsv` computes it, and `ImportedRowsValid` and `ExportImportRoundTrip` state it. |
| CandidateCsv.RowObject | frontend/src/AdminDashboard.jsx:638-641 | The keyed object; stated by `RowObjectLookup` and `RowObjectKeys`. |
| CandidateCsv.RowFrom | frontend/src/AdminDashboard.jsx:643-655 | The imported candidate; stated by `RowsValid`. |
| CandidateCsv.ImportedRowsValid | frontend/src/AdminDashboard.jsx:643-655 | Every imported candidate has non-empty name, party, position, description and status, and no votes. |
| CandidateCsv.RowsValid | frontend/src/AdminDashboard.jsx:643-655 | Every row built from data lines has its required texts, a status and no votes. |
| CandidateCsv.RowObjectLookup | frontend/src/AdminDashboard.jsx:639-641 | A header not followed by another with the same lower-cased name maps to its own value. |
| CandidateCsv.RowObjectKeys | frontend/src/AdminDashboard.jsx:639-641 | Only lower-cased headers are keys of the object. |
| CandidateCsv.ExportFields | frontend/src/AdminDashboard.jsx:708-719 | A candidate exports exactly ten values. |
| CandidateCsv.ExportLines | frontend/src/AdminDashboard.jsx:707-720 | There is one line per candidate. |
| CandidateCsv.ExportLine | frontend/src/AdminDashboard.jsx:708-719 | One quoted, comma-joined line; `LineCells` proves it reads back as the ten values. |
| CandidateCsv.ExportCsv | frontend/src/AdminDashboard.jsx:705-721 | The exported text; `ExportImportRoundTrip` proves its import gives the candidates back. |
| CsvRoundTrip.ExportImportRoundTrip | frontend/src/AdminDashboard.jsx:705-721 | Exporting a non-empty list of candidates whose texts carry no comma, double quote or newline (surrounding white space is kept by the quotes), and whose required texts and status are set, then importing, gives back every candidate in order with its texts and no votes. |
| CsvRoundTrip.ContainedHeaderYieldsNoRows | frontend/src/AdminDashboard.jsx:622-643 | Headers such as "Full Name" pass the loose column check, yet no row of them is ever kept, because no key is exactly `name`. |
| CsvRoundTrip.ExportedLinesRows | frontend/src/AdminDashboard.jsx:632-657 | The data lines of an export import as the candidates' rows, in order. |
| CsvRoundTrip.RowsOfLines | frontend/src/AdminDashboard.jsx:632-657 | Data lines that each give exactly one row give those rows, in line order. |
| CsvRoundTrip.ExportLinesRead | frontend/src/AdminDashboard.jsx:612-621 | The exported text splits and cleans back into its header line and one line per candidate, and the header line reads back as the export headers. |
| CsvRoundTrip.ColumnsCovered | frontend/src/AdminDashboard.jsx:622-625 | Headers that each contain their own required column, once lower-cased, cover every required column. |
| CsvRoundTrip.ExportLinesSplit | frontend/src/AdminDashboard.jsx:705-721 | Splitting the exported text on newlines gives back its lines. |
| CsvRoundTrip.ExportLinesClean | frontend/src/AdminDashboard.jsx:613 | No exported line is lost or changed by the trim and blank-line filter. |
| CsvRoundTrip.HeaderCells | frontend/src/AdminDashboard.jsx:619-621 | The header line reads back as the ten export headers. |
| CsvRoundTrip.HeadersComplete | frontend/src/AdminDashboard.jsx:622-625 | The export headers include every required column. |
| CsvRoundTrip.PlainCells | frontend/src/AdminDashboard.jsx:619-621 | Plain pieces joined with commas read back as themselves. |
| CsvRoundTrip.LineCells | frontend/src/AdminDashboard.jsx:633-635 | An exported candidate line reads back as the candidate's ten values. |
| CsvRoundTrip.QuotedCell | frontend/src/AdminDashboard.jsx:635 | A quoted plain value cleans back to itself. |
| CsvRoundTrip.ExportedRow | frontend/src/AdminDashboard.jsx:633-655 | An exported candidate's line imports as that candidate, with no votes. |
| CandidateManager.NewEntry | frontend/src/CandidateManager.jsx:10 | The new entry has the submitted properties plus the fresh id and the two timestamps, which override submitted ones. |
| CandidateManager.AddAppends | frontend/src/CandidateManager.jsx:7-12 | Adding appends exactly one entry, with the fresh id, and keeps every earlier entry. |
| CandidateManager.Add | frontend/src/CandidateManager.jsx:7-12 | `addCandidate`; stated by `AddAppends` and `DeleteUndoesAdd`. |
| CandidateManager.Edited | frontend/src/CandidateManager.jsx:15 | Submitted properties overwrite, other properties are kept, and the update time is refreshed. |
| CandidateManager.EditChangesOnlyMatching | frontend/src/CandidateManager.jsx:14-16 | The length is kept, and only entries with the id change. An absent id changes nothing. |
| CandidateManager.Edit | frontend/src/CandidateManager.jsx:14-16 | `editCandidate`; stated by `EditChangesOnlyMatching`. |
| CandidateManager.DeleteRemovesOnlyMatching | frontend/src/CandidateManager.jsx:18-20 | What remains is exactly the entries without the id. |
| CandidateManager.Delete | frontend/src/CandidateManager.jsx:18-20 | `deleteCandidate`; stated by `DeleteRemovesOnlyMatching`, `DeleteOfConcat`, `DeleteAbsentKeepsList` and `DeleteIdempotent`. |
| CandidateManager.DeleteOfConcat | frontend/src/CandidateManager.jsx:18-20 | Deleting works piecewise, so the kept entries stay in order. |
| CandidateManager.DeleteAbsentKeepsList | frontend/src/CandidateManager.jsx:18-20 | Deleting an absent id leaves the list unchanged. |
| CandidateManager.DeleteIdempotent | frontend/src/CandidateManager.jsx:18-20 | Deleting twice is deleting once. |
| CandidateManager.DeleteUndoesAdd | frontend/src/CandidateManager.jsx:7-20 | Deleting a just-added fresh id gives back the list before the add. |
| VoterDashboard.Find | frontend/src/VoterDashboard.jsx:58 | The first candidate with the id is found, and none iff no candidate has it. |
| VoterDashboard.ButtonLabel | frontend/src/VoterDashboard.jsx:380 | The label is "Voted" iff the candidate is the one recorded for its position, and "Vote" otherwise. |
| VoterDashboard.ButtonRule | frontend/src/VoterDashboard.jsx:374-380 | Before a position's vote every button is enabled. After a vote, the chosen button reads "Voted" and stays enabled, the others of that position are disabled, and other positions are unaffected. |
| VoterDashboard.HasVotedFor | frontend/src/VoterDashboard.jsx:100-102 | The position holds a recorded vote; stated with the button rule by `ButtonRule`. |
| VoterDashboard.ButtonDisabled | frontend/src/VoterDashboard.jsx:378 | Disabled iff the position holds a vote for another candidate; stated by `ButtonRule` and `EnabledVoteIsFinal`. |
| VoterDashboard.EnabledVoteIsFinal | frontend/src/VoterDashboard.jsx:374-380 | A vote through an enabled button never replaces an earlier, different vote. |
| VoterDashboard.RecordKeepsVotesValid | frontend/src/VoterDashboard.jsx:66-70 | Recording a known candidate keeps every vote naming a candidate of its position. |
| VoterDashboard.VoteToast | frontend/src/VoterDashboard.jsx:86-97 | A 200 shows the success toast with the name. A failed request shows "Failed to cast vote". Any other status shows a non-empty error. |
| VoterDashboard.Ballot.constructor | frontend/src/VoterDashboard.jsx:8-55 | The ballot opens with the four built-in candidates, the rules dialog shown, and no selection, votes or accepted terms. |
| VoterDashboard.Ballot.HandleVote | frontend/src/VoterDashboard.jsx:57-63 | A known id is selected and opens the confirmation. An unknown id changes nothing. |
| VoterDashboard.Ballot.ConfirmVote | frontend/src/VoterDashboard.jsx:65-98 | With a selection, the vote is recorded and the dialog hidden whatever the reply. The selection is cleared iff the reply is 200. Without a selection nothing happens. |
| VoterDashboard.Ballot.CloseVotingConfirmation | frontend/src/VoterDashboard.jsx:134-137 | The dialog closes and the selection is cleared. |
| VoterDashboard.Ballot.ChangeTerms | frontend/src/VoterDashboard.jsx:130-132 | The accepted flag takes the checkbox value. |
| VoterDashboard.Ballot.CloseRulesModal | frontend/src/VoterDashboard.jsx:121-127 | The rules dialog closes only once the terms are accepted. Otherwise it stays open and the warning is shown. |
| VoterDashboard.Ballot.ToggleExpand | frontend/src/VoterDashboard.jsx:108-113 | Only that card's flag flips. |
| VoterDashboard.ToggleTwice | frontend/src/VoterDashboard.jsx:108-113 | Toggling a card twice restores every card. |
| VoterDashboard.MockBallotHasOneChoice | frontend/src/VoterDashboard.jsx:18-55 | All built-in candidates stand for one position, so a vote for one disables every other button. |
| VoterDashboard.LaterVoteWins | frontend/src/VoterDashboard.jsx:66-69 | Of two recorded votes for one position only the later remains. |

## Left out

- I/O is not part of this model. That covers `fetch` and its replies (a reply is a parameter), `FileReader`, the Blob download, `toast`, `navigate`, `localStorage`, `console` and timers. The tab switch after a registration on `VoterAuth.jsx` is a flag.
- The camera and the face-api capture are not modelled; a captured descriptor is an optional value of the page.
- Floating point is not modelled. Distances are exact reals kept squared, and `Math.round` is exact integer rounding.
- The voting-trend figures (`previousTotalVotes`, the `* 0.89` estimate and `votesChange`) are not modelled.
- `Number(c.votes) || 0` is not modelled: a vote count is an integer.
- Ties in the ranking keep list order, as the stable `Array.prototype.sort` does: the insertion sort places each candidate after every earlier one with at least as many votes. No lemma states this order.
- Concurrency is not modelled. The model is sequential, so the race between the check and the set in the controller's `markUserAsVoted` is not captured, and neither is the bulk delete's `Promise.all`.
- The single and bulk candidate deletes and saves of the admin dashboard only send requests and reload the list; they are not modelled.
- The duplicate-key path (code 11000) of `/register` is modelled but unreachable, because the model's store is sequential.
- `updateFaceDetection` and `getVotingStatistics` of the controller are not modelled. The first writes a `face_detected` path that the schema lacks; the second calls `getVotingStats`, which the schema does not define.
- The aadhaar hard-coded into the ballot's vote request is not modelled; the reply is a parameter.
- Lower-casing in `ToLower` and `NormalizeEmail` is ASCII only. White space for `trim` and `\s` is the full ECMAScript set (tab, line feed, vertical tab, form feed, carriage return, space, no-break space, the byte order mark, U+1680, U+2000 to U+200A, U+2028, U+2029, U+202F, U+205F, U+3000).
- `bcrypt` is a symbolic hash: salts and cost are not modelled, and a hash matches only the text it was made from.
- The copy of the schema and the stray top-level code after the routes in backend/routes/auth.js (lines 137-254) are not part of this model.
- Schema paths are read as plain strings with the setters applied; Mongoose casting of other types is not modelled. An absent request field is not modelled either: every field of a request body is a string.
- The names `userController.js` and `userOperations.js` use that the schema does not define (`aadhar_number`, `full_name`, `phone_number`, `email_id`, `has_voted`, `publicProfile`, `comparePassword`, `markAsVoted`) are read as the schema's fields and the operations they evidently mean. As written, `new User({ aadhar_number, ... })` leaves every required path empty, so a save by the controller's `registerUser` fails validation and answers "Registration failed"; lookups on those names depend on Mongoose's `strictQuery` setting, and the methods are undefined at run time. The model does not capture those failures.
- CandidateCsv.MissingOf: the toast text that joins the missing columns is not modelled, only the list.
- UserController.GetAllUsersOutcome: the `sort` itself is not modelled. The listing takes the users already ordered by the requested field and direction. `getAllUsers` also calls `User.getVotingStats` (backend/controllers/userController.js:188), which the schema does not define, so the code as written throws on every call and answers "Failed to fetch users". The `Listed` branch models the evident intent, with the statistics left out.
- VoterDashboard.Ballot.HandleVote: `getVotedCandidateId` is folded into the button functions.
- CandidateManager.NewEntry: the fresh id and the time are parameters, and distinct ids are not guaranteed by the model.
- The files that only render or forward callbacks (`WelcomePage.jsx`, `App.js`, `Candidate-list.jsx`, `Candidate-form.jsx`, the user context, `server.js`) are not part of this model.
