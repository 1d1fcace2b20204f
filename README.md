# Law-firm website backend: authentication and dashboard content rules in Dafny

This project models two services of a TypeScript/Express/Mongoose backend for a law-firm website. It proves properties of the model.

**Authentication service** (`auth.service.ts`). This is the account lifecycle:
- registration, with replacement of an inactive account;
- activation by a mailed code;
- login;
- the forgot/verify/reset password flow;
- change password;
- the two resend flows;
- the two periodic sweepers that unset stale activation codes and stale `codeVerify` flags.

The Auth collection (credentials keyed by email) and the Admin collection (profiles keyed by the credential's object id) live in one object, `AuthService.AuthStore`. Its handlers update records field by field. Each handler is proved to do exactly what a pure step function of `AuthSpec` describes, and to keep the store invariant `AuthSpec.WellFormed`. `AuthProperties` proves what holds across several requests. Examples:
- a verified reset code cannot be reused;
- activation codes never expire at activation time and can be replayed;
- the sweepers interact with the resend flows in specific ways;
- over any sequence of requests, every successful password reset is preceded by its own successful code verification, with no other reset of that account in between.

**Dashboard content service** (`dashboard.service.ts`). `Collections` models a Mongo collection as a sequence of documents in natural order, each with an object id and a `createdAt` time. `Dashboard` models the service's rules on top of it:
- content items with an optional uploaded image;
- person field mapping and JSON parsing of list fields;
- get/delete by id, where a malformed id is rejected before any lookup;
- merge-on-update for CSR entries and awards;
- singleton upserts;
- subscriber deduplication by email;
- newest-first pagination of contact forms and subscribers, including what `Math.ceil(total / limit)` gives for every limit.

Values are modelled as follows:
- JavaScript values are `Js.JsValue`.
- A stored auth field is `AuthSpec.Maybe`: undefined, null or a value. JavaScript's `!==` tells null from undefined, and the code depends on it.
- Time is milliseconds passed in as `now`.
- Random codes and fresh object ids are parameters.
- bcrypt is a pair of functions fixed at construction (`hash`, `matches`).
- `ENUM_USER_ROLE` is a set of strings.
- `Types.ObjectId.isValid` is the collection's `validId`.
- `JSON.parse` is a `parse` function that may fail.
- Each collection has a strict schema (`Collections.Schema`): its declared paths and which of them are arrays. A write stores only declared paths.

Some behaviours of the code are easy to miss. The model keeps them as written:
- **Re-registration.** Re-registering an inactive email deletes the old profile only when the old role is `ADMIN` or `SUPER_ADMIN`. For any other role the old profile remains; `AuthProperties.ReRegisterInactive` proves this.
- **Person fields.** `mapPersonFields` produces `experience`, `affiliation` and `socialLinks`, but the strict Person schema does not declare them. They are never stored; `Dashboard.PersonUnmappedNeverWritten` proves this.
- **Resent activation codes.** The resend flow writes the resent activation code's window to `verifyExpire`, not `expirationTime`. This moves any pending reset window. It also lets the activation sweeper unset the new code at its next tick; `AuthProperties.ResentActivationCodeSweptAtOnce` proves this.
- **Verification without an issued code.** A verification request with no code matches an account that never requested a reset, because both the stored code and the window are undefined. A reset follows; `AuthProperties.ResetWithoutIssuedCode` proves this.

## Model

| member | source | states |
|---|---|---|
| AuthSpec.Register | src/app/modules/auth/auth.service.ts:19-83 | Refused with 400 exactly when the role is missing or unknown, a field is missing, the passwords differ or the email has an active account, and then nothing changes. Otherwise every field of the new inactive credential is fixed: the new id, the body's name, role and password, the new code, a 3-minute `expirationTime`, and no reset code, reset window or `codeVerify`. Every other credential is kept. Exactly one profile is added: the new id, holding the body's other details. An inactive admin-role account's old profile is removed, no other profile changes, and two object ids are used. The store invariant is preserved. |
| AuthService.AuthStore.RegistrationAccount | src/app/modules/auth/auth.service.ts:19-83 | The handler leaves exactly the state and result of `AuthSpec.Register`, and keeps the store invariant. |
| AuthSpec.Activate | src/app/modules/auth/auth.service.ts:85-127 | A 400 error, with nothing changed, exactly when the email is unknown or the stored code is not strictly equal to the submitted one. On a match only `isActive` becomes true. The result is success iff the profile exists, with claims {credential id, role, profile id}. A missing profile fails after the write. |
| AuthService.AuthStore.ActivateAccount | src/app/modules/auth/auth.service.ts:85-127 | The handler leaves exactly the state and result of `AuthSpec.Activate`. |
| AuthSpec.Login | src/app/modules/auth/auth.service.ts:129-177 | The checks run in the source's order: unknown 404, inactive 404, blocked 403, stored password present and not matching 404. Success iff all pass and the profile exists. The result carries the credential id and the profile. |
| AuthService.AuthStore.LoginAccount | src/app/modules/auth/auth.service.ts:129-177 | Read only; the result is `AuthSpec.Login`'s, and success implies an active, unblocked account. |
| AuthSpec.Forgot | src/app/modules/auth/auth.service.ts:179-211 | An unknown email is an unclassified failure and changes nothing. An empty stored email is a 400. Otherwise the code and a 15-minute window are stored, and a failed mail send is a 500 after that write. |
| AuthService.AuthStore.ForgotPass | src/app/modules/auth/auth.service.ts:179-211 | The handler leaves exactly the state and result of `AuthSpec.Forgot`. |
| AuthSpec.VerifyResetCode | src/app/modules/auth/auth.service.ts:213-235 | Success iff the record exists, the stored code is strictly equal to the submitted one and the window has not passed (an undefined window never passes, a null one counts as 0). Success sets `codeVerify` true and nulls the code. Every failure is a 400 with nothing changed. |
| AuthService.AuthStore.CheckIsValidForgetActivationCode | src/app/modules/auth/auth.service.ts:213-235 | The handler leaves exactly the state and result of `AuthSpec.VerifyResetCode`. |
| AuthSpec.Reset | src/app/modules/auth/auth.service.ts:237-264 | Success iff the passwords are equal, the record exists and `codeVerify` is true. Success stores `hash(newPassword)` and clears `codeVerify`. A mismatch is reported before the lookup, and every failure is a 400 with nothing changed. |
| AuthService.AuthStore.ResetPassword | src/app/modules/auth/auth.service.ts:237-264 | The handler leaves exactly the state and result of `AuthSpec.Reset`. |
| AuthSpec.Change | src/app/modules/auth/auth.service.ts:266-291 | Different new passwords give 400. An unknown credential id gives 404. A stored password that does not match the old one gives 402. On success exactly that credential's password becomes the new password, unhashed. |
| AuthService.AuthStore.ChangePassword | src/app/modules/auth/auth.service.ts:266-291 | The handler leaves exactly the state and result of `AuthSpec.Change`. |
| AuthSpec.ResendActivation | src/app/modules/auth/auth.service.ts:293-357 | An unknown email is an unclassified failure and changes nothing. An empty stored email is a 400. Otherwise the new activation code is stored, `verifyExpire` becomes now + 3 minutes, and `expirationTime` is unchanged. |
| AuthService.AuthStore.ResendCodeActivationAccount | src/app/modules/auth/auth.service.ts:293-357 | The handler leaves exactly the state and result of `AuthSpec.ResendActivation`. |
| AuthSpec.ResendForgot | src/app/modules/auth/auth.service.ts:359-425 | A falsy email gives 400 "Email not found!". An unknown one gives 400 "User not found!". Otherwise a new reset code is stored with a 3-minute window. |
| AuthService.AuthStore.ResendCodeForgotAccount | src/app/modules/auth/auth.service.ts:359-425 | The handler leaves exactly the state and result of `AuthSpec.ResendForgot`. |
| AuthSpec.SweepActivationCodes | src/app/modules/auth/auth.service.ts:428-447 | Same records. The only field that changes is `activationCode`, which becomes undefined exactly on inactive records whose `expirationTime` has passed and whose code is neither null nor unset. Active records are untouched. |
| AuthService.AuthStore.UnsetExpiredActivationCodes | src/app/modules/auth/auth.service.ts:428-447 | One tick replaces the credentials by `AuthSpec.SweepActivationCodes` of them. Profiles and the id counter are unchanged, and the invariant holds. |
| AuthSpec.SweepCodeVerify | src/app/modules/auth/auth.service.ts:450-469 | Same records. Only `codeVerify` changes: it is unset on inactive records whose `verifyExpire` has passed. Active records are untouched. |
| AuthService.AuthStore.UnsetExpiredCodeVerify | src/app/modules/auth/auth.service.ts:450-469 | One tick replaces the credentials by `AuthSpec.SweepCodeVerify` of them, and nothing else changes. |
| AuthSpec.SweepsPreserveWellFormed | src/app/modules/auth/auth.service.ts:428-469 | Both sweeps keep the store invariant. |
| AuthProperties.VerifiedResetCodeNotReusable | src/app/modules/auth/auth.service.ts:220-233 | After a successful verification with a string code, the same code is refused with "Invalid reset code!" at any later time. |
| AuthProperties.SubmittedNullVerifiesAgain | src/app/modules/auth/auth.service.ts:220-232 | After a successful verification, a request whose code is null verifies again iff the window has not passed. The stored null is strictly equal to it. |
| AuthProperties.ResetWithoutIssuedCode | src/app/modules/auth/auth.service.ts:213-264 | On a freshly registered account, a verification without a code succeeds at any time, and the following reset stores the new password hash. No reset code was ever issued. |
| AuthProperties.ResetIsOneShot | src/app/modules/auth/auth.service.ts:250-262 | After a successful reset, any further reset fails. With matching passwords it fails as "not verified". |
| AuthProperties.ForgotCodeWindow | src/app/modules/auth/auth.service.ts:179-235 | The code stored at time t verifies at t + 15 minutes and is refused as expired at any later time, e.g. at t + 16 minutes. |
| AuthProperties.ResendForgotReplacesCode | src/app/modules/auth/auth.service.ts:359-373 | After a resend, an older code is refused, and the new one verifies iff at most 3 minutes have passed. |
| AuthProperties.CodeVerifySweepOnlyStopsInactiveResets | src/app/modules/auth/auth.service.ts:450-461 | After a successful verification and a code-verify sweep past the window, a reset succeeds iff the account is active: the sweep stops only inactive accounts' resets. |
| AuthProperties.RegisterThenActivate | src/app/modules/auth/auth.service.ts:19-127 | After a successful registration, activation with the issued code succeeds and activates the account. Any other code gets 400 "Code didn't match!". |
| AuthProperties.ActivationReplays | src/app/modules/auth/auth.service.ts:92-102 | Repeating a successful activation succeeds again with the same state and result: codes are neither consumed nor expired. |
| AuthProperties.SweptAccountActivatesWithoutCode | src/app/modules/auth/auth.service.ts:428-439 | Once the sweep has unset a stale code, an activation request without a code passes the code check and activates the account. |
| AuthProperties.ResentActivationCodeSweptAtOnce | src/app/modules/auth/auth.service.ts:301-305 | When the registration's `expirationTime` has passed, the next sweep unsets a freshly resent activation code. |
| AuthProperties.ReRegisterInactive | src/app/modules/auth/auth.service.ts:33-45 | Registering again over an inactive account succeeds. The credential is replaced and holds the new code. The first profile is deleted iff its role is an admin role. |
| AuthProperties.ActiveEmailCannotReRegister | src/app/modules/auth/auth.service.ts:33-36 | After a successful activation, a valid registration for that email is refused with "Email already exists". |
| AuthProperties.SweepActivationCodesIdempotent | src/app/modules/auth/auth.service.ts:431-439 | Two activation sweeps at the same time equal one. |
| AuthProperties.SweepCodeVerifyIdempotent | src/app/modules/auth/auth.service.ts:453-461 | Two code-verify sweeps at the same time equal one. |
| AuthProperties.SweepActivationCodesLaterSubsumes | src/app/modules/auth/auth.service.ts:428-439 | A sweep at t1 followed by one at t2 ≥ t1 equals the sweep at t2. |
| AuthProperties.OnlyVerificationVerifies | src/app/modules/auth/auth.service.ts:228-231 | Among all requests and sweeper ticks, only a successful code verification for the account can make its `codeVerify` true. |
| AuthProperties.VerifiedHasOrigin | src/app/modules/auth/auth.service.ts:213-235 | On any sequence of requests, a verified account either was verified from the start and stayed so, or some request verified its code and it has stayed verified since. |
| AuthProperties.ResetClearsVerification | src/app/modules/auth/auth.service.ts:259-262 | Right after a successful reset the account is not verified. |
| AuthProperties.NoResetWhileVerified | src/app/modules/auth/auth.service.ts:250-262 | While an account stays verified, no reset of it succeeds. |
| AuthProperties.EachResetHasItsOwnVerification | src/app/modules/auth/auth.service.ts:250-262 | On any sequence of requests, each successful reset follows a successful verification of its own (or an account verified from the start), with no successful reset of the account in between. |
| Js.Coalesce | src/app/modules/dashboard/dashboard.service.ts:421-422 | `a ?? b` falls back to b exactly when a is null or undefined. |
| Collections.IndexOf | src/app/modules/dashboard/dashboard.service.ts:142 | The result is none iff no document has the id. Otherwise it is the first position holding it. |
| Collections.Stored | src/app/modules/dashboard/dashboard.service.ts:187 | A new document holds exactly the schema's paths that the object gives a value other than undefined, with those values. An array path left out holds `[]`, and properties outside the schema are dropped. |
| Collections.SetFields | src/app/modules/dashboard/dashboard.service.ts:213-216 | A `$set` gives each schema path the patch defines its new value. Every other property keeps its value, including patch properties outside the schema. A document holding only schema paths still does. |
| Collections.Remove | src/app/modules/dashboard/dashboard.service.ts:170 | Without the id, nothing changes. With it, exactly the first document holding it is cut out, and the others stay in order. Under unique ids, exactly the other documents remain, and ids stay unique. |
| Collections.Where | src/app/modules/dashboard/dashboard.service.ts:93 | Exactly the documents whose property equals the value. |
| Collections.SortNewestFirst | src/app/modules/dashboard/dashboard.service.ts:191 | The result is ordered by `createdAt` descending and is a permutation of the input. |
| Collections.Collection.Create | src/app/modules/dashboard/dashboard.service.ts:187 | Appends one document with the fresh id, the creation time and what the schema stores of the fields. Ids stay unique, and every document holds only schema paths. |
| Collections.Collection.FindById | src/app/modules/dashboard/dashboard.service.ts:142 | Finds a document iff one has the id, and the one found has it. |
| Collections.Collection.DeleteById | src/app/modules/dashboard/dashboard.service.ts:170 | Returns the deleted document iff the id was present. The new documents are `Remove` of the old. |
| Collections.Collection.UpdateById | src/app/modules/dashboard/dashboard.service.ts:160-163 | A missing id changes nothing. Otherwise only that document changes, by `SetFields` with the patch, and it is returned. |
| Collections.Collection.FindOne | src/app/modules/dashboard/dashboard.service.ts:466-468 | The first document in natural order, or none for an empty collection. |
| Collections.Collection.UpdateFirst | src/app/modules/dashboard/dashboard.service.ts:456-460 | An empty collection is unchanged. Otherwise only the first document changes, by `SetFields`. |
| Collections.Collection.FindAll | src/app/modules/dashboard/dashboard.service.ts:96 | All documents in natural order. |
| Collections.Collection.FindWhere | src/app/modules/dashboard/dashboard.service.ts:93 | Exactly the documents whose property equals the value. |
| Collections.Collection.FindNewestFirst | src/app/modules/dashboard/dashboard.service.ts:191 | A newest-first permutation of the documents. |
| Collections.Collection.Count | src/app/modules/dashboard/dashboard.service.ts:624 | The number of documents. |
| Dashboard.ItemImage | src/app/modules/dashboard/dashboard.service.ts:183-185 | Defined iff a file was uploaded, and then `/images/image/` + the first filename. |
| Dashboard.ItemPayload | src/app/modules/dashboard/dashboard.service.ts:178-185 | The title and description are the body's, the image is `ItemImage`, and there are no other defined properties. |
| Dashboard.CreateItem | src/app/modules/dashboard/dashboard.service.ts:175-188 | Appends one document whose title and description are the body's, and whose image is present iff a file was uploaded. The same code creates updates, events, newsletters, CSR entries and awards (226-239, 277-291, 329-342, 380-393, 506-519). |
| Dashboard.GetAll | src/app/modules/dashboard/dashboard.service.ts:190-192 | Every document, newest first. The same holds for updates, events, newsletters, CSR and awards (241-243, 293-296, 344-346, 395-398, 521-525). |
| Dashboard.GetById | src/app/modules/dashboard/dashboard.service.ts:194-197 | A malformed id gives null without a lookup. A well-formed id finds a document iff one has it. The same code serves people, updates, events, newsletters, CSR and awards (140-143, 245-248, 298-301, 348-351, 400-403, 527-530). |
| Dashboard.Delete | src/app/modules/dashboard/dashboard.service.ts:219-223 | True iff the id is well formed and present. Exactly that document is removed, and a malformed id changes nothing. The same code deletes people, updates, events, newsletters, CSR and awards (168-172, 270-274, 323-327, 373-377, 446-450, 573-577). |
| Dashboard.UpdateItem | src/app/modules/dashboard/dashboard.service.ts:199-217 | A malformed or missing id gives null and changes nothing. Otherwise only that document changes, by a `$set` of `ItemPayload`: the body's title and description, and the new image when one was uploaded. The same code updates updates, events and newsletters (250-268, 303-321, 353-371). |
| Dashboard.MergedPatch | src/app/modules/dashboard/dashboard.service.ts:420-429 | Sets exactly title, description and image. The image is the upload's, or else the stored one. |
| Dashboard.MergeFallsBack | src/app/modules/dashboard/dashboard.service.ts:405-444 | After the merge, a null or undefined body title or description leaves the stored value, and any other replaces it. The image changes only with an upload, and no other field changes. |
| Dashboard.MergeIdempotent | src/app/modules/dashboard/dashboard.service.ts:420-437 | Merging the same body and upload twice gives what one merge gives. |
| Dashboard.UpdateMerged | src/app/modules/dashboard/dashboard.service.ts:405-444 | A malformed or missing id gives null and changes nothing. Otherwise only that document changes, to the merge of its fields. The same code updates awards (532-571). |
| Dashboard.ParseArray | src/app/modules/dashboard/dashboard.service.ts:43-49 | A non-string is returned unchanged. A string becomes its parse, or `[]` when parsing fails. |
| Dashboard.MapPersonFields | src/app/modules/dashboard/dashboard.service.ts:42-74 | `profile_image` is present iff a non-empty image path is given, and then equals it. The plain properties are the body's. The four list properties are parsed. The four social links are gathered into one object, and no other properties exist. |
| Dashboard.ProfileImage | src/app/modules/dashboard/dashboard.service.ts:79-81 | Present iff a profile image was uploaded, and then `/images/profile/` + its filename. |
| Dashboard.CreatePerson | src/app/modules/dashboard/dashboard.service.ts:76-87 | Appends the mapped person as the Person schema stores it. `profile_image` is present iff a file was uploaded. The four list properties are always present. `experience`, `affiliation` and `socialLinks` are never stored. |
| Dashboard.PersonUnmappedNeverWritten | src/app/modules/dashboard/dashboard.service.ts:51-85 | `mapPersonFields` produces `experience`, `affiliation` and `socialLinks`. The Person schema does not declare them, so creating a person never stores them and updating one never changes them. |
| Dashboard.UpdatePerson | src/app/modules/dashboard/dashboard.service.ts:145-166 | A malformed id is the error "Invalid Person ID" and changes nothing. A missing id gives null and changes nothing. Otherwise only that document changes, by a `$set` of the mapped fields the Person schema declares. |
| Dashboard.GetAllPeople | src/app/modules/dashboard/dashboard.service.ts:89-97 | A truthy category gives exactly the people of that category in natural order. Otherwise everyone is returned. |
| Dashboard.Upserted | src/app/modules/dashboard/dashboard.service.ts:453-464 | An empty collection gets what the schema stores of the payload as its one document. Otherwise only the first document changes, by a `$set` of the payload. It keeps its id, `createdAt` and every property the payload does not set, and carries every schema path the payload defines. |
| Dashboard.UpsertKeepsSingleton | src/app/modules/dashboard/dashboard.service.ts:453-464 | A collection of at most one document has exactly one after an upsert. |
| Dashboard.UpsertIdempotent | src/app/modules/dashboard/dashboard.service.ts:453-464 | Upserting the same payload twice leaves what one upsert leaves. |
| Dashboard.Upsert | src/app/modules/dashboard/dashboard.service.ts:453-464 | Terms: the collection becomes `Upserted` of the old one, and the document returned is the first. The same holds for the privacy policy (470-481), the disclaimer (487-498), the fraud notice (579-590), the about page (597-608) and the about counters (667-674), whose single upserting update has the same effect. |
| Dashboard.Subscribed | src/app/modules/dashboard/dashboard.service.ts:639-646 | With a subscriber of that email present, nothing changes. Otherwise exactly one document is appended. Unique emails stay unique. |
| Dashboard.SubscribeIdempotent | src/app/modules/dashboard/dashboard.service.ts:639-646 | Subscribing the same payload twice leaves what subscribing once leaves. |
| Dashboard.SubmitSubscribe | src/app/modules/dashboard/dashboard.service.ts:639-646 | The store becomes `Subscribed` of the old one. The subscriber returned has the payload's email, and is the existing one when there was one. |
| Dashboard.SubmitContactForm | src/app/modules/dashboard/dashboard.service.ts:615-618 | Appends exactly one document. It holds the payload's phone, email and message and nothing else. |
| Dashboard.CeilDiv | src/app/modules/dashboard/dashboard.service.ts:632 | `Math.ceil(total / limit)`. For a positive limit it is the least page count n ≥ 0 with n·limit ≥ total. For a negative limit it is the ceiling of a non-positive quotient. A zero limit gives NaN for no documents and Infinity otherwise. |
| Dashboard.Paginate | src/app/modules/dashboard/dashboard.service.ts:620-636 | A negative skip `(page - 1)·limit` is refused. Otherwise the meta holds the full count, page, limit and `CeilDiv`. The data are the documents from position skip on, as many as the limit allows (all for 0, \|limit\| for a negative one), clipped at the end. |
| Dashboard.GetPage | src/app/modules/dashboard/dashboard.service.ts:620-636 | Contact forms: the result is `Paginate` of the documents sorted newest first. The same holds for subscribers (648-664). |
| Dashboard.PagesUpToIsPrefix | src/app/modules/dashboard/dashboard.service.ts:620-636 | For a positive limit, pages 1..k together are exactly the first k·limit sorted documents. |
| Dashboard.PagesCoverAll | src/app/modules/dashboard/dashboard.service.ts:620-636 | For a positive limit, pages 1..totalPages hold every document once, in order, and every later page is empty. |

## Left out

- I/O is not modelled: sending mail and building the mail HTML. Only the outcome of the awaited reset mail of forgot-password (a `mailSent` flag) is kept. The registration mail's failure is caught and ignored, and the resend mails are not awaited, so neither affects state.
- JWT signing is not modelled; the model keeps only the claims a token would carry.
- bcrypt is not modelled as an algorithm; it is the functions `hash` and `matches`.
- A password-hashing hook in the Auth model is not part of this model. Registration and change-password store the password the service assigns, and reset stores `hash(newPassword)`.
- The cron schedule, its logging and its error catching are left out. Each sweeper tick is a method called with the current time.
- Concurrency is left out: the `Promise.all` fan-outs and racing requests. Requests are served one at a time.
- `AuthSpec.Forgot`: the 500's message is the mail transport's own error text. The model uses a fixed placeholder.
- The Auth model's `isAuthExist` and `isPasswordMatched` statics are not shown. They are taken as a lookup by email and as `matches`.
- Schema defaults are assumed: `isActive` and `is_block` false, other fields absent.
- Non-string passwords, emails and codes in request bodies are not modelled. For string bodies, a Mongoose filter on an undefined email (which would match an arbitrary record) is not modelled.
- A failing `Auth.create` and Mongoose validation errors (required fields, `runValidators`, the subscriber email's unique index) are not modelled.
- The `try`/`catch` of `updateCSR`/`updateAward`, which turns such errors into null, is not modelled.
- `getAllSearch` and `totalCount` are left out. They are a case-insensitive regex search and a count/aggregate fan-out with no rule to state.
- `updatedAt` timestamps are left out.
- `Dashboard.Subscribed`: a payload without an email is looked up as "documents without an email". The database's own treatment of an undefined filter value (which may match any subscriber) is not modelled.
- `Collections`: ties in `createdAt` are ordered by insertion in the model, while the database leaves their order unspecified.
- `Collections.Stored`, `Collections.SetFields`: a schema is a set of top-level paths and its array paths. The model assumes two things about writes. Properties holding undefined are dropped, where older Mongoose versions could write them. Paths outside a strict schema are dropped.
- Mongoose casts values to the path's declared type, validates `required` paths, and with `runValidators` validates updates. None of this is modelled. Values are stored as given.
- The controller's `deleteAwardController` calls `deleteCSR`, so award deletes go to the CSR collection. This is controller plumbing, and the model's `Dashboard.Delete` is the service function.
- The uploaded-file arrays are modelled as lists of filenames. The upload middleware never yields an empty list, so `files?.profile_image` being truthy means a first file exists.
- A JSON number is an integer in the model.
- `Dashboard.CeilDiv` for a negative limit follows integer arithmetic. `-0` is shown as 0.
- `Dashboard.GetPage`: `page` and `limit` are integers. The source's defaults of 1 and 10 are the caller's to supply.
