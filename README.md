# MAPTSS platform core, modelled in Dafny

This project models the logic behind the MAPTSS vocational-training platform. The platform is a browser application: citizens register for courses, managers (`gestor`) approve or reject registrations, and employers verify graduates' certificates. The model covers these parts:

- **Record store** (`MAPTSSDatabase`, module `Store`). A class holds the named tables (`map<string, seq<Record>>`) and the secondary indexes (BI, email, registrations by citizen or status, centers by province, graduates by competency area). The browser key-value store under it is abstracted away.
  - It models upsert by id, ordered scans, delete, and incremental index maintenance.
  - It also models the index rebuild, and export and import of the tables.
  - `Consistent` says the indexes account for every stored record and no list holds an id twice. Every operation that writes keeps it, except a rebuild or import that fails.
- **Authentication** (`MAPTSSAuth`, module `Auth`). A class holds the user list and the current and persisted session, and writes to the store's `activities` table.
  - It models login, logout, register, and changing and resetting a password.
  - It models the session checks (`IsSessionValid`, `IsAuthenticated`, `HasPermission`, `HasRole`), extending and loading the session, and the fixed role-to-permission table.
  - It models the activity log capped at 1000 entries, and two-factor authentication with a 32-bit wrapping hash and a three-slot TOTP window.
- **Query facade** (`MAPTSSApi`, module `Api`). It models:
  - the registration workflow: submit as pending, approve, reject, each with its activity and notification;
  - the document-completeness analysis and certificate verification;
  - the chained filters of the graduate, registration, center and course searches, including callbacks that throw;
  - age computation, the dashboards' counts, the monthly tally and report dispatch.
- **Utilities** (`js/utils.js`, module `Utils`):
  - the BI, phone and NIF validators and the password-strength score;
  - the BI and phone formatters and masks, and `truncate`;
  - relative time, business days and file extensions;
  - the local-storage entry with an expiry (class `LocalStorage`).
- **Widgets** (`js/components.js`, module `Components`):
  - the `DataTable` state machine: page, sort column and direction, search term, filtering, paging and the stable in-place sort;
  - the pagination bar the table last drew. Its buttons act on the current page, and with one page or none the old bar is left on screen (js/components.js:440), so a bar can be stale;
  - `ProgressBar.setValue` and `Timeline.addItem`.

Shared modules:

- `JsValue` covers JSON values, strict equality, truthiness and `String()`.
- `Seqs` covers `filter`, `findIndex`, `slice` and the stable `sort` over sequences.
- `Dates` covers ISO dates and the calendar.

The clock, generated ids and random draws are parameters of the operations that use them. Times are integer milliseconds. All arithmetic on JavaScript numbers is on integers, with `>>> 0`, the 32-bit wrap-around of `hash & hash`, and `Math.floor` written out where the source relies on them.

## Model

| member | source | states |
|---|---|---|
| Store.Stamp | api/database.js:38-41 | An appended record keeps every field and its id, with `createdAt` and `updatedAt` set to the clock; once stored as JSON it holds no `undefined` property |
| Store.Merge | api/database.js:33-36 | A merged record keeps the stored id; each field is the caller's if given, absent if the caller holds it as `undefined`, else the stored one; `updatedAt` is the clock |
| Store.MergeOfDerived | api/database.js:33-36 | When the caller's record was derived from the stored one (every stored field given or `undefined`), the merge equals the caller's record except `updatedAt` |
| Store.Upsert | api/database.js:28-45 | An absent id appends the stamped record at the end; otherwise only the first slot with that id is replaced by the merge, length and every other slot unchanged |
| Store.SaveTwiceKeepsOne | api/database.js:28-45 | Saving the same new record twice leaves exactly one record with its id, created at the first save and updated at the second |
| Store.LoadAfterWrite | api/database.js:28-51 | What is written under a table is what `load` reads back from it; other tables are untouched |
| Store.SavedRecord | api/database.js:28-45 | The record handed to indexing is the caller's own: same id and fields, stamped only when it was appended |
| Store.UpsertMembers | api/database.js:28-45 | Every record after a save is an old record, the stamped new one, or the merge of the stored record that had the id |
| Store.AddId | api/database.js:377-397 | Pushing an id lists it under the key, adds nothing else, and never creates a duplicate |
| Store.AreaOf | api/database.js:411-423 | Reading `area` from a competency fails exactly on `null` |
| Store.AddAreas | api/database.js:411-423 | The competency walk succeeds iff no element is `null`; then it lists the id under exactly the areas present, without duplicates |
| Store.IndexCitizen | api/database.js:365-375 | The BI and email keys point at the citizen, the last write winning; nothing is lost and no other index changes |
| Store.IndexRegistration | api/database.js:377-397 | The registration is listed under its citizen and status; nothing is lost, no duplicate appears, and no other index changes |
| Store.IndexCenter | api/database.js:399-409 | The center is listed under its province; nothing is lost, no duplicate appears, and no other index changes |
| Store.IndexGraduate | api/database.js:411-423 | Succeeds iff the competencies can be walked, and then touches only the competency index |
| Store.IndexRecord | api/database.js:347-363 | Fails only for a graduate whose competencies cannot be walked; a table outside the four indexed ones leaves the indexes as they were |
| Store.IndexRecordUnindexed | api/database.js:347-363 | A write to a table other than the four indexed ones leaves the indexes as they were |
| Store.IndexRecordFails | api/database.js:347-363 | Indexing throws only for a graduate whose competencies cannot be walked |
| Store.IndexRecordStamp | api/database.js:38-43 | The timestamps `save` adds never change what gets indexed |
| Store.IndexRecordStep | api/database.js:365-423 | One index update only adds, keeps every list duplicate-free, and lists the record under its current keys |
| Store.SaveKeepsCovered | api/database.js:28-45 | After a save, every stored record is still indexed under its keys, including the merged record although only the caller's data was indexed |
| Store.DeleteKeepsCovered | api/database.js:68-74 | Delete leaves the indexes alone, and every remaining record stays indexed |
| Store.DeleteRemovesId | api/database.js:68-74 | Delete removes exactly the records with the id, keeps the rest, is idempotent, and leaves a table without the id unchanged |
| Store.IndexAllGrows | api/database.js:473-488 | The rebuild's per-table loop only adds, keeps lists duplicate-free, covers every record it walked, and runs to the end iff no record throws |
| Store.RebuildSucceeds | api/database.js:473-488 | The rebuild completes iff every stored graduate's competencies can be walked |
| Store.Rebuilt | api/database.js:473-488 | A rebuild never lists an id twice under one key |
| Store.RebuildCovers | api/database.js:473-488 | A rebuilt index holds no duplicates and, when complete, indexes every stored record |
| Store.RebuiltWithinCovering | api/database.js:347-363 | Whatever a rebuild would list, an incrementally maintained index already lists, because updates only add |
| Store.StaleStatusSurvives | api/database.js:389-395 | The containment is strict: a registration re-saved as approved stays listed under `pending` |
| Store.Snapshot | api/database.js:443-449 | The export holds exactly the twelve tables, each as stored |
| Store.ImportOfExport | api/database.js:443-457 | Importing an export leaves every table and the rebuilt indexes unchanged |
| Store.MarkedRead | api/database.js:283-291 | A marked notification reads `read: true` and `readAt` the clock, and every other field is unchanged |
| Store.MarkReadChangesOneSlot | api/database.js:283-291 | Saving the marked notification changes only its own slot, which now reads as read |
| Store.Newest | api/database.js:298-310 | Exactly `limit` entries, or all when fewer, taken from the log; when every entry carries a time they are newest first and no entry left out is newer than one kept |
| Store.Database.constructor | api/database.js:7-25 | A fresh store is empty, with empty indexes, and consistent |
| Store.Database.Load | api/database.js:47-51 | A table never written reads as empty, a written one as written |
| Store.Database.Save | api/database.js:28-45 | The table is upserted; the caller's record is indexed, or the call fails when a graduate's competencies cannot be walked; the indexes only grow; consistency is kept |
| Store.Database.UpdateIndexes | api/database.js:347-363 | Succeeds iff indexing does not throw; the indexes only grow and stay duplicate-free |
| Store.Database.FindById | api/database.js:53-56 | Nothing iff no record has the id; otherwise the first record that has it |
| Store.Database.FindByField | api/database.js:58-61 | Exactly the stored records whose field strictly equals the value |
| Store.Database.FindWhere | api/database.js:63-66 | Exactly the stored records satisfying the predicate |
| Store.Database.Delete | api/database.js:68-74 | The table loses the records with the id; the indexes are untouched; always true; consistency is kept |
| Store.Database.GetCitizenByBI | api/database.js:89-92 | Nothing iff no citizen has the BI; otherwise the first that does |
| Store.Database.GetRegistrationsByStatus | api/database.js:120-122 | Exactly the registrations with the status |
| Store.Database.GetCertifiedGraduates | api/database.js:193-195 | Exactly the graduates whose `verified` is `true` itself |
| Store.Database.GetVerificationCount | api/database.js:321-324 | The number of verifications by the employer, at most the table's size |
| Store.Database.GetRecentActivities | api/database.js:298-303 | Exactly `limit` activities, or all when fewer, drawn from the log; with times on every entry, newest first and none left out newer than one returned |
| Store.Database.GetActivitiesByUser | api/database.js:305-310 | Exactly `limit` of the user's own activities, or all of them when fewer; with times on every entry, newest first and none of the user's left out newer than one returned |
| Store.Database.MarkNotificationRead | api/database.js:283-291 | Nothing, and no change, for an unknown id; otherwise that notification is marked read and saved, with the indexes untouched |
| Store.Database.ExportData | api/database.js:443-449 | The twelve tables as `load` reads them, and nothing else |
| Store.Database.ClearIndexes | api/database.js:467-471 | Every index is emptied |
| Store.Database.IndexEach | api/database.js:473-488 | The loop's indexes and success flag are those of the specified fold |
| Store.Database.RebuildIndexes | api/database.js:473-488 | The indexes are the rebuild of the current tables, duplicate-free, and consistent when the rebuild completed |
| Store.Database.ImportData | api/database.js:451-457 | Each supplied table is written as given, then the indexes are rebuilt |
| Store.Database.ClearAllData | api/database.js:459-465 | The twelve tables and every index are removed, other keys are kept, and the empty state is consistent |
| Auth.HashPasswordInjective | api/auth.js:273-277 | Different passwords never share a hash |
| Auth.HashPassword | api/auth.js:273-277 | The encoded text starts with the password and is longer than it (the salt follows) |
| Auth.VerifyPassword | api/auth.js:279-281 | A hash that verifies a password verifies no other |
| Auth.VerifyExactly | api/auth.js:279-281 | A stored hash verifies exactly the password it was made from |
| Auth.DefaultPermissions | api/auth.js:292-337 | An unknown role gets no permissions |
| Auth.PermissionCounts | api/auth.js:292-337 | The four roles have 7, 11, 9 and 5 permissions |
| Auth.OnlyGestorApproves | api/auth.js:292-337 | Only the manager role may approve registrations |
| Auth.OnlyEmployerVerifies | api/auth.js:292-337 | Only the employer role may verify certificates |
| Auth.RandomString | api/auth.js:283-290 | One character of the alphabet per draw, in order |
| Auth.GenerateTempPassword | api/auth.js:283-290 | Eight characters, each the alphabet's character at the draw |
| Auth.GenerateTwoFactorSecret | api/auth.js:452-460 | Thirty-two base-32 characters, each the alphabet's character at the draw |
| Auth.ToInt32 | api/auth.js:484-492 | The signed 32-bit value congruent to the input modulo 2^32 |
| Auth.HashStepIsPolynomial | api/auth.js:484-492 | One hash step is multiply by 31 and add the code, wrapped to 32 bits |
| Auth.Hash32 | api/auth.js:484-492 | The running hash stays a signed 32-bit value |
| Auth.SimpleHash | api/auth.js:484-492 | The loop computes the absolute value of the 32-bit polynomial hash, between 0 and 2^31 |
| Auth.AbsHash | api/auth.js:484-492 | The hash as returned is at most 2^31 |
| Auth.GenerateTOTP | api/auth.js:478-482 | Six decimal digits that denote the hash of secret and slot modulo 10^6 |
| Auth.TimeSlot | api/auth.js:470 | The slot is the whole number of 30-second periods before the time |
| Auth.VerifyTOTP | api/auth.js:467-476 | The current slot's token is always accepted, and only six-digit tokens are |
| Auth.VerifyTOTPWindow | api/auth.js:467-476 | A token is accepted iff it is the token of the current slot or of a neighbouring one |
| Auth.TokenLastsOneSlot | api/auth.js:467-476 | A token is still accepted up to 30 seconds after it was read |
| Auth.CapLog | api/auth.js:394-414 | The entry goes last and only the newest 1000 entries are kept, in order |
| Auth.CapLogEvictsOldest | api/auth.js:394-414 | On a full log, appending evicts exactly the oldest entry |
| Auth.SeedUser | api/auth.js:339-392 | A demo user is active, has its role's permissions, and its password verifies |
| Auth.DefaultUsers | api/auth.js:339-392 | Four demo users, all active, each with its role's default permissions |
| Auth.LoginMatch | api/auth.js:22-41 | No match iff no user has the email, the role and the password; otherwise the first user in the list that has all three |
| Auth.IndexOfId | api/auth.js:141-171 | The first position of the id, or -1 iff no user has it |
| Auth.OpenSession | api/auth.js:43-56 | The session carries the user's id, role and permissions and expires eight hours after login |
| Auth.LoginSessionWindow | api/auth.js:43-56 | The signed-in permissions are the user's, and the session is valid for exactly eight hours after login |
| Auth.Authenticator.IsSessionValid | api/auth.js:227-234 | No session is valid while nobody is signed in |
| Auth.Authenticator.IsAuthenticated | api/auth.js:213-215 | Authenticated exactly when the session is valid |
| Auth.SignedInRights | api/auth.js:213-234 | After `u` signs in, permission and role checks answer from `u`'s record, and the session is authenticated until eight hours after login |
| Auth.Authenticator.VerifyTwoFactor | api/auth.js:440-450 | Only a known user with a two-factor secret, and only a six-digit token, can pass; for the first user with the id who has a secret, the answer is `verifyTOTP` against that secret |
| Auth.ChangedPasswordVerifies | api/auth.js:141-171 | After a change the new password verifies and no other does |
| Auth.Authenticator.constructor | api/auth.js:7-20 | Demo users are seeded only into an empty user list; a stored session is adopted iff it has not expired |
| Auth.Authenticator.LogActivity | api/auth.js:394-414 | The shared log gets one entry and is capped at 1000; the store's indexes and consistency are kept |
| Auth.Authenticator.Login | api/auth.js:22-76 | Invalid credentials or a disabled account fail with no session change; otherwise an eight-hour session is stored and one login entry is logged |
| Auth.Authenticator.Logout | api/auth.js:78-93 | The session is dropped, and one logout entry is logged iff someone was signed in |
| Auth.Authenticator.Register | api/auth.js:95-139 | With no additional data: an unknown role or an email in use is rejected with no change; otherwise exactly one user is appended, active iff a citizen, and activation is required iff not a citizen |
| Auth.Authenticator.ChangePassword | api/auth.js:141-171 | An unknown user or a wrong current password fails with no change; otherwise only that user's hash and change time are updated, and one entry is logged |
| Auth.Authenticator.ResetPassword | api/auth.js:173-207 | Fails iff no user has the email and role; otherwise the first such user gets the hash of an eight-character temporary password and must change it, the password is returned, and one entry is logged |
| Auth.Authenticator.ExtendSession | api/auth.js:236-243 | Extends iff the session is valid, then to eight hours from now; otherwise nothing changes |
| Auth.Authenticator.LoadSession | api/auth.js:246-256 | A stored session is adopted iff it has not expired; an expired one is discarded |
| Auth.Authenticator.EnableTwoFactor | api/auth.js:417-438 | An unknown user fails with no change; otherwise only that user gets a 32-character secret whose every character is the alphabet character at its draw, and the returned secret is the one the first user with the id now holds |
| Auth.TwoFactorRoundTrip | api/auth.js:417-450 | After `enableTwoFactor` stores a secret, the current TOTP for it verifies, and every token verifies iff `verifyTOTP` accepts it for that secret |
| Api.Put | api/api.js:133-135 | Assigning a property sets that key and leaves the others alone |
| Api.Assign | api/api.js:133-135 | Assigning a property that may be `undefined`: the key reads back the value, it is an own `undefined` property exactly when the value is `undefined`, and every other key is unchanged |
| Api.TryFilter | api/api.js:89-128 | A `filter` succeeds iff no callback throws, and then keeps exactly the accepted records in order; a failure is the error some callback threw |
| Api.ApplyStage | api/api.js:89-128 | One `if (criterion) list = list.filter(...)` step is the specified step of the pipeline |
| Api.RunStagesMeaning | api/api.js:205-235 | Chained filters fail iff some step throws on a survivor, and otherwise keep, in order, exactly the records passing every enabled test |
| Api.LastStepFilters | api/api.js:205-235 | A test throws on a survivor iff it throws on a record of the whole list that survives the earlier steps |
| Api.SomeArea | api/api.js:209-213 | `some(c => c.area === target)` is true iff some competency has the area and no `null` comes before it |
| Api.DashFrom | api/api.js:221 | The first dash at or after a position, or the end |
| Api.AgeBoundsOfRange | api/api.js:221 | A range written `lo-hi` splits into those two numbers |
| Api.AgeOn | api/api.js:392-403 | The age is the number of birthdays already reached |
| Api.CalculateAge | api/api.js:392-403 | No age iff the birth date is invalid; otherwise the number of birthdays reached by today |
| Api.SearchStages | api/api.js:205-235 | Five steps, of which competency, location and experience never throw when set up; with no criterion given every graduate passes |
| Api.ManagementStages | api/api.js:89-128 | Four steps, of which status, course and center never throw when set up; with no filter given every registration passes |
| Api.CenterStages | api/api.js:274-285 | Two steps that never throw when set up; with no filter given every center passes |
| Api.CourseStages | api/api.js:287-301 | Three steps that never throw when set up; with no filter given every course passes |
| Api.SearchMatches | api/api.js:205-235 | A graduate is found iff it meets every given criterion: competency area, location, experience, inclusive age range, and name substring ignoring case |
| Api.ManagementMatches | api/api.js:89-128 | A registration is listed iff it meets every given filter, with the search matched lower-cased against the name and raw against BI and phone |
| Api.CentersMeaning | api/api.js:274-285 | A center is returned iff it matches every province and status filter given |
| Api.CoursesMeaning | api/api.js:287-301 | A course is returned iff it matches every area, center and duration filter given |
| Api.AnalyzeDocuments | api/api.js:405-415 | Four documents are required, and exactly those not submitted are missing |
| Api.MissingInOrder | api/api.js:405-415 | The missing list is bi, certificate, photo, residence in that order, each present exactly when that document is not submitted |
| Api.CompleteIffExactlyRequired | api/api.js:405-415 | Complete with nothing missing iff the documents are an object whose keys are the four required names |
| Api.CompleteCountsKeysOnly | api/api.js:405-415 | Completeness counts keys: four unrelated keys count as complete with every document missing |
| Api.CertificateVerdict | api/api.js:237-271 | Not found iff no certificate has the code; forged iff the first one with it lacks a signature field; valid iff that first one has them all, and then it is returned stamped with the verification time; no other error |
| Api.SignatureValid | api/api.js:417-421 | A valid signature needs code, issue date and student all present |
| Api.Verified | api/api.js:265-271 | The verified copy has `verifiedAt` set and every other field unchanged |
| Api.SpreadId | api/api.js:48-67 | The generated id object is overridden by every caller field; the id is the caller's string `id` when it gives one and the generated id when it gives none |
| Api.ActivityRecord | api/api.js:443-452 | A logged activity carries the time it was logged |
| Api.NotificationRecord | api/api.js:354-368 | A notification is sent unread and stamped with the time |
| Api.NewRegistration | api/api.js:48-67 | A submitted registration is pending, stamped, carries its documents' analysis, and otherwise holds the caller's fields |
| Api.Pending | api/api.js:48-67 | The three workflow fields are set and every other field is the base record's |
| Api.Approved | api/api.js:130-155 | Approval sets status, approver and time, and keeps every other field; an `undefined` approver is held as an own `undefined` property |
| Api.Rejected | api/api.js:157-183 | Rejection sets status, rejecter, time and reason, and keeps every other field; an `undefined` rejecter or reason is held as an own `undefined` property |
| Api.UndefinedDecisionClears | api/api.js:130-170 | Storing an approval with `undefined` approver, or a rejection with `undefined` reason, removes the stored approver or reason |
| Api.DecisionIgnoresPriorStatus | api/api.js:130-183 | No prior state is checked: either decision overrides the other |
| Api.ExistingIdIsMerged | api/api.js:130-183 | Saving a decided registration merges it into its stored slot |
| Api.GenerateReport | api/api.js:332-343 | Each of the three report kinds throws because its generator is undefined; any other kind is unsupported |
| Api.GestorCounts | api/api.js:70-87 | The totals, with approved plus pending plus rejected at most the total and active centers at most all centers |
| Api.CitizenCounts | api/api.js:30-46 | The citizen's totals, with approved plus pending at most the total |
| Api.NearbyCenters | api/database.js:149-162 | Throws a TypeError iff the citizen has no location and some center has one; otherwise exactly the located centers within the radius |
| Api.TallyOk | api/api.js:428-441 | The monthly tally fails iff some registration's month cannot be computed |
| Api.MonthKey | api/api.js:433 | Fails with a `RangeError` iff the date is invalid; a key has at least seven characters, and for a four-digit year it is `YYYY-MM` reading back as the year and month |
| Api.Tally | api/api.js:428-441 | Fails iff some registration's `submittedAt` is not a valid date; otherwise the counts sum to the number of registrations |
| Api.TallyCounts | api/api.js:428-441 | The monthly counts sum to the number of registrations, and each month counts exactly its registrations |
| Api.TallyMonths | api/api.js:428-441 | Each month that occurs is listed once, in order of first occurrence, with a positive count |
| Api.Api.constructor | api/api.js:7-14 | A new facade over a fresh, empty store |
| Api.Api.LogActivity | api/api.js:443-452 | The activity is saved untrimmed, and the indexes and consistency are kept |
| Api.Api.SendNotification | api/api.js:354-368 | The notification is saved, and the indexes and consistency are kept |
| Api.Api.SubmitRegistration | api/api.js:48-67 | The pending registration is saved and indexed, and exactly one notification goes to the citizen |
| Api.Api.ApproveRegistration | api/api.js:130-155 | An unknown registration throws with no change; otherwise the approval, one activity and one notification are stored, and the stored registration reads exactly as the approved one apart from `updatedAt` |
| Api.SavedOverOrigin | api/database.js:30-36 | Upserting a record derived from the first stored record with its id leaves that slot reading as the new record apart from `updatedAt` |
| Api.DecisionSlot | api/api.js:130-170 | A decision derived from the registration `getRegistration` found is stored in that registration's slot, reading as the decision apart from `updatedAt` |
| Api.Api.RejectRegistration | api/api.js:157-183 | An unknown registration throws with no change; otherwise the rejection, one activity and one notification are stored, and the stored registration reads exactly as the rejected one apart from `updatedAt` |
| Api.Api.RecordDecision | api/api.js:137-154 | The decided registration is upserted into the registrations table, then one activity and one notification are appended; consistency is kept |
| Api.Api.VerifyCertificate | api/api.js:237-271 | Returns the verdict for the first certificate with the code, and logs exactly one activity iff it is valid |
| Api.Api.SearchGraduates | api/api.js:205-235 | Fails iff some step throws; otherwise exactly the certified graduates meeting every criterion, in order |
| Api.Api.Enrich | api/api.js:112-125 | The registration with its citizen, course and center attached, and its own fields unchanged |
| Api.Api.GetRegistrationsForManagement | api/api.js:89-128 | Fails iff some step throws; otherwise the filtered registrations, in order, each enriched |
| Api.Api.GetCenters | api/api.js:274-285 | Exactly the centers matching the given filters |
| Api.Api.GetCourses | api/api.js:287-301 | Exactly the courses matching the given filters |
| Api.Api.GetMonthlyRegistrationStats | api/api.js:428-441 | The loop builds the specified monthly tally, or stops at the first invalid date |
| Api.Api.GetGestorDashboard | api/api.js:70-87 | The counts, the 20 newest activities and the monthly tally; fails iff the tally does |
| Api.Api.CitizenDashboardOf | api/api.js:30-46 | Throws a TypeError iff the citizen is unknown, or has no location while some center has one (`userLocation.latitude`); otherwise the citizen, their registrations, the nearby centers and the matching counts |
| Utils.ValidityIgnoresSeparators | js/utils.js:161-177 | Phone and NIF validity depend only on the digits |
| Utils.IsValidBI | js/utils.js:155-159 | A valid BI has at least fourteen characters |
| Utils.IsValidPhone | js/utils.js:161-166 | A valid phone has at least nine characters |
| Utils.IsValidNIF | js/utils.js:173-177 | A valid NIF has at least nine characters |
| Utils.Label | js/utils.js:179-200 | `Forte` iff score at least 4, `Média` iff 3, `Fraca` iff 2, otherwise `Muito Fraca` |
| Utils.PasswordStrength | js/utils.js:179-200 | The score is the number of satisfied checks, at most 5, labelled by `Label` |
| Utils.StrengthMonotone | js/utils.js:179-200 | Appending characters never lowers the score |
| Utils.FormatBIElevenDigits | js/utils.js:132-139 | Eleven digits are reformatted into a thirteen-character string that fails `isValidBI` |
| Utils.FormatBIFixedValid | js/utils.js:132-139 | The corrected formatter leaves short input alone and otherwise yields a valid BI with the first twelve digits |
| Utils.FormatBIKeepsWellFormed | js/utils.js:132-139 | A well-formed `…LA…` BI is returned unchanged by both versions |
| Utils.FormatBI | js/utils.js:132-139 | Fewer than eleven digits leave the input as is, and away from exactly eleven digits it agrees with the corrected formatter |
| Utils.DigitsOfLayout | js/utils.js:141-150 | The `+244 ddd ddd ddd` layout holds exactly the country code and the nine digits |
| Utils.FormatPhoneValid | js/utils.js:141-166 | Every reformatted number validates and keeps the nine national digits; other input is returned unchanged |
| Utils.FormatPhoneIdempotent | js/utils.js:141-150 | Formatting a formatted number changes nothing |
| Utils.FormatPhone | js/utils.js:141-150 | The result is the input unchanged or a valid phone number |
| Utils.MaskBI | js/utils.js:116-120 | Length is kept; at 13 or more characters positions 3-5 and 8-10 become `*`, otherwise nothing changes |
| Utils.MaskPhoneRevealsNothing | js/utils.js:122-130 | The mask depends only on whether the country code is present |
| Utils.MaskPhone | js/utils.js:122-130 | Short input is returned as is; otherwise the only digits shown are the country code, when present, and the leading 9 |
| Utils.DigitsOfMasks | js/utils.js:122-130 | The two masks show only `2449` and `9` as digits |
| Utils.Truncate | js/utils.js:111-114 | The string when it fits, else exactly its first `length` characters followed by the suffix |
| Utils.LastIndexOf | js/utils.js:212-214 | The last position of the character, or -1 |
| Utils.GetFileExtension | js/utils.js:212-214 | The text after the last dot when that dot is not first, else empty; the result contains no dot |
| Utils.ExtensionOfName | js/utils.js:212-214 | `name.ext` gives back `ext`, and a dot-file has no extension |
| Utils.WeekHasFiveBusinessDays | js/utils.js:65-69 | Every seven consecutive days hold exactly five business days |
| Utils.BusinessDayWeekly | js/utils.js:65-69 | Whether a time is a business day depends only on its day, and repeats every week |
| Utils.AddBusinessDays | js/utils.js:71-84 | No move for `days <= 0`; otherwise a later business day, whole days on, with exactly `days` business days after the start |
| Utils.GetRelativeTime | js/utils.js:46-63 | "Agora mesmo" iff under a minute or an invalid date; otherwise whole days, hours or minutes ago, each in its band |
| Utils.SetThenGet | js/utils.js:307-332 | A value set with an expiry reads back until then, and afterwards reads `null` with the key removed |
| Utils.NoExpiryNeverExpires | js/utils.js:307-332 | A value set without an expiry reads back at any time |
| Utils.LookupSettles | js/utils.js:315-332 | A read touches only its own key, and reading again gives the same value with no further change |
| Utils.LocalStorage.constructor | js/utils.js:307-332 | The storage starts empty |
| Utils.LocalStorage.Set | js/utils.js:307-313 | The key holds the value and its expiry |
| Utils.LocalStorage.Get | js/utils.js:315-332 | The value read and the storage afterwards are those of the specified lookup |
| Components.Timeline.constructor | js/components.js:6-10 | The timeline starts with the given items |
| Components.Timeline.AddItem | js/components.js:37-40 | The new item comes first and the old ones follow unchanged |
| Components.Clamp | js/components.js:279-282 | The result lies in `[0, max]` and equals the value when it already does |
| Components.ClampIdempotent | js/components.js:279-282 | Clamping twice is clamping once |
| Components.ProgressBar.constructor | js/components.js:248-259 | The given value and maximum are stored as given |
| Components.ProgressBar.SetValue | js/components.js:279-282 | The stored value is the clamped one, within `[0, max]` |
| Components.Filtered | js/components.js:519-528 | Every row for an empty term; otherwise exactly the rows some column matches |
| Components.NarrowingSearch | js/components.js:519-528 | Searching a longer term filters the result of the shorter one it contains |
| Components.TotalPages | js/components.js:437-440 | The fewest pages of `pageSize` rows that hold every row |
| Components.Page | js/components.js:530-537 | At most `pageSize` rows, taken in order from `(page-1)*pageSize` |
| Components.RowOnPage | js/components.js:530-537 | Every row appears on exactly the page and position its index gives, and that page exists |
| Components.ShownRangeMatchesPage | js/components.js:451-454 | The "Mostrando" numbers name exactly the rows the page shows |
| Components.PageWindow | js/components.js:477-478 | At most five page buttons, within the pages, around the current page |
| Components.Compare | js/components.js:539-561 | Equal values compare as 0; otherwise negative iff less ascending, or not less descending |
| Components.SortOrdersNumbers | js/components.js:539-561 | Sorting a numeric column gives a permutation ordered ascending or descending |
| Components.SortOrdersStrings | js/components.js:539-561 | Sorting a text column gives a permutation in lexicographic order, ascending or descending |
| Components.SortKeepsMatchCount | js/components.js:539-561 | Sorting keeps the number of rows a search matches |
| Components.DataTable.PaginatedData | js/components.js:530-537 | Every row without pagination; otherwise at most a page of rows |
| Components.DataTable.constructor | js/components.js:306-336 | Page 1, no sort column, ascending, empty search, with the page valid and the pagination bar drawn for the current rows |
| Components.DataTable.SetSearchTerm | js/components.js:353-361 | The term is stored lower-cased and the table returns to page 1; the bar is redrawn only when there is more than one page, otherwise the old bar stays |
| Components.DataTable.UpdateData | js/components.js:563-567 | New rows, back to page 1, and a bar that matches them |
| Components.DataTable.Sort | js/components.js:539-561 | The same column toggles direction, a new one sorts ascending; the rows are sorted in place, the page count is kept, and a valid, up-to-date table stays so |
| Components.DataTable.PreviousPage | js/components.js:466-473 | Wired to the drawn bar's `Anterior` button: one page back from the current page, nothing else changed, and a valid, up-to-date table stays so |
| Components.DataTable.NextPage | js/components.js:501-508 | Wired to the drawn bar's `Próximo` button: one page on from the current page, nothing else changed, and a valid, up-to-date table stays so |
| Components.DataTable.GoToPage | js/components.js:480-495 | Wired to a number button of the drawn bar: goes to that page, nothing else changed, and a valid, up-to-date table stays so |
| Components.DataTable.DrawPagination | js/components.js:436-445 | With one page or none the old bar is left in place; otherwise the bar shows the current page and page count |
| Components.DataTable.Render | js/components.js:324-336 | After a full render the bar matches the rows: drawn iff paginated with more than one page |
| Components.DataTable.Reorder | js/components.js:555-560 | The rows are replaced by a reordering with the same search matches, the page count is kept, and the bar is redrawn |
| Dates.ParseIsoDate | api/api.js:392-403 | A parsed date is a real calendar day with a four-digit year |
| Dates.IsoDateRoundTrip | api/api.js:392-403 | Parsing a written `YYYY-MM-DD` date gives the date back |
| Dates.DateOf | api/api.js:392-403 | A string date is read by the ISO parser |
| JsValue.NatToStringValue | api/api.js:221 | Reading back the decimal form of a number gives the number |
| JsValue.ToLower | js/components.js:519-528 | Lower-casing keeps the length and maps each character |

## Left out

- `calculateDistance` and the haversine formula use floating-point trigonometry. `NearbyCenters` models the store's `getNearbyCenters` (api/database.js:149-162) with the radius test as a parameter; that version does not sort.
- The facade's own `getNearbyCenters` (api/api.js:303-329), which also sorts by distance, is not part of this model: the dashboard calls the store's version.
- Utils.AddBusinessDays: an invalid date (`NaN`) makes the source loop forever and is not modelled. A `days` value that is not an integer is not modelled either.
- Utils.GetFileExtension: the promise is stated for names shorter than 2^32 characters.
- Utils.LocalStorage.Get: stored text other than a `{value, expires}` object, an empty string or unparsable text is not modelled. An `expiresIn` of 0 is falsy, so it never expires, as in the source.
- Components.DataTable.Sort: values of mixed types, and booleans or `null`, compare as "not less". Ordering is proved only for all-numeric or all-text columns, and stability is not stated.
- Components.DataTable.constructor: a page size below 1 is not modelled.
- The DataTable handlers are modelled as methods over the current state, not as DOM event listeners.
- `ProgressBar` values are integers.
- Numbers are integers. `Number()` of a string accepts only plain decimal digits (and the empty string as 0).
- Dates are read in UTC. `DateOf` reads a string only in the ISO forms `toISOString` writes, and keeps the calendar day.
- JsValue.TimeValue: only numbers (and `null` and booleans) read as times; any string reads as `NaN`. The model stores the timestamps it writes as milliseconds, where the source writes ISO strings (api/api.js:447, api/auth.js:403). An entry whose timestamp is a string, such as one imported with `importData`, counts as untimed, so `NewerFirst` and the newest-first promises of `Newest`, `GetRecentActivities` and `GetActivitiesByUser` (stated under "every entry carries a time") say nothing about it.
- Record ids are strings. A record with a non-string or missing id is not modelled.
- Own properties holding `undefined` are modelled only where the core creates them, in approval and rejection (api/api.js:134, 161-163). Other caller objects come from literals and JSON and are modelled without them.
- Lower-casing covers ASCII and the Latin-1 capitals. Strings are sequences of code points, not UTF-16 units.
- `hashPassword` is modelled by the text `btoa` encodes, because `btoa` is one-to-one.
- Auth.HashPassword: `btoa` throws on a character above U+00FF, so the source's `login`, `register`, `changePassword` and `resetPassword` throw on such a password. The model hashes every password and does not capture that error.
- Auth.Authenticator.Register: the caller's `additionalData` is not modelled. The source spreads it last into the new user (api/auth.js:96, 120), so it can override `id`, `active`, `permissions`, `userType` and `passwordHash`, and the logged id and the returned `userId` follow it. The contract holds for a registration without additional data.
- Randomness (`Math.random`), the clock and generated ids are parameters of the operations that use them.
- `localStorage`, `JSON.parse` and `JSON.stringify` are replaced by in-memory tables and values.
- The asynchronous calls run to completion one after another.
- `generateReport`: the three generators it calls are not defined in the repository, so every supported kind throws.
- `getEmpregadorDashboard`, the sample data seeding and the storage statistics are not part of this model.
- The pass-through wrappers of the store (`getCitizen`, `getAllCenters` and the like) are single calls to `findById`, `load` or `findByField`, which are modelled.
- Rendering code, charts, network and URL helpers, accent removal and locale formatting are not part of this model.

## Findings

| source | as written | input that shows it | evidently intended | confidence | as-written member | corrected member |
|---|---|---|---|---|---|---|
| js/utils.js:132-139 | `formatBI` reformats when `cleaned.length >= 11` and takes `substring(9, 12)` for the last part | `"12345678901"` gives `"123456789LA01"`, 13 characters that `isValidBI` rejects | reformat only when at least 12 digits are present | not executed | Utils.FormatBIElevenDigits | Utils.FormatBIFixedValid |
