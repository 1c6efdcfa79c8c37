# tolovnazorat-bot in Dafny

A model of the subscription system behind the *tolovnazorat* Telegram bot and proofs about it. People pay for a
course by sending a photo of their receipt. An admin approves the payment, which grants time-limited access to one
or more private Telegram groups. A periodic pass then warns about grants that are running out or have run out and
offers the admins to extend the grant, note non-payment or remove the member. A small HTTP service for a Telegram
Mini App does the same registration and approval over JSON, authenticated by the Mini App's signed `initData`. A
one-off script copies the bot's SQLite database into the service's Postgres database.

Modules, in dependency order:

- `Common` (common.dfy): `Option`, Python truthiness of an optional text, a few set facts.
- `Text` (text.dfy): the string built-ins the code relies on: `strip`, `lstrip`, `split`, `join`, `str(int)`.
- `IdList` (idlist.dfy): the `ADMIN_IDS` / `PRIVATE_GROUP_ID` reader, as written and corrected.
- `Timing` (timing.dfy): integer-second expiries and the "days left" figure in UTC+5 calendar days.
- `Validators` (validators.dfy): the admin's start-date entry and the typed phone number.
- `Store` (store.dfy): the `users`, `user_groups` and `payments` tables as a class with map fields. There is one
  method per SQL statement and a pure row function for each upsert.
- `Chats` (chats.dfy): what the bot reads from Telegram, reduced to values.
- `Sessions` (sessions.dfy): the bot's configuration and its in-memory conversation state (a class).
- `Approval` (approval.dfy): the payment-approval handlers of the bot.
- `Registration` (registration.dfy): `/start`, consent, phone and name steps of the bot.
- `Reconcile` (reconcile.dfy): the warning cache, one pass of the expiry loop and the three admin follow-ups.
- `Auth` (api_auth.dfy): `initData` verification and the `Authorization` header check of the HTTP service.
- `AdminApi` (api_admin.dfy), `UserApi` (api_user.dfy), `Courses` (courses.dfy): the HTTP routes.
- `Migrate` (migrate.dfy): the SQLite-to-Postgres copy.

Every operation that changes the database or the bot's memory is a method. The method's `ensures` gives the whole
new state in terms of the old one, and lemmas about the functions it uses state what the system promises. Telegram,
the clock, the SQL engine's row order and the cryptographic primitives are inputs.

Where the system's design description and the code differ, the model follows the code:

- A rejection is not guarded by a status check (main.py:834-845, api/routes/admin.py:190-203), so a decision can
  be overwritten (`Approval.DecisionsOverwrite`).
- "Not paid" only acknowledges (main.py:1032-1039); there is no counter.
- Removal needs no live-membership check beyond the role lookup (main.py:1041-1070).
- Invite links default to 1 hour (main.py:52).

## Model

| member | source | states |
|---|---|---|
| IdList.ParseIdListAsWritten | main.py:31-37 | The id reader as written: each comma piece is stripped and kept when `lstrip('-')` is all digits; the first piece `int` refuses makes the whole reader raise. |
| IdList.ClassifySpec | main.py:34-37 | A piece raises exactly when a digit core follows two or more '-'. The corrected piece reader never raises and keeps exactly the digit cores behind at most one '-', negated behind one. It agrees with the source wherever the source does not raise. |
| IdList.FoldPieces | main.py:34-37 | The loop over the pieces appends each number in order and stops at the first piece `int` refuses, raising its text. |
| IdList.ErrorSticks | main.py:34-37 | Once a piece raises, the later pieces are never read. |
| IdList.ParseIdList | main.py:31-37 | The corrected reader keeps only `-?digits` pieces and never raises. |
| IdList.CollectNumbers | main.py:34-37 | The corrected loop over the pieces collects exactly their numbers, in order. |
| IdList.DoubleMinusCrashes | main.py:36-37 | "--5" passes the `isdigit` filter and `int` then raises. |
| IdList.FoldAgrees | main.py:34-37 | Where the as-written loop does not raise, it reads exactly the numbers. |
| IdList.NumbersIgnoreCrashes | main.py:34-37 | Dropping the raising pieces does not change the numbers read. |
| IdList.ParseAgrees | main.py:31-37 | Where the source does not raise, it reads the same ids as the corrected reader. |
| IdList.RenderedIdsRoundTrip | main.py:31-37 | Ids written with `str` and commas read back as the same ids, in order. |
| IdList.IdsOfRendered | main.py:34-37 | Each piece `str(v)` is read as v, so rendered ids are read back in order. |
| IdList.FoldNoCrash | main.py:34-37 | A list in which no piece raises is read without an error. |
| IdList.RenderedAsWritten | main.py:36-37 | `int` reads the text `str(v)` back as v, without raising. |
| IdList.RenderedParsesAsWritten | main.py:31-37 | The reader as written reads ids written with `str` and commas back as the same ids, without raising. |
| Text.Strip | main.py:35 | `strip()` is never longer than the text and neither starts nor ends with whitespace. |
| Text.StripSpec | main.py:35 | `strip()` is what remains of the text between a whitespace prefix and a whitespace suffix; with its clean ends this determines it. |
| Text.StripEmpty | main.py:33 | Only all-whitespace text strips to "". |
| Text.Split | main.py:34 | `split(sep)` gives at least one piece and no piece holds `sep`. |
| Text.SplitOfJoin | api/auth.py:18 | Joining separator-free pieces and splitting again gives the pieces back. |
| Text.NatToStringValue | api/routes/admin.py:216 | `str(n)` is a digit string that `int` reads back as `n`. |
| Text.IntToStringInjective | api/routes/user.py:86 | `str` is one-to-one on integers. |
| Timing.LeftAfterWholeDays | main.py:405-411 | An expiry exactly k days after now shows k days left. |
| Timing.LeftMonotone | main.py:405-411 | A later expiry never shows fewer days left. |
| Timing.LeftInWindow | main.py:405-411 | A grant in the reminder window shows between 0 and `days` days left; an expired grant shows none. |
| Validators.PadValue | main.py:440 | A number padded to enough digits reads back as itself. |
| Validators.PadOfDigits | main.py:440 | Reading a digit string and padding it back to its width gives the string back. |
| Validators.DigitsBound | main.py:440 | A digit string of width w reads as less than 10^w. |
| Validators.FormatParts | main.py:440 | A formatted date has 10 characters: the 4-digit year, '-', the 2-digit month, '-', the 2-digit day. |
| Validators.DigitsAndDashes | main.py:472 | Text of digits and '-' has no whitespace and no '/', so the `strip` and `replace` step leaves it as it is. |
| Validators.ReadFormatted | main.py:472-482 | A calendar date typed as YYYY-MM-DD is accepted as exactly that date. Its ISO text is the input followed by midnight. |
| Validators.ShapeIsFormatted | main.py:440 | Text of the `DATE_RE` shape is its own three numbers, zero-padded. |
| Validators.AcceptedIsCalendarDate | main.py:472-482 | Every accepted entry is a real calendar date, and its ISO text is the padded date followed by midnight. |
| Validators.PhoneForms | main.py:490-491 | A 9-15 digit number is accepted both with and without a leading '+'. |
| Validators.PhoneShape | main.py:490-493 | An accepted phone has 9 to 16 characters, all digits except a possible leading '+', and no surrounding whitespace. |
| Store.UpsertedSpec | main.py:203-216 | `upsert_user` writes the new name and grant. It keeps the stored phone and consent time when given NULL (COALESCE) and keeps the course. Repeating it changes nothing. |
| Store.RegisteredSpec | api/routes/user.py:35-42 | The registration upsert never touches an existing grant, phone or course. A new row has group 0 and expiry 0. |
| Store.ReplacedTwice | migrate_to_postgres.py:34-43 | The migration's user upsert depends only on the last write and the original course. |
| Store.ApplySpec | main.py:218-236 | Each single-column update writes its own columns and leaves the others as they were. |
| Store.ClearedIfEqualSpec | main.py:238-241 | The primary group is cleared only when it is the given group. |
| Store.WindowsDisjoint | main.py:280-304 | No expiry is both soon and expired, and expiry 0 is neither. |
| Store.GrantLifecycle | main.py:735-741 | A grant written from a start after the epoch shows `days` days left at its start. From then on it is in the reminder window of `w` days exactly in its last `w` days, and in the expired window exactly from its expiry on; never in both. |
| Store.Store.PaymentOf | main.py:198-201 | The payment row when the id exists, else none. |
| Store.Store.UserOf | main.py:257-260 | The user row when the id exists, else none. |
| Store.Store.AddPayment | main.py:182-191 | A new pending row under an id not used before, with no admin. The id is the counter's value and the counter moves on by one. The other tables are unchanged. |
| Store.Store.InsertPayment | migrate_to_postgres.py:64-69 | The given row under the next id; the counter moves by one. |
| Store.Store.ReplaceUser | migrate_to_postgres.py:34-47 | The row of `uid` becomes `Replaced` of its old value; nothing else changes. |
| Store.Store.SetPaymentStatus | main.py:193-196 | Status and admin of an existing payment are overwritten whatever the old status; an unknown id changes nothing. |
| Store.Store.UpsertUser | main.py:203-216 | The row becomes `Upserted` of its old value; the other tables are unchanged. |
| Store.Store.Register | api/routes/user.py:35-42 | The row becomes `Registered` of its old value. |
| Store.Store.UpdateUser | main.py:218-236 | Only an existing row changes; a missing row stays missing. |
| Store.Store.ClearUserGroup | main.py:238-241 | `group_id` becomes NULL only when it equals the given group. |
| Store.Store.AddUserGroup | main.py:243-250 | Upsert by (user, group) with the expiry overwritten. |
| Store.Store.ClearUserGroupExtra | main.py:252-255 | Deletes exactly that key. |
| Store.Store.QueriesSpec | main.py:280-304 | The four expiry queries return exactly the rows in their windows. Soon and expired never share a row, and expiry 0 is in neither. |
| Store.Store.MembersSpec | main.py:262-278 | One row per member of the group, holding the largest of its expiries there; the primary row wins a tie. |
| Store.Store.AllMembersOfGroup | main.py:262-278 | The fold over the users rows and then the user_groups rows meets `MembersSpec`. |
| Chats.ProfileOf | main.py:391-403 | The username or "". The name is never empty: the first name alone when there is no last name, `str(uid)` when neither name is given, and a failed lookup gives ("", str(uid)). |
| Chats.ProfileBothNames | main.py:391-403 | With both names present the stored name is stripped, and it falls back to the id only when both are blank. |
| Sessions.Toggled | main.py:706-710 | The ticked group flips membership and every other group stays. |
| Sessions.ToggleTwice | main.py:706-710 | Ticking the same group twice restores the selection. |
| Approval.PairsOfSpec | main.py:752-754 | The `user_groups` keys written are exactly (uid, g) for the extra groups. |
| Approval.GrantedNone | main.py:753-754 | Granting no extra groups leaves `user_groups` as it was. |
| Approval.GrantedAdd | main.py:753-754 | One more upsert extends the granted keys by one group. |
| Approval.ListOf | main.py:749 | `list(selected)` holds each element of the set exactly once. |
| Approval.EnumerationSize | main.py:749-752 | A listing of a set is as long as the set. |
| Approval.EnumerationRest | main.py:749-752 | After the first entry, the listing holds the rest of the set, so the extra groups are the selection minus the primary. |
| Approval.EnumerationNonEmpty | main.py:747-749 | A non-empty selection has a first entry. |
| Approval.LinesCount | main.py:755-767 | There is one link line per selected group. |
| Approval.ApproveNow | main.py:616-634 | It refuses a non-admin, a missing payment, an approved payment and an empty group list, and offers the choice otherwise. It writes nothing. |
| Approval.ApproveDate | main.py:636-653 | The same guards, with no group check; otherwise the admin waits for a start date for this payment. |
| Approval.ApSingle | main.py:655-675 | One button per configured group in the configured order, each carrying the payment and the start date. |
| Approval.MsOpen | main.py:677-694 | A fresh, empty selection for this admin replaces any open one. |
| Approval.MsToggle | main.py:696-717 | The group flips in the admin's selection when the session is for this payment; otherwise nothing changes. |
| Approval.GrantExtras | main.py:752-754 | After the loop `user_groups` is `Granted` over the extra groups. |
| Approval.IssueLinks | main.py:755-767 | Links for the primary group first and then the others, one line each, failures included. |
| Approval.MsConfirm | main.py:719-784 | It writes nothing on a guard failure: non-admin, missing or approved payment, missing or foreign session, or empty selection. Otherwise the primary is a selected group written to `users`, every other selected group is upserted, all share one expiry, and the payment is approved by this admin. |
| Approval.PickGroup | main.py:786-832 | The same guards without a session. The grant and the approval are written before the link is requested, so a link failure leaves them. |
| Approval.Reject | main.py:834-845 | No status check: any existing payment becomes rejected by this admin, and an unknown id changes nothing. |
| Approval.DecisionsOverwrite | main.py:834-845 | A rejected payment can still be approved, and a rejection overwrites an approval. |
| Registration.CmdStartAsWritten | main.py:442-450 | `/start` upserts the profile with group 0 and expiry 0. |
| Registration.StartWipesGrant | main.py:447 | A returning paid user's expiry and group become 0, so the row leaves every expiry query. |
| Registration.CmdStart | main.py:442-450 | Corrected `/start`: a new user gets no grant and a returning one keeps it. |
| Registration.StartKeepsGrant | main.py:447 | With the corrected `/start` the grant, phone, consent and course survive; only the names change. |
| Registration.TermsAgree | main.py:452-461 | Consent time stored on an existing row; the user now waits for a phone number. |
| Registration.OnText | main.py:468-501 | A date-waiting admin gets only the date check: a bad date keeps the session; an accepted one closes it and, unless the payment id is 0, carries the ISO date. A phone-waiting user with a valid phone has it stored and moves to the name step. |
| Registration.ContactName | main.py:513-520 | The contact's names, else the sender's, joined and stripped. |
| Registration.OnContact | main.py:503-545 | Only for a phone-waiting sender: the phone is stored and the phone step ends. The derived name is stored when there is one; otherwise the bot waits for a typed name. |
| Registration.OnFullnameText | main.py:547-578 | A name-waiting sender whose text passes the filter has the stripped text stored and leaves the name step. |
| Registration.TypedNameShape | main.py:547-552 | A stored typed name has at least 3 characters and no surrounding whitespace. |
| Reconcile.RefreshCompose | main.py:939-945 | Offering keys in two batches at the same time warns the same keys as one batch. |
| Reconcile.RefreshNone | main.py:939-945 | Offering no keys changes nothing. |
| Reconcile.WarnCache.Warn | main.py:939-979 | A key warned less than 3600 s ago is skipped and the cache left alone. Otherwise the entry is set to now before the warning goes out. |
| Reconcile.AppendWarning | main.py:939-945 | Adding a warning for a key not yet warned keeps keys distinct. |
| Reconcile.KeysOfStep | main.py:986-987 | Taking one row out of the loop's to-do set. |
| Reconcile.WarnAll | main.py:986-1004 | The loop over one query's rows warns exactly the stale keys, once each, and stamps them with now. |
| Reconcile.Stage | main.py:985-1004 | One query's loop warns exactly the stale keys among its rows and stamps them; a failed query offers no keys, so it sends nothing and changes nothing. |
| Reconcile.JoinStages | main.py:984-1004 | The warnings of two consecutive stages join. |
| Reconcile.JoinFrom | main.py:984-1004 | Warnings joined across stages all come from the pass. |
| Reconcile.Cycle | main.py:981-1008 | One pass in the order soon users, soon groups, expired users, expired groups. Every key of the pass not warned within the hour is warned exactly once and stamped. |
| Reconcile.NoRepeatWithinHour | main.py:939-945 | Right after a pass, every key it offered is stamped, so it cannot be warned again within the hour. |
| Reconcile.WarnPaid | main.py:1010-1030 | The primary expiry of an existing row and the extra grant (uid, gid) both become now plus SUBSCRIPTION_DAYS days. |
| Reconcile.WarnNotPaid | main.py:1032-1039 | An acknowledgement only; no state changes. |
| Reconcile.WarnKick | main.py:1041-1070 | A group admin or owner is kept, and a failed role lookup does not block. A failed ban or unban changes nothing. Otherwise the primary grant is cleared when it is this group and the extra grant is deleted. |
| Auth.QueryRoundTrip | api/auth.py:18 | `k=v&…` pairs parse back to the same pairs when keys hold no '=', no text holds '&' or '+' and values are non-empty. |
| Auth.ItemsSpec | api/auth.py:18 | `dict(parse_qsl(…))` has one item per key, holding the key's last value. |
| Auth.Without | api/auth.py:23 | `pop('hash')` removes exactly the hash item and keeps the others distinct. |
| Auth.SortSpec | api/auth.py:25 | `sorted` gives the same items in key order. |
| Auth.SortedUnique | api/auth.py:25 | Two key-sorted item lists with the same items are equal, so the order depends on the dictionary only. |
| Auth.Lines | api/auth.py:25 | Each line is `k=v` for its item. |
| Auth.CheckItemsSpec | api/auth.py:20-26 | The signed fields are exactly the dictionary's fields other than `hash`, with their last values, in key order. |
| Auth.CheckStringCanonical | api/auth.py:18-26 | The check string depends only on the dictionary without `hash`: pair order and overwritten values do not matter. |
| Auth.HashNotSigned | api/auth.py:23-26 | Changing the received hash does not change the check string. |
| Auth.Hex | api/auth.py:38 | `hexdigest()` has two lower-case hex digits per byte. |
| Auth.HexInjective | api/auth.py:38-40 | Equal hex digests mean equal digests. |
| Auth.HexAscii | api/auth.py:38-40 | A hex digest is ASCII, so only a non-ASCII received hash can make `compare_digest` raise. |
| Auth.VerifyInitData | api/auth.py:12-55 | Accepts exactly when `hash` is present, equals the expected HMAC-SHA256 hex digest over the check string under the key derived from the token, and the `user` field decodes; the result is that user. Every failure is 401 with "Authentication failed: " and the original message, e.g. "401: Invalid initData: missing hash". |
| Auth.AcceptedMeansDigestMatch | api/auth.py:28-41 | In an accepted `initData`, any digest whose hex is the received hash is the HMAC of its own check string under the token's key. |
| Auth.CurrentUser | api/auth.py:57-68 | A missing or empty header is 401 "Authorization header required". A header without the "tma " prefix is 401 "Invalid authorization format". Otherwise the rest of the header is verified. |
| AdminApi.ServiceAdmins | api/routes/admin.py:12-18 | The import-time `ADMIN_IDS`: no list (the module does not import) exactly when the reader as written raises; otherwise the list the corrected reader gives. |
| AdminApi.AdminImportFails | api/routes/admin.py:14-18 | ADMIN_IDS="--5" stops the import of the admin routes. |
| AdminApi.RequireAdmin | api/routes/admin.py:20-26 | Ok exactly when the user has an id that is among the imported admin ids; otherwise 403 "Admin access required". |
| AdminApi.StatsAsWritten | api/routes/admin.py:36-69 | Active is the larger of the two counts. Total = active + expired. Pending and approved are the numbers of payments in those statuses, and together they never exceed the number of payments. |
| AdminApi.TelegramGroupsNotCounted | api/routes/admin.py:45-47 | A primary grant in a negative (Telegram) group is never counted as active. |
| AdminApi.NegativeGroupNotCounted | api/routes/admin.py:45-53 | One running grant in group -1001 is reported as 0 active and 1 expired, while the corrected count gives 1 active. |
| AdminApi.MaxUndercounts | api/routes/admin.py:48-51 | Two users, one with only a primary grant and one with only an extra grant, are reported as one active user. |
| AdminApi.ExpiredGoesNegative | api/routes/admin.py:51-53 | A `user_groups` row of an unregistered user makes the expired figure negative. |
| AdminApi.ActiveUsers | api/routes/admin.py:43-53 | Exactly the registered users with a running primary grant (group set and not 0) or a running extra grant. |
| AdminApi.Stats | api/routes/admin.py:36-69 | Active is the number of `ActiveUsers`, expired is never negative, and total = active + expired. Pending and approved are the numbers of payments in those statuses. |
| AdminApi.StatsNeverUndercount | api/routes/admin.py:51 | When every `user_groups` row belongs to a registered user, the corrected active figure is at least the as-written one. |
| AdminApi.GetStats | api/routes/admin.py:36-69 | 403 for a non-admin; otherwise the figures as written (`StatsAsWritten`). |
| AdminApi.StatsRouteMissesGrant | api/routes/admin.py:45-53 | An admin asking for the figures with one running grant in group -1001 is shown 0 active and 1 expired. |
| AdminApi.ApprovePayment | api/routes/admin.py:139-188 | 403 for a non-admin, 500 with no write for an unparsable start date, 404 for an unknown payment. Otherwise the payment is approved by this admin whatever its status. A single group goes into `users` (existing row only); otherwise every group is upserted into `user_groups`. The expiry is start plus `days` days. |
| AdminApi.RejectPayment | api/routes/admin.py:190-203 | 403 for a non-admin; otherwise rejected by this admin with no existence or status check. |
| AdminApi.GetGroups | api/routes/admin.py:205-216 | 403 for a non-admin; 500 when the reader as written raises on PRIVATE_GROUP_ID; otherwise one entry per id of the corrected reader, in order, named "Group <id>". |
| AdminApi.GroupsCrash | api/routes/admin.py:211-214 | PRIVATE_GROUP_ID="--5" gives an admin a 500. |
| AdminApi.GetGroupsCorrected | api/routes/admin.py:205-216 | The route on the corrected reader: 403 for a non-admin and never a server error. |
| AdminApi.GroupsAgree | api/routes/admin.py:205-216 | Wherever the route does not raise, it answers what the corrected route answers. |
| AdminApi.GroupsRoundTrip | api/routes/admin.py:208-216 | Group ids written out with commas are listed back exactly, in order. |
| UserApi.Shown | api/routes/user.py:29 | An absent value is shown as "None" inside the f-string. |
| UserApi.RegisterNameAsWritten | api/routes/user.py:27-31 | The stored name is the stripped f-string of both names (an absent one written "None"), or "User<id>" when that is empty. |
| UserApi.MissingLastNameShown | api/routes/user.py:29 | A user without a last name is registered as "<first> None". |
| UserApi.RegisterName | api/routes/user.py:27-31 | Corrected name: never empty, and "User<id>" when neither name is given. |
| UserApi.FirstNameAlone | api/routes/user.py:29-31 | With the corrected rule a user without a last name is registered under the first name alone. |
| UserApi.RegisterUser | api/routes/user.py:21-44 | The row becomes `Registered` with the f-string name as written and the consent time; the other tables are unchanged. |
| UserApi.RegisterKeepsGrant | api/routes/user.py:35-42 | Registering again keeps the grant, phone and course; only the names and consent time change. |
| UserApi.SelectCourse | api/routes/user.py:46-59 | `course_name` of an existing row is set; a missing row stays missing. |
| UserApi.SavePhone | api/routes/user.py:61-74 | The phone of an existing row is set as sent, with no format check. |
| UserApi.PhotoPath | api/routes/user.py:86 | The file lies under "uploads/". |
| UserApi.PhotoPathInjective | api/routes/user.py:86 | Two uploads share a file name only when they come from the same user in the same second. |
| UserApi.SubmitPayment | api/routes/user.py:76-104 | A new pending payment under a fresh id points to `PhotoPath`. |
| UserApi.GetUserInfo | api/routes/user.py:106-127 | The stored profile field by field, or 404 "User not found" exactly when the user has no row. |
| UserApi.GroupsOf | api/routes/user.py:139-143 | Exactly the user's `user_groups` rows, group to expiry. |
| UserApi.GetSubscription | api/routes/user.py:129-152 | Active exactly when the primary or some extra grant runs past now. The expiry is 0 for an unknown user, and the groups are `GroupsOf`. |
| UserApi.ApprovalActivates | api/routes/user.py:146 | After an approval with a future expiry the subscription is active: for a single group when the row exists, and always for several groups. An empty group list changes nothing. |
| Courses.CatalogueShape | api/routes/courses.py:5-20 | Fourteen courses numbered 1 to 14 in order. Each level has a standard course and then a premium one marked with a star. |
| Courses.LevelsDistinct | api/routes/courses.py:5-20 | The seven levels are distinct. |
| Courses.FirstWithId | api/routes/courses.py:30 | A course of the catalogue with that id, or none exactly when no course has it. |
| Courses.GetCourses | api/routes/courses.py:22-25 | Status 200 with the whole catalogue, unchanged and in order. |
| Courses.ListedCoursesFound | api/routes/courses.py:22-33 | Every listed course is what the single-course route answers for its id, and every course that route finds is listed. |
| Courses.GetCourseAsWritten | api/routes/courses.py:27-33 | A known id gives 200 with the course; an unknown id gives 200 with the pair ("Course not found", 404). |
| Courses.UnknownCourseIsSuccess | api/routes/courses.py:31-32 | Id 15 is answered with status 200. |
| Courses.GetCourse | api/routes/courses.py:27-33 | 200 exactly for ids 1-14, with the course of that id; otherwise 404 "Course not found". |
| Migrate.PhoneCell | migrate_to_postgres.py:45 | A row with at most five columns gives NULL phone. |
| Migrate.AgreedCell | migrate_to_postgres.py:46 | A row with at most six columns gives NULL `agreed_at`. |
| Migrate.Inserted | migrate_to_postgres.py:64-69 | The inserted payment copies user, photo, status and time, drops the source id, and has NULL admin for a short row. |
| Migrate.LastOf | migrate_to_postgres.py:33 | The last source row of a user, or none exactly when the user has no source row. |
| Migrate.UsersAfterAt | migrate_to_postgres.py:33-47 | Each migrated user's row is the target row overwritten by that user's last source row; only `course_name` survives. Users absent from the source are untouched. |
| Migrate.UsersIdempotent | migrate_to_postgres.py:33-47 | Copying the users twice is copying them once. |
| Migrate.GroupsOverlay | migrate_to_postgres.py:79-86 | `user_groups` after the copy is the target overlaid with the source's last expiries. |
| Migrate.GroupsIdempotent | migrate_to_postgres.py:79-86 | Copying `user_groups` twice is copying it once. |
| Migrate.PaymentsGrow | migrate_to_postgres.py:57-69 | Stored payments keep id and content. Every new row is a copy of a source row under an id from the counter upwards. |
| Migrate.PaymentsCover | migrate_to_postgres.py:57-69 | After the copy every source payment's (user, time) is on record. |
| Migrate.PaymentsStayUnique | migrate_to_postgres.py:57-69 | A target without duplicate (user, time) pairs gets none; source duplicates collapse to one. |
| Migrate.PaymentsSettled | migrate_to_postgres.py:59-63 | When every source payment is on record, the loop writes nothing. |
| Migrate.PaymentsIdempotent | migrate_to_postgres.py:57-69 | Copying the payments twice is copying them once, id counter included. |
| Migrate.MigrateIdempotent | migrate_to_postgres.py:12-97 | Running the migration twice leaves the target as after one run. |
| Migrate.Migrate | migrate_to_postgres.py:12-97 | A missing source file leaves the target untouched. Otherwise the three loops leave users, payments (with the counter) and `user_groups` as `Target` describes. |

## Left out

- Telegram I/O: messages, photos, documents, keyboards and their texts. `get_chat`, `get_chat_member`, invite links,
  ban and unban are inputs (a profile, a role, a link-or-error, a success flag).
- The HTTP transport, CORS and Pydantic validation. A request body is taken as already parsed.
- Database failures in the middle of a handler. Every statement is taken to succeed, and the handlers' `try`/`except`
  around the database is not modelled.
- Row order of SQL results. Loops over query results take the rows in any order, and `list(selected)[0]` is any
  element of the selection.
- Concurrency. Handlers and the loop run one at a time; the read-then-write race between `get_payment` and
  `set_payment_status` is outside a sequential model.
- Which handler aiogram picks for a text message. Each handler is a transition of its own.
- Wall-clock conversion. `datetime.utcnow()`, `fromisoformat`, `strptime`, `strftime` and naive local-time
  `.timestamp()` are left out. Times are integer seconds: "now" and a parsed start are inputs, and an
  unparsable start is a value of its own.
- `submit_payment` reads the clock twice (file name and `created_at`). The model uses one `now` for both.
- `submit_payment`'s creation of `uploads/` and its write of the photo's bytes to the file (api/routes/user.py:83-90).
  Only the file's name is modelled (`UserApi.PhotoPath`); the file system is not.
- The loop's sleeps and restarts. One pass of `auto_kick_loop` is modelled, with one `now`.
- Contract text and PDF generation, `/groups`, `/stats` and `/gstats` of the bot, and the callback parse errors
  (`int(parts[1])` on a malformed callback).
- `get_pending_payments` and `get_approved_payments` of the HTTP service. They are read-only listings that
  format rows; they are not part of this model.
- `on_photo`, `cb_pay_card`, `cb_pay_link` and `cb_terms_decline` of the bot. Their only state change is
  `add_payment`, modelled as `Store.Store.AddPayment`; the rest is messages.
- HMAC-SHA256, UTF-8 encoding, percent-decoding in `parse_qsl` and `json.loads` are parameters. `parse_qsl`'s
  field limit and its handling of pieces without '=' beyond dropping them are left out. Hex encoding is concrete.
- A Telegram user without an id on the user routes. Those routes take the id as an integer; the admin check models
  the missing id (403).
- The start-up check that `BOT_TOKEN` is set, and the id parser's warning when a list is empty.
- Python's Unicode `isdigit`. Digits are the ASCII digits only; whitespace is the full set of characters `str.isspace`
  accepts (`Text.IsSpace`), so `strip` is modelled exactly.
- MigrateIdempotent: assumes every source payment has a `created_at` stamp. The model's stamps are integers, so a
  NULL stamp cannot be written. The source's `created_at = $2` never matches NULL, so such a row would be inserted
  again on every run.
- The migration's printed counts and messages (the payment count printed is the source size even when rows were
  skipped). Its connections and their closing are left out too.

## Findings

| source | as written | input that shows it | evidently intended | confidence | as-written member | corrected member |
|---|---|---|---|---|---|---|
| main.py:36-37 | a piece passes when `lstrip('-')` is all digits, then `int()` converts it | `ADMIN_IDS="--5"`: the filter passes and `int("--5")` raises, so the bot does not start | only `-?digits` pieces are kept | high, not executed | IdList.DoubleMinusCrashes | IdList.ParseIdList |
| api/routes/admin.py:17-18 | the same filter and `int()` run when the admin routes are imported | `ADMIN_IDS="--5"`: `int("--5")` raises and the HTTP service does not start | only `-?digits` pieces are kept | high, not executed | AdminApi.AdminImportFails | IdList.ParseIdList |
| api/routes/admin.py:213-214 | the same filter and `int()` run inside `get_groups` | `PRIVATE_GROUP_ID="--5"`: an admin's request for the groups gets a 500 | only `-?digits` pieces are kept | high, not executed | AdminApi.GroupsCrash | AdminApi.GetGroupsCorrected |
| main.py:447 | `/start` upserts with `group_id=0, expires_at=0` | a paid user (expiry in the future) sends `/start`: expiry and group become 0 | a returning user keeps the grant, as the HTTP registration does | high, not executed | Registration.StartWipesGrant | Registration.StartKeepsGrant |
| api/routes/admin.py:46 | the active primary count requires `group_id > 0` | one user with a running grant in group -1001: 0 active, 1 expired | count any set, non-zero group | high, not executed | AdminApi.NegativeGroupNotCounted | AdminApi.Stats |
| api/routes/admin.py:51-53 | active users = max of the primary and extra counts; expired = total - active | user 1 with only a primary grant and user 2 with only an extra grant: reported as 1 active; an extra grant of an unregistered user makes expired negative | count the union of both kinds of active users | high, not executed | AdminApi.MaxUndercounts | AdminApi.StatsNeverUndercount |
| api/routes/user.py:29 | the name is `f"{first_name} {last_name}"` on values that may be None | a user with first name "Ali" and no last name is registered as "Ali None" | leave absent names out | high, not executed | UserApi.MissingLastNameShown | UserApi.FirstNameAlone |
| api/routes/courses.py:31-32 | an unknown id returns the tuple `({"error": …}, 404)` | GET /api/courses/15 answers status 200 with a two-element JSON array | status 404 with the error object | high, not executed | Courses.UnknownCourseIsSuccess | Courses.GetCourse |
