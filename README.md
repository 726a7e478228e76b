# Student registration system: a verified model

This project models the server and two admin/public pages of a student
registration system for research-study activities. A guardian fills in the
registration form for an activity. The server stores the registration as
pending, with the activity's price as the amount due. The payment step opens
a hosted checkout session with the payment provider and records a pending
payment. The provider's webhook then reports the completed session, and the
server marks the registration paid and the payment completed.

Around that lifecycle the model covers:

- the checkout-session parameters;
- the database gateway: look-ups, filtered and paged search, count,
  update, delete and the `upsertUser` merge;
- the news, competitions and courses tables: view counting, filtered lists
  and category lists;
- the administrators table and the administrator login and update
  procedures;
- the schema: enums, defaults, column bounds and unique keys;
- the public registration form: its validator and its submit;
- the administrators' registrations page: the CSV export, the row
  selection, the delete guard and the pager.

Modelling conventions:

- Tables are sequences in insertion order, with a `WellFormed` invariant:
  ids are distinct and below the next auto-increment value, and
  `payments.registrationId` and `users.openId` are unique.
- A database that is not connected is an `available` flag. Without it the
  gateway functions fail the way the source does.
- Money is integer cents and time is an integer "now" passed in.
- The payment provider is a parameter. `CreateSession` answers a session or
  fails. `ConstructEvent` answers the verified event or rejects the
  signature.
- State-changing code is written as classes (`Db.Database`,
  `AdminsDb.AdminStore`, the content-table classes,
  `RegistrationsPage.RegistrationsView`) or as methods over them. Each
  method is proved equal to a specification function on the table values.
  The properties are lemmas about those functions.
- `Lifecycle` composes the three procedures over any sequence of calls.

## Model

| member | source | states |
|---|---|---|
| Schema.ParseGender | drizzle/schema.ts:51 | exactly 男 and 女 are genders, and a parsed gender prints back as the same label |
| Schema.ParseGenderOfLabel | drizzle/schema.ts:51 | every gender label parses back to the same gender |
| Schema.RegistrationStatusNameInjective | drizzle/schema.ts:69 | two registration statuses have the same name only when they are the same status, so a status filter selects one status |
| Schema.RegistrationRow | drizzle/schema.ts:45-78 | an inserted registration keeps its id, input and amount, and its status defaults to pending |
| Schema.PaymentRow | drizzle/schema.ts:86-103 | an inserted payment keeps its id, registration and amount; currency defaults to CNY and status to pending, and given values are kept |
| Text.Trim | server/routers.ts:243 | `trim` leaves no white space at either end, never lengthens its input, and leaves an already trimmed string unchanged |
| Text.TrimIsPiece | server/routers.ts:243 | what `trim` leaves is a contiguous piece of the input whose cut-off ends are all white space |
| Text.BeforeFirst | server/routers.ts:243 | `split(',')[0]` is a prefix without the separator, ending just before the first separator |
| Text.ParseIntOfIntToDecimal | server/webhooks/stripe.ts:43 | `parseInt` of an integer's decimal text gives back the integer |
| Text.SplitOfJoin | client/src/pages/admin/Registrations.tsx:80 | splitting a join on its one-character separator gives back the parts, when no part holds the separator |
| Routers.AdminGuard | server/routers.ts:16-21 | only a signed-in user with the admin role passes; a non-admin gets FORBIDDEN, and an anonymous caller is refused as not signed in |
| Routers.RawClientAddress | server/routers.ts:235-237 | the address comes from the first non-empty of x-forwarded-for, x-real-ip and the socket address, and is "" only when all three are empty |
| Routers.ClientIp | server/routers.ts:243 | the stored address holds no comma, is trimmed, and is no longer than the raw header value |
| Routers.ClientIpOfProxyChain | server/routers.ts:235-243 | for a forwarded chain `client, …`, the stored address is the trimmed client entry |
| Routers.ClientIpWithoutSources | server/routers.ts:235-243 | with no address source at all, the empty string is stored |
| Routers.ParseRegistrationInput | server/routers.ts:210-223 | the input parses exactly when the server's schema accepts it; the parsed gender prints as the request's label, and the parsed input converts back to the request |
| Routers.ParseRequestOf | server/routers.ts:210-223 | every stored input whose required texts are filled is accepted back unchanged |
| Routers.RegisterEffect | server/routers.ts:209-247 | a refused input, a missing database or a missing activity fails with the matching error and changes nothing; only registrations can change |
| Routers.RegisterClosedActivity | server/routers.ts:230-232 | an inactive activity is refused with BAD_REQUEST, and the store is unchanged |
| Routers.RegisterStoresPendingRow | server/routers.ts:226-246 | a success appends exactly one row: the next id, the parsed input, status pending, the open activity's price and the parsed client address |
| Routers.RegisterKeepsKeys | server/routers.ts:238-243 | registering keeps the schema's key invariant |
| Routers.Register | server/routers.ts:209-247 | the procedure on the database leaves the state and answers the result that `RegisterEffect` specifies |
| Routers.CreateIntentEffect | server/routers.ts:632-687 | a missing registration, an already completed payment or a missing activity fails before any session is requested and changes nothing; a provider that creates no session gives an internal error with nothing written; only payments can change; at most one payment row is added; a success answers the registration's stored paymentAmount |
| Routers.CreateIntentRequestsCheckout | server/routers.ts:656-663 | the session asked for is built from the stored registration and its activity |
| Routers.CreateIntentKeepsCompleted | server/routers.ts:643-647 | a completed payment is never changed or removed |
| Routers.CreateIntentKeepsKeys | server/routers.ts:666-680 | the key invariant holds afterwards, including one payment per registration |
| Routers.CreateIntentLeavesPendingPayment | server/routers.ts:666-686 | on success the registration's payment is pending with the session id, and the reply carries the session URL and the registration's paymentAmount; a reopened payment keeps every other column; a new one is a stripe payment in CNY for the registration's paymentAmount |
| Routers.CreateIntentNeverDuplicates | server/routers.ts:642-680 | on a well-formed store the payment unique key is never hit |
| Routers.CreateIntent | server/routers.ts:632-687 | the procedure on the database leaves the state and answers the result that `CreateIntentEffect` specifies |
| Routers.TotalPages | server/routers.ts:293 | `Math.ceil(total / pageSize)`: for a positive size, the least page count covering the total; NaN when both are 0; an infinite count for a zero size |
| Routers.PageWindow | server/routers.ts:265-271 | the window is limit = pageSize and offset = (page-1)*pageSize, with defaults 1 and 20 |
| Routers.SearchRoute | server/routers.ts:259-295 | the reply echoes page and pageSize and totals every matching row; its items are the pageSize rows of the newest-first matches that follow the first (page-1)*pageSize of them; a negative window fails |
| Routers.PageWithinCeiling | server/routers.ts:270-293 | with a positive size, page p from 1 on is non-empty iff p is at most the ceiling page count |
| Routers.SearchPageWithinCount | server/routers.ts:259-295 | with a positive size, a requested page has items iff it is at most the reported totalPages |
| Routers.NextPageContinues | server/routers.ts:271 | when no two matching rows share createdAt, page p and page p+1 together are one contiguous run of the newest-first matches, starting at (p-1)*pageSize |
| Routers.SearchRegistrationsRoute | server/routers.ts:259-295 | the procedure on the database answers what `SearchRoute` specifies, so its items are that window of the newest-first matches |
| Routers.LoginEffect | server/routers.ts:37-73 | empty credentials are refused as invalid input; an unknown name, a disabled account and a wrong password get the same UNAUTHORIZED; success answers the summary and records the login time |
| Routers.LoginTouchesOnlyLastLogin | server/routers.ts:54-60 | a successful login changes only that administrator's lastLoginAt |
| Routers.AdminLogin | server/routers.ts:37-73 | the procedure on the table leaves the state and answers the result that `LoginEffect` specifies |
| Routers.BuildAdminUpdates | server/routers.ts:128-137 | name and password are written only when non-empty, the password hashed; email, phone and isActive pass through as given |
| Routers.AdminUpdateChangesGivenFields | server/routers.ts:119-140 | an accepted update answers the row with exactly the given fields changed |
| Routers.AdminUpdate | server/routers.ts:119-140 | a refused input changes nothing; an accepted one leaves the table and answers the result that `AdminsDb.SetAdmin` specifies |
| Checkout.CheckoutCharge | server/stripe.ts:21-44 | one card line item, quantity 1, in cny, for the whole amount, in payment mode; the product is the activity title, the description is 学生： plus the student's name, and the guardian's e-mail passes through |
| Checkout.ReferenceRoundTrip | server/stripe.ts:38-41 | client_reference_id and metadata.registration_id both parse back to the registration id |
| Checkout.ReturnUrls | server/stripe.ts:36-37 | success_url is the origin's /receipt/ page and cancel_url its /payment/ page, each ending in the id |
| Webhook.NamedRegistration | server/webhooks/stripe.ts:43-48 | the named registration is the parsed reference, or the metadata id when the reference is empty; NaN and 0 name nothing |
| Webhook.Reconcile | server/webhooks/stripe.ts:50-82 | reconciliation changes only registrations and payments, and fails without a database |
| Webhook.WebhookEffect | server/webhooks/stripe.ts:5-108 | a missing signature gives 400, a missing secret 500 and a rejected signature 400, all without changes; a test event is acknowledged as verified without changes; the store changes only for a verified, named, completed checkout |
| Webhook.WebhookIgnores | server/webhooks/stripe.ts:45-48 | other event types, and a completed session naming no registration, are acknowledged and change nothing |
| Webhook.ReconcileKeepsKeys | server/webhooks/stripe.ts:50-82 | reconciliation keeps the key invariant |
| Webhook.WebhookKeepsKeys | server/webhooks/stripe.ts:5-108 | the handler keeps the key invariant, so a registration never gets two payments |
| Webhook.ReconcileCompletes | server/webhooks/stripe.ts:50-82 | after a successful reconciliation every row of the registration is paid, and its one payment is completed with the payment intent, the session data and paidAt = now; an existing payment keeps id and amount; a new one records the session total and the upper-cased currency |
| Webhook.RecompleteMovesPaidAt | server/webhooks/stripe.ts:58-67 | completing an already completed payment again only moves paidAt |
| Webhook.MarkPaidAgain | server/webhooks/stripe.ts:51-53 | marking already paid rows paid changes nothing |
| Webhook.ReconcileCompleted | server/webhooks/stripe.ts:51-67 | reconciling a registration whose payment that session already completed moves only that payment's paidAt |
| Webhook.ReconcileReplay | server/webhooks/stripe.ts:51-82 | replaying a completed session keeps the registrations, adds no payment, and changes only paidAt of that registration's payment |
| Webhook.WebhookReplay | server/webhooks/stripe.ts:5-108 | a received event delivered again is received again; the registrations, the payment count and the payment id counter stay, and payments differ only in paidAt |
| Webhook.HandleStripeWebhook | server/webhooks/stripe.ts:5-108 | the handler on the database leaves the state and answers the response that `WebhookEffect` specifies |
| Lifecycle.ApplyKeepsKeys | server/routers.ts:209-687 | each call (create, intent, webhook) keeps the key invariant |
| Lifecycle.RunKeepsKeys | drizzle/schema.ts:88 | any sequence of calls keeps the key invariant |
| Lifecycle.RunAtMostOnePayment | drizzle/schema.ts:88 | after any sequence of calls, every registration has at most one payment row |
| Lifecycle.SessionNamesRegistration | server/webhooks/stripe.ts:43 | a session that echoes the checkout's reference or metadata names the registration it was created for |
| Lifecycle.IntentThenCompletionPays | server/webhooks/stripe.ts:43-82 | a successful createIntent, then a received completion of that session: the registration is paid and its only payment is completed by the session |
| Db.GetActivityById | server/db.ts:101-107 | fails without a database; otherwise nothing is found iff no row has the id, and a found row has that id |
| Db.GetActiveActivities | server/db.ts:109-114 | exactly the active rows, each as often as stored, newest first |
| Db.GetRegistrationById | server/db.ts:139-145 | fails without a database; otherwise nothing is found iff no row has the id, and a found row has that id |
| Db.GetPaymentByRegistrationId | server/db.ts:272-278 | fails without a database; otherwise nothing is found iff no payment names the registration, and a found payment names it |
| Db.GetPaymentFindsTheOne | server/db.ts:272-278 | under the unique key, the payment found for a registration is the one stored |
| Db.AtMostOnePayment | drizzle/schema.ts:88 | the unique key allows at most one payment per registration |
| Db.InsertRegistration | server/db.ts:131-137 | appends the row under the next id and answers that id; a missing database or an over-long value fails without changes |
| Db.InsertRegistrationKeepsKeys | server/db.ts:131-137 | the insert keeps the key invariant |
| Db.InsertRegistrationFound | server/db.ts:131-145 | the new id finds exactly the inserted row |
| Db.SetRegistration | server/db.ts:249-254 | only the row with the id changes, and only in the patched columns; a missing id changes nothing |
| Db.SetRegistrationKeepsKeys | server/db.ts:249-254 | the update keeps the key invariant |
| Db.RemoveRegistration | server/db.ts:256-261 | every other row stays; only rows with the id go |
| Db.RemoveRegistrationKeepsKeys | server/db.ts:256-261 | the delete keeps the key invariant |
| Db.BuildConditions | server/db.ts:166-186 | the pushed conditions all hold iff the row meets every truthy filter |
| Db.Matching | server/db.ts:188-192 | exactly the stored rows meeting the filter |
| Db.Ranked | server/db.ts:194 | the matches of the filter, each as often as stored, sorted by createdAt descending |
| Query.ConsecutiveWindows | server/db.ts:196-202 | the windows at offsets k and k+n, both of limit n, are together the rows from k on |
| Query.SortedDescUnique | server/db.ts:194 | two arrangements of the same rows, both largest key first and with no two rows sharing a key, are equal |
| Db.RankedWithoutTies | server/db.ts:194 | when no two matching rows share createdAt, every newest-first arrangement of the matches is `Ranked` |
| Db.Search | server/db.ts:154-205 | the rows of `Ranked` after the first offset of them, at most limit; no cap when the limit is unset or 0, no skip when the offset is unset or 0; a negative limit or offset fails |
| Db.Count | server/db.ts:207-247 | a count no greater than the table, or a failure without a database |
| Db.CountIsUnpagedSearchSize | server/db.ts:207-247 | the count equals the size of the unpaged search with the same filters |
| Db.InsertPayment | server/db.ts:264-270 | appends the payment under the next id; a second payment for the same registration is refused with a duplicate-key error and no change |
| Db.InsertPaymentKeepsKeys | server/db.ts:264-270 | the insert keeps the key invariant, uniqueness of registrationId included |
| Db.SetPayment | server/db.ts:280-285 | only the row with the id changes, in the patched columns; an over-long transaction id is refused |
| Db.SetPaymentKeepsKeys | server/db.ts:280-285 | the update keeps the key invariant |
| Db.Assigned | server/db.ts:28-61 | each text column is assigned iff given, with `null` for a given null; lastSignedIn iff given; an explicit role wins, otherwise the owner gets admin |
| Db.PlanValues | server/db.ts:63-65 | the insert values always carry lastSignedIn, defaulting to now |
| Db.PlanUpdateSet | server/db.ts:67-69 | the update set is never empty: when nothing was assigned it is lastSignedIn := now |
| Db.PlanUpsert | server/db.ts:28-69 | the `forEach` pass and the assignments after it produce exactly `PlanValues` and `PlanUpdateSet` |
| Db.Upsert | server/db.ts:21-78 | a missing openId is refused; without a database nothing happens; a failure changes nothing; only the users table and its id counter change |
| Db.UpsertKeepsKeys | server/db.ts:21-78 | the upsert keeps the key invariant, uniqueness of openId included |
| Db.UpsertRole | server/db.ts:55-78 | afterwards exactly one row has the openId, with the explicit role, else admin for the owner, else its old role or `user` |
| Db.UpsertMergesRow | server/db.ts:33-78 | a success on a connected database either replaces the one row holding the openId with the merge `MergedUser`, or, when no row holds it, appends `FreshUser` with the next id. In the merge, each given name, email or loginMethod sets the column (null clears it), the role follows the role rule, and lastSignedIn is the given time or, when nothing at all is given, now; every other column is kept. A fresh row has the given fields, null where none is given, created now and signed in at the given time or now |
| Db.Database.constructor | server/db.ts:6-18 | a connected database holding the given tables |
| Db.Database.CreateRegistration | server/db.ts:131-137 | the state and result are those of `InsertRegistration` |
| Db.Database.UpdateRegistration | server/db.ts:249-254 | the state and result are those of `SetRegistration` |
| Db.Database.DeleteRegistration | server/db.ts:256-261 | the state and result are those of `RemoveRegistration` |
| Db.Database.CreatePayment | server/db.ts:264-270 | the state and result are those of `InsertPayment` |
| Db.Database.UpdatePayment | server/db.ts:280-285 | the state and result are those of `SetPayment` |
| Db.Database.SearchRegistrations | server/db.ts:154-205 | the condition-pushing query answers `Search`: the offset rows of the newest-first matches are skipped and at most limit follow |
| Db.Database.CountRegistrations | server/db.ts:207-247 | the condition-pushing count answers `Count` |
| Db.Database.UpsertUser | server/db.ts:21-78 | the state and result are those of `Upsert`, so the merged or appended row of `UpsertMergesRow` |
| AdminsDb.GetAdminByUsername | server/admins-db.ts:5-11 | nothing without a database; otherwise nothing iff no row has the username, and a found row has it |
| AdminsDb.GetAdminById | server/admins-db.ts:13-19 | nothing without a database; otherwise nothing iff no row has the id, and a found row has it |
| AdminsDb.GetAdminByIdUnique | server/admins-db.ts:13-19 | with distinct ids, a row's id finds that row |
| AdminsDb.GetAllAdmins | server/admins-db.ts:21-26 | every row, or none without a database |
| AdminsDb.InsertAdmin | server/admins-db.ts:28-39 | fails without a database; appends the row under the next id; a success answers a stored row with that id |
| AdminsDb.InsertAdminAnswersNewRow | server/admins-db.ts:32-38 | on a well-formed table the re-read answers exactly the inserted row, and the invariant holds |
| AdminsDb.SetAdmin | server/admins-db.ts:41-51 | only the given fields of the row with the id change; the call fails iff no row has the id; a success answers the updated row |
| AdminsDb.SetAdminAnswersUpdatedRow | server/admins-db.ts:45-50 | the answer is the stored row with the updates applied |
| AdminsDb.RemoveAdmin | server/admins-db.ts:53-58 | fails without a database; otherwise every other row stays |
| AdminsDb.TouchLastLogin | server/admins-db.ts:60-65 | only lastLoginAt of the row with the id changes; nothing changes without a database |
| AdminsDb.AdminStore.constructor | server/admins-db.ts:5-65 | a table holding the given rows |
| AdminsDb.AdminStore.CreateAdmin | server/admins-db.ts:28-39 | the state and result are those of `InsertAdmin` |
| AdminsDb.AdminStore.UpdateAdmin | server/admins-db.ts:41-51 | the state and result are those of `SetAdmin` |
| AdminsDb.AdminStore.DeleteAdmin | server/admins-db.ts:53-58 | the state and result are those of `RemoveAdmin` |
| AdminsDb.AdminStore.UpdateLastLoginAt | server/admins-db.ts:60-65 | the state is that of `TouchLastLogin` |
| NewsDb.ViewNews | server/news-db.ts:27-29 | the row with the id gets viewCount + 1; every other row stays |
| NewsDb.ViewedAnswer | server/news-db.ts:30-31 | nothing iff no row has the id; otherwise the row after the bump |
| NewsDb.SearchEscapesPublishedOnly | server/news-db.ts:54-58 | as the statement is written, an unpublished row whose content holds the term is listed under publishedOnly, which the intended filter refuses |
| NewsDb.SearchAloneAgrees | server/news-db.ts:54-58 | with no other filter, the as-written and the intended search agree |
| NewsDb.ListNewsSpec | server/news-db.ts:34-77 | rows meeting publishedOnly, the category and a term in title or content, by publishDate descending; the first offset of them are skipped and at most limit follow; a negative window fails |
| NewsDb.ListNewsEverything | server/news-db.ts:34-77 | without a window, exactly the matching rows are listed |
| NewsDb.CategoriesSpec | server/news-db.ts:79-89 | exactly the categories some row has, each once |
| NewsDb.ConditionsMean | server/news-db.ts:44-58 | the pushed conditions all hold iff the row matches the filter |
| NewsDb.NewsTable.constructor | server/news-db.ts:23-89 | a table holding the given rows |
| NewsDb.NewsTable.GetNewsById | server/news-db.ts:23-32 | bumps the row with the id and answers it as `ViewedAnswer` says; nothing changes without a database |
| NewsDb.NewsTable.ListNews | server/news-db.ts:34-77 | the condition-pushing query answers `ListNewsSpec`, so the same window of the ordered matches |
| NewsDb.NewsTable.GetNewsCategories | server/news-db.ts:79-89 | answers `CategoriesSpec` |
| CompetitionsDb.ViewCompetition | server/competitions-db.ts:27-29 | the row with the id gets viewCount + 1; every other row stays |
| CompetitionsDb.ViewedAnswer | server/competitions-db.ts:30-31 | nothing iff no row has the id; otherwise the row after the bump |
| CompetitionsDb.SearchEscapesLevel | server/competitions-db.ts:69-73 | as written, a 校级 competition whose description holds the term is listed under a 国家级 level filter, which the intended filter refuses |
| CompetitionsDb.ListCompetitionsSpec | server/competitions-db.ts:34-92 | rows meeting publishedOnly, category, level, status, isWhitelisted (false included) and a term in name or description, newest first; the first offset of them are skipped and at most limit follow; a negative window fails |
| CompetitionsDb.ListCompetitionsEverything | server/competitions-db.ts:34-92 | without a window, exactly the matching rows are listed |
| CompetitionsDb.CategoriesSpec | server/competitions-db.ts:94-104 | exactly the non-empty, non-null categories some row has, each once |
| CompetitionsDb.CategoriesMean | server/competitions-db.ts:98-103 | the distinct, filtered, mapped list holds a string iff some row has it as a named category |
| CompetitionsDb.NamedDistinct | server/competitions-db.ts:98-103 | filtering a distinct list keeps it distinct |
| CompetitionsDb.ConditionsMean | server/competitions-db.ts:44-73 | the pushed conditions all hold iff the row matches the filter |
| CompetitionsDb.CompetitionTable.constructor | server/competitions-db.ts:23-104 | a table holding the given rows |
| CompetitionsDb.CompetitionTable.GetCompetitionById | server/competitions-db.ts:23-32 | bumps the row with the id and answers it as `ViewedAnswer` says |
| CompetitionsDb.CompetitionTable.ListCompetitions | server/competitions-db.ts:34-92 | the condition-pushing query answers `ListCompetitionsSpec`, so the same window of the ordered matches |
| CompetitionsDb.CompetitionTable.GetCompetitionCategories | server/competitions-db.ts:94-104 | answers `CategoriesSpec` |
| CoursesDb.ViewCourse | server/courses-db.ts:27-29 | the row with the id gets viewCount + 1; every other row stays |
| CoursesDb.ViewedAnswer | server/courses-db.ts:29-30 | nothing iff no row has the id; otherwise the row after the bump |
| CoursesDb.SearchEscapesActiveOnly | server/courses-db.ts:58-62 | as written, an inactive course whose teacher's name holds the term is listed under activeOnly, which the intended filter refuses |
| CoursesDb.ListCoursesSpec | server/courses-db.ts:33-81 | rows meeting activeOnly, subject, grade and a term in title or teacher name, newest first; the first offset of them are skipped and at most limit follow; a negative window fails |
| CoursesDb.ListCoursesEverything | server/courses-db.ts:33-81 | without a window, exactly the matching rows are listed |
| CoursesDb.ConditionsMean | server/courses-db.ts:44-62 | the pushed conditions all hold iff the row matches the filter |
| CoursesDb.CourseTable.constructor | server/courses-db.ts:23-81 | a table holding the given rows |
| CoursesDb.CourseTable.GetCourseById | server/courses-db.ts:23-31 | bumps the row with the id and answers it as `ViewedAnswer` says |
| CoursesDb.CourseTable.ListCourses | server/courses-db.ts:33-81 | the condition-pushing query answers `ListCoursesSpec`, so the same window of the ordered matches |
| RegisterForm.AllFieldsListed | client/src/pages/Register.tsx:16-28 | the schema order lists every checked field, once |
| RegisterForm.FormErrors | client/src/pages/Register.tsx:16-28 | a field is reported iff its rule fails; nothing is reported iff the form is accepted; no field twice |
| RegisterForm.DefaultValuesRefused | client/src/pages/Register.tsx:58-70 | the empty starting form is refused on every checked field |
| RegisterForm.FormErrorsOfAllFailing | client/src/pages/Register.tsx:16-28 | when every rule fails, every field is reported, in schema order |
| RegisterForm.RouteActivityId | client/src/pages/Register.tsx:37 | a missing or empty parameter gives no id; the decimal text of n gives n |
| RegisterForm.ParseIntOfDecimals | client/src/pages/Register.tsx:37 | parseInt reads every integer's decimal text back |
| RegisterForm.OnSubmit | client/src/pages/Register.tsx:73-83 | a missing, NaN or 0 id sends nothing; otherwise the request carries the id and the form's values |
| RegisterForm.FormRefinesServer | client/src/pages/Register.tsx:16-28 | every request the form sends is accepted by the server's input schema, with the gender and phone as entered |
| RegisterForm.ServerLooserThanForm | server/routers.ts:218 | some form values are refused by the form but accepted by the server (a one-digit phone is one) |
| RegisterForm.PaymentPageIsCheckoutReturn | client/src/pages/Register.tsx:49 | the page a new registration goes to is the checkout's cancel page |
| RegistrationsPage.StatusLabel | client/src/pages/admin/Registrations.tsx:76 | paid is 已支付, pending is 待支付, anything else is 已退款, each in both directions |
| RegistrationsPage.RowCells | client/src/pages/admin/Registrations.tsx:67-78 | ten cells in heading order: id, name, gender, …, phone, status label, formatted time |
| RegistrationsPage.Table | client/src/pages/admin/Registrations.tsx:66-80 | the headings, then one row per item in order |
| RegistrationsPage.Export | client/src/pages/admin/Registrations.tsx:59-90 | nothing without items; otherwise a byte-order mark followed by the body |
| RegistrationsPage.ExportReadsBack | client/src/pages/admin/Registrations.tsx:80-81 | when no cell holds "," or a newline, splitting the exported body on lines and commas gives back the headings and every item's cells |
| RegistrationsPage.HeadersPlain | client/src/pages/admin/Registrations.tsx:66 | no heading holds a separator |
| RegistrationsPage.ToggleSelect | client/src/pages/admin/Registrations.tsx:100-104 | a selected id is removed; an unselected id is appended; every other id keeps its membership |
| RegistrationsPage.ToggleTwiceRestores | client/src/pages/admin/Registrations.tsx:100-104 | toggling an unselected id twice restores the selection |
| RegistrationsPage.FilterDropsLast | client/src/pages/admin/Registrations.tsx:102 | filtering out an id just appended gives back the list before it |
| RegistrationsPage.ToggleKeepsDistinct | client/src/pages/admin/Registrations.tsx:100-104 | toggling keeps a selection free of repeats |
| RegistrationsPage.ToggleSelectAll | client/src/pages/admin/Registrations.tsx:92-98 | clears the selection when its size equals the item count; otherwise selects every item id, in order |
| RegistrationsPage.SelectAllThenClear | client/src/pages/admin/Registrations.tsx:92-98 | select-all followed by select-all clears |
| RegistrationsPage.SelectAllComparesSizes | client/src/pages/admin/Registrations.tsx:93 | a stale selection of the same size is cleared, though it holds none of the page's ids |
| RegistrationsPage.PreviousPage | client/src/pages/admin/Registrations.tsx:293 | one back, never below 1 |
| RegistrationsPage.NextPage | client/src/pages/admin/Registrations.tsx:304 | one on, never past totalPages |
| RegistrationsPage.PagerStaysInRange | client/src/pages/admin/Registrations.tsx:288-305 | from a page in [1, totalPages], both buttons stay in range and move by one when they can |
| RegistrationsPage.RegistrationsView.constructor | client/src/pages/admin/Registrations.tsx:20-27 | the page starts on page 1 with nothing selected |
| RegistrationsPage.RegistrationsView.Search | client/src/pages/admin/Registrations.tsx:43-46 | search goes back to page 1 and keeps the selection |
| RegistrationsPage.RegistrationsView.Previous | client/src/pages/admin/Registrations.tsx:293 | the page becomes `PreviousPage` of the old page |
| RegistrationsPage.RegistrationsView.Next | client/src/pages/admin/Registrations.tsx:304 | the page becomes `NextPage` of the old page |
| RegistrationsPage.RegistrationsView.Toggle | client/src/pages/admin/Registrations.tsx:100-104 | the selection becomes `ToggleSelect` of the old one |
| RegistrationsPage.RegistrationsView.ToggleAll | client/src/pages/admin/Registrations.tsx:92-98 | the selection becomes `ToggleSelectAll` of the old one |
| RegistrationsPage.RegistrationsView.HandleDelete | client/src/pages/admin/Registrations.tsx:48-57 | an empty selection is refused with no request; a declined confirmation sends nothing; a confirmed one deletes exactly the selected ids |
| RegistrationsPage.RegistrationsView.DeleteSucceeded | client/src/pages/admin/Registrations.tsx:32-36 | a successful deletion clears the selection |

## Left out

- The payment provider's SDK is not modelled: session creation, HMAC signature verification and the key check when the module loads. Session creation and event construction are parameters.
- bcrypt is not modelled. Password comparison is a parameter predicate, and hashing in admin.update is a parameter function.
- The MySQL connection, the lazy `getDb` and drizzle's SQL are not modelled. Tables are in-memory sequences with an `available` flag, and an insert id is the next counter value.
- Rows with equal sort keys are ordered by storage order. This holds for createdAt in Db.Ranked, Db.Search and Routers.SearchRoute, and for publishDate or createdAt in NewsDb.ListNewsSpec, CompetitionsDb.ListCompetitionsSpec and CoursesDb.ListCoursesSpec. MySQL's `ORDER BY … DESC` fixes no order among ties, and the order may change with the LIMIT. So a window of tied rows is one of the arrangements the database may answer, not the only one. Without ties the arrangement is unique (Query.SortedDescUnique, Db.RankedWithoutTies), and Routers.NextPageContinues asks for that.
- Db.Search and Query.Paginate fix two window cases that the drizzle and MySQL text read here does not settle. A negative limit or offset fails. A positive offset without a limit skips that many rows, though MySQL has no OFFSET without LIMIT and the news, competitions and courses `list` routes accept an offset alone.
- `updatedAt` columns (`ON UPDATE now()`) are not modelled.
- Floating point is not modelled. Money is integer cents, so `parseFloat`, `Math.round(x * 100)` and `amount_total / 100` become the identity on cents.
- Checkout.CheckoutCharge: `unit_amount` equals the amount in cents. The ×100 rounding of a float is not modelled.
- `JSON.stringify` of `paymentData` is not modelled; the data is stored as a pair of the session id and the payment intent.
- Clocks are not modelled. "now" is a parameter, and `toLocaleString` in the CSV export is a caller-supplied `TimeFormat`.
- Date strings in `registrations.search` are not parsed. The filter takes timestamps, and `new Date` of a malformed string is left out.
- Concurrency is not modelled: `Promise.all` in search, and races between concurrent createIntent or webhook calls. Calls are strictly sequential.
- Cookies, the session token, `auth.me`, `auth.logout`, `admin.me` and `admin.logout` are not modelled. HTTP status codes are abstract response values, and console logging is dropped.
- `protectedProcedure` is in `_core/trpc`, which is not part of this model. Routers.AdminGuard answers a distinct "not signed in" error for an anonymous caller, without its message text.
- The CRUD routes for activities, news, competitions, courses and administrators (create, update, delete, list, listAll, getById) are not modelled: they only pass their input to the gateway. So are `registrations.getById`, `registrations.delete`, `registrations.batchDelete` and `payments.getByRegistrationId`.
- The gateway's insert/update/delete helpers for activities and the content tables, and `getRegistrationsByActivity`, are not modelled: the named operations do not use them.
- Routers.AdminUpdate: `UpdateAccepted` is a concrete predicate: a given name is non-empty and a given password has at least 4 characters. Any given e-mail string is accepted, because zod's `.email()` grammar is not modelled. An update that carries only the id builds an empty `updates` object. The model treats it as an update that changes no field and answers the row, or `UpdateFailed` for a missing id. What drizzle does with an empty `SET` is not part of this model. It either throws before the query runs or, when the table has an on-update column, writes only that column. The admins table is not declared in drizzle/schema.ts, so which of the two applies cannot be read from the source.
- Zod's error message texts and the form's toast messages are not modelled; a failed field or an invalid id is reported as a value.
- Lengths are counted in Dafny characters, not UTF-16 code units, for both zod `min`/`max` and varchar bounds.
- `toUpperCase` of the currency is modelled for ASCII letters only.
- String comparison is exact. MySQL's default case-insensitive collations are not modelled. This covers `LIKE '%term%'` (modelled as substring containment, without the `%`/`_` wildcards inside the term) in Db.Matching and the three `MatchesFilter` predicates. It also covers the equality filters on category, level, status, subject and grade in NewsDb.ConditionsMean, CompetitionsDb.ConditionsMean and CoursesDb.ConditionsMean, and the distinct names of `selectDistinct` in NewsDb.CategoriesSpec and CompetitionsDb.CategoriesSpec. It covers the username and openId lookups too.
- x-forwarded-for sent as several header lines (an array in Node) is not modelled; the header is one string.
- viewCount is an unbounded integer; the overflow of a 32-bit `int` column is not modelled.
- The news, competitions, courses and admins tables are not declared in drizzle/schema.ts. Their fields are taken from the router inputs that write them, and their column bounds are not modelled.
- RegisterForm.DefaultValuesRefused: states that every field is reported and that the count equals the number of checked fields. `FormErrorsOfAllFailing` gives the exact list.
- The Blob, object URL and download link of the CSV export are not modelled, nor the file name with the date.
- The page-size selector and the search form widgets of the registrations page are not modelled; the page size is 20.

## Findings

| source | as written | input that shows it | evidently intended | confidence | as-written member | corrected member |
|---|---|---|---|---|---|---|
| server/news-db.ts:54-58 | the raw fragment `title LIKE x OR content LIKE x` inside `and(...)` is unparenthesised, so it reads as `(others AND title LIKE x) OR content LIKE x` | publishedOnly = true, search "x", an unpublished row with "x" in its content: it is listed | the search term in title or content, conjoined with the other filters | not executed | NewsDb.SearchEscapesPublishedOnly | NewsDb.ListNewsSpec |
| server/competitions-db.ts:69-73 | `name LIKE x OR description LIKE x` unparenthesised inside `and(...)` | level "国家级", search "x", a 校级 competition with "x" in its description: it is listed | the term in name or description, conjoined with the other filters | not executed | CompetitionsDb.SearchEscapesLevel | CompetitionsDb.ListCompetitionsSpec |
| server/courses-db.ts:58-62 | `title LIKE x OR teacherName LIKE x` unparenthesised inside `and(...)` | activeOnly = true, search "x", an inactive course whose teacher's name holds "x": it is listed | the term in title or teacher name, conjoined with the other filters | not executed | CoursesDb.SearchEscapesActiveOnly | CoursesDb.ListCoursesSpec |
