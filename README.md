# Library service: borrowing, inventory and payment rules

A Dafny model of the core of a Django library service (`library_service1.0`).
Users borrow books, return them, and pay rental and fine charges through an
external checkout-session processor. The model covers:

- **The database** (`Store.Library`). The book table is a map from primary
  key to row. The borrowing and payment tables are sequences in insertion
  order. The notifications handed to the worker are a sequence of events,
  and the next primary keys are counters. A ghost `stock` map records the
  copies each book owns. `Valid()` bundles every consistency rule
  (`Ledger.WellFormed`), and every write keeps it:
  - distinct keys;
  - rows only refer to rows that exist;
  - at most one active borrowing per (user, book);
  - at most one PENDING payment of each type per borrowing;
  - fees and amounts of at least one cent;
  - inventory conservation: copies on the shelf plus copies out equal the
    stock.
- **The borrowing lifecycle.** Creating a borrowing takes a copy off the
  shelf. Returning one puts it back. On a first return the rental payment
  (and the fine, when overdue) is created and a checkout session is opened.
  Creating and deleting books is covered too.
- **The payment calculator and the payment-creation guard.**
- **The checkout-session bridge:**
  - one line item per payment, in cents;
  - comma-joined payment keys as metadata, which parse back to the keys;
  - the session handle stamped on every PENDING row of the borrowing.
- **The pure helpers:** the list serializers' computed fields, the choice
  fields, the view querysets and their `is_active` filter, the
  book-deletion guard, `get_permissions`, the daily report's figures,
  registration and the user detail counts.

Representation choices:

- Money is a whole number of cents. Every column has two decimals, so this
  is exact.
- A date is a day number, and a timestamp is a number of seconds.
- The current date (`today`) and time (`now`) are parameters.
- The payment processor is a function parameter: from the session request to
  its reply, or from a session id to the retrieved status.
- The origin of the request is a string, and `build_absolute_uri` is
  concatenation.
- Each method is one request's write, applied in one step.

Where the code cannot run as written, the model follows the evident intent:

- The payment rows are created with `type=` (library/serializers.py:216, 229).
  The model field is `payment_type` (library/models.py:111), so the model
  stores the type there.
- `get_type_display()` (library/stripe_system.py:38) is modelled as the
  choice's label, `Models.TypeLabel`.
- `Payment.PaymentStatus` (library/views.py:215, 225) is read as
  `Payment.Status`.
- `active_borrowings.count()` (library/views.py:66) is called on a bool.
  The model refuses with the number of active borrowings,
  `ActiveBorrowingsExist(count)`.

Where the code's behaviour may surprise, the model follows the code:

- A first return with no payments inserts the rows and then asks for a
  session. If the processor fails, the error is raised and the return does
  not happen, but the new PENDING rows stay: nothing rolls them back. If the
  session is created, the return completes even though the rows it just
  created are PENDING (library/serializers.py:381-400).
- `is_session_paid` answers "not paid" when the lookup fails; it does not
  raise.
- Deleting a book cascades to its borrowings and to their payments
  (`on_delete=CASCADE`).
- Borrowing creation uses two dates. The expected return date is checked
  against `timezone.now().date()` (library/serializers.py:291), which is the
  UTC date. The new row's `borrow_date` defaults to `timezone.localdate`
  (library/models.py:61). The two days can differ near midnight, so
  `Store.Library.CreateBorrowing` takes both: `today` (local) and `utcToday`.
- The return and the payment calculator read only `timezone.localdate()`
  (library/serializers.py:221, 367). That date is the one `today`.

## Model

| member | source | states |
|---|---|---|
| Models.DayOf | library/tasks.py:64-66 | the day returned is the calendar day holding the instant |
| Models.ParseCover | library/models.py:22-32 | exactly "Hard" and "Soft" are accepted, as the choice whose stored value is the input |
| Models.ParseStatus | library/models.py:98-110 | exactly "Pending" and "Paid" are accepted, as the choice stored under that value |
| Models.ParseType | library/models.py:102-116 | exactly "Payment" and "Fine" are accepted, as the choice stored under that value |
| Models.ChoicesRoundTrip | library/models.py:98-116 | every cover, status and type choice is stored as a value its parser reads back as the same choice |
| Models.NewBorrowing | library/models.py:60-71 | a new borrowing is active, has no return date and is borrowed today |
| Models.NewPayment | library/models.py:106-127 | a new payment is PENDING with no session and carries its creation time, type and amount |
| Ledger.FindBorrowing | library/serializers.py:146-148 | the position found holds the key and is the first one; none is found exactly when no row has the key |
| Ledger.FindBorrowingAt | library/serializers.py:146-148 | with distinct keys a borrowing's key finds exactly its own row |
| Ledger.BorrowingOf | library/models.py:117 | a payment's borrowing is found iff a row has its key, and is that row |
| Ledger.ActiveCount | library/views.py:58-62 | the number of active borrowings of a book, the copies out, is at most the table size |
| Ledger.ActiveCountPositive | library/views.py:58-62 | a book has a positive count of active borrowings iff some borrowing of it is active |
| Ledger.PendingNewestFirst | library/stripe_system.py:71-74 | exactly the borrowing's PENDING rows are listed, and the list is empty iff the borrowing has none |
| Ledger.PendingNewestFirstOrder | library/models.py:139 | the list is the borrowing's PENDING rows in table order, reversed: newest first |
| Ledger.PendingOfBorrowingIsPendingForPair | library/serializers.py:182-206 | a PENDING payment of a borrowing is a PENDING payment of its (user, book) pair, so the per-pair check comes first |
| Ledger.InsertBorrowingWellFormed | library/serializers.py:303-331 | inserting an active borrowing for a pair with none keeps distinct keys, valid references and one active borrowing per pair |
| Ledger.AppendPaymentRowsWellFormed | library/serializers.py:200-231 | appending a rental row and at most one fine row for a borrowing with no PENDING payment keeps every payment rule |
| Ledger.WithoutBook | library/models.py:55-58 | the borrowings kept after the cascade are exactly those of other books |
| Ledger.PaymentsOfRemaining | library/models.py:117 | the payments kept after the cascade are exactly those whose borrowing remains |
| Ledger.DestroyWellFormed | library/views.py:55-71 | deleting a book with no active borrowing, with its borrowings and their payments, keeps every rule and the other books' stock |
| Serializers.RentalDays | library/serializers.py:208-210 | the days charged are at least one, and equal the borrowing window when that is longer |
| Serializers.RentalCost | library/serializers.py:211 | the rental charge is at least one daily fee |
| Serializers.OverdueDays | library/serializers.py:220-222 | the overdue days are positive iff today is after the expected return date, and then equal the delay |
| Serializers.FineCost | library/serializers.py:224-225 | the fine is zero when not overdue and at least two daily fees when overdue |
| Serializers.CalculatorCharges | library/serializers.py:208-231 | rental = fee × max(window, 1) and fine = 2 × fee × overdue days |
| Serializers.CalculatorExamples | library/serializers.py:208-225 | worked amounts: five days at 2.00, a same-day window, three overdue days |
| Serializers.PaymentRows | library/serializers.py:208-231 | one PENDING rental row, then a PENDING fine row exactly when overdue, under consecutive keys |
| Serializers.DaysBorrowed | library/serializers.py:269-276 | at least one, and the span to the return date (or today) when that is longer |
| Serializers.Availability | library/serializers.py:86-87 | "Available" iff the inventory is positive, otherwise "Not available" |
| Serializers.SessionUrlShown | library/serializers.py:120-123 | the link is shown iff the payment is PENDING with a positive amount |
| Serializers.ValidateBorrowingRequest | library/serializers.py:289-312 | accepted iff the book exists, the return date is not before the UTC date and the requester has no active borrowing of it; each refusal has its own error |
| Serializers.ValidateReturn | library/serializers.py:344-379 | accepted iff the borrowing is active and the requester is staff or it has no PENDING payment |
| Serializers.ValidatePaymentRequest | library/serializers.py:173-206 | accepted iff the borrowing is visible to the requester and its pair has no PENDING payment; then the borrowing has none either |
| Serializers.PaymentRequestNeedsOwnerOrStaff | library/serializers.py:177-180 | a requester who neither owns the borrowing nor is staff is always refused |
| Serializers.NewBook | library/serializers.py:41-48 | the inserted row carries the requested fields under the given key; an omitted cover is SOFT and an omitted inventory is 1 (library/models.py:28-37) |
| Serializers.ValidateBook | library/models.py:26-43 | a create request is accepted iff title, authors, inventory and fee pass their validators |
| Serializers.ValidateBookFields | library/models.py:26-43 | the fields given are accepted iff each passes its validator and the authors exist |
| Serializers.ValidateBookUpdate | library/serializers.py:24-39 | a PATCH is accepted iff every given field and the authors pass their validators; a PUT also needs the title, the daily fee and the authors, and is refused with a missing-field error without them |
| Serializers.InventoryOnlyUpdate | library/serializers.py:24-39 | a PUT with only an inventory is refused, and the same body as a PATCH is accepted |
| Serializers.SetField | library/serializers.py:55-56 | setting one field keeps the key and the authors |
| Serializers.SetFields | library/serializers.py:55-56 | setting the fields in turn keeps the key and the authors |
| Serializers.UpdatedBook | library/serializers.py:50-62 | the updated book keeps its key; its authors are replaced only when given |
| Serializers.SetFieldsEffect | library/serializers.py:55-59 | every field named takes its new value and every other field keeps its old one |
| Stripe.DecimalRoundTrip | library/stripe_system.py:31 | the decimal text of a key parses back to the key |
| Stripe.SplitJoin | library/stripe_system.py:52 | splitting a comma-join of comma-free parts gives the parts back |
| Stripe.IdListRoundTrip | library/stripe_system.py:51-52 | the `payment_ids` metadata parses back to exactly the keys, in order |
| Stripe.EntriesOf | library/stripe_system.py:30-43 | one entry per PENDING payment, in order, each with the book's title |
| Stripe.LineItemFor | library/stripe_system.py:32-43 | a line item charges the payment's amount in cents, once, in usd |
| Stripe.SessionRequestFor | library/stripe_system.py:26-55 | one line item per payment in order; the metadata names every payment and the first payment's borrowing |
| Stripe.BuildSessionRequest | library/stripe_system.py:23-43 | the loop builds exactly that request; an empty group is refused |
| Stripe.HandleOf | library/stripe_system.py:57-63 | a created session becomes its handle; a processor error becomes the raised error |
| Stripe.CreateCheckoutSession | library/stripe_system.py:18-63 | an empty group is refused before the processor is asked; otherwise the processor's reply to that request decides |
| Stripe.GetUrls | library/stripe_system.py:10-15 | both URLs are the origin followed by the success path with the session placeholder, or by the cancel path |
| Stripe.IsSessionPaid | library/stripe_system.py:99-105 | paid iff the processor reports "paid"; a failed lookup is unpaid |
| Stripe.CheckoutRequest | library/stripe_system.py:10-55 | one line item per pending payment, with the success and cancel URLs built from the origin |
| Stripe.CheckoutRequestCharges | library/stripe_system.py:30-54 | each line item charges its payment's amount, in order, and the metadata parses back to exactly the payments' keys |
| Stripe.StampPending | library/stripe_system.py:85-88 | the table keeps its length; Stripe.StampPendingEffect states which rows change and how |
| Stripe.StampPendingEffect | library/stripe_system.py:85-88 | every PENDING row of the borrowing carries the session; every other row is untouched; only session fields change |
| Stripe.StampPendingWellFormed | library/stripe_system.py:85-88 | stamping keeps every payment rule |
| Stripe.StampPendingKeepsPending | library/stripe_system.py:85-88 | stamping changes no borrowing's PENDING or any-payment status |
| Views.GetPermissions | library/views.py:26-31 | the admin class iff the action is create, update, partial_update or destroy; the read-only class otherwise |
| Views.DeclaredPermissionClasses | library/views.py:74-75 | the borrowing and payment view sets, and only they, declare the authenticated class |
| Views.BorrowerCannotCreateBorrowing | library/views.py:74-75 | as written the create and return actions get classes other than the declared authenticated class, and a non-staff user is refused for both |
| Views.IntendedPermissions | library/views.py:145-146 | a declared list wins; the others get the base rule |
| Views.AuthenticatedUserMayBorrow | library/views.py:145-146 | with the declared classes any authenticated user may use the borrowing and payment actions |
| Views.ParseActiveFilter | library/views.py:89-97 | "true" keeps active rows, "false" returned ones, in any case; absent or other values do not filter |
| Views.ActiveFilterExamples | library/views.py:89-97 | "True" and "FALSE" filter, "yes" does not |
| Views.InsertByBorrowDate | library/views.py:99 | inserting adds exactly the one row |
| Views.InsertByBorrowDateSorted | library/views.py:99 | inserting into a sorted list keeps it sorted by borrow date |
| Views.SortByBorrowDate | library/views.py:99 | the result is sorted by borrow date and is a permutation of the input |
| Views.BorrowingQuery | library/views.py:81-99 | exactly the visible rows the filter keeps, sorted by borrow date, each at most as often as in the table |
| Views.OwnBorrowingsOnly | library/views.py:86-87 | without the parameter a non-staff user gets exactly their own borrowings |
| Views.PaymentQuery | library/views.py:152-164 | staff see every payment, other users exactly the payments of their own borrowings |
| Views.PendingPayments | library/views.py:211-220 | exactly the requester's own PENDING payments |
| Views.DestroyCheck | library/views.py:55-71 | deletion is allowed iff the book exists and none of its borrowings is active; the refusal carries a positive active count |
| Tasks.Cutoff | library/tasks.py:62 | the cutoff is one day before now |
| Tasks.CutoffDay | library/tasks.py:64-66 | date columns are compared with the cutoff's calendar day |
| Tasks.Total | library/tasks.py:75-77 | the sum of non-negative amounts is non-negative, zero for no rows |
| Tasks.TotalAppend | library/tasks.py:75-77 | the total grows by each added amount |
| Tasks.TotalAtLeastCount | library/tasks.py:75-77 | with valid amounts the total is at least one cent per payment |
| Tasks.PaidSinceRows | library/tasks.py:72-74 | exactly the PAID payments created since the cutoff |
| Tasks.Report | library/tasks.py:62-85 | the counts are bounded by the table sizes; with no paid payment the earnings are zero |
| Tasks.EarningsAtLeastPayments | library/tasks.py:72-85 | the earnings are at least one cent per payment counted |
| Tasks.ActiveBorrowingIsNoReturn | library/tasks.py:68-70 | an unreturned borrowing never counts as a return |
| Tasks.BorrowingFigures | library/tasks.py:64-70 | an appended borrowing adds one new borrowing iff it was borrowed on or after the cutoff's date, and one return iff it was returned on or after that date; the payment figures stay |
| Tasks.EmptyReport | library/tasks.py:64-77 | empty tables give zero borrowings, returns, earnings and payments |
| Tasks.RecentBorrowingCounts | library/tasks.py:64-66 | a borrowing made on the cutoff's date or later counts once |
| Tasks.UnpaidPaymentIgnored | library/tasks.py:72-77 | a PENDING or older payment changes no figure |
| Tasks.PaidPaymentCounts | library/tasks.py:72-85 | a PAID payment since the cutoff adds one payment and its amount, and leaves the borrowing figures as they were |
| Users.FieldErrors | user/serializers.py:22-31 | the email error iff the email is taken, the length error iff the password is short |
| Users.ValidateRegistration | user/serializers.py:22-54 | accepted iff the email is new, the password has 8 characters and matches its confirmation; the mismatch is reported only without field errors |
| Users.ValidatedData | user/serializers.py:39-47 | the validated data holds the five declared fields |
| Users.UserKwargs | user/serializers.py:56-57 | the confirmation is dropped and every other entry passes through |
| Users.CreateUserArguments | user/serializers.py:56-59 | the user is created from the email, names and password only |
| Users.UserFrom | user/serializers.py:59 | the user row carries the given email, names and password |
| Users.UserTable.Register | user/serializers.py:21-59 | a refused registration changes nothing; an accepted one appends the user, and emails stay unique |
| Users.BorrowingsCount | user/serializers.py:81-82 | an annotation wins; otherwise at most the table size |
| Users.ActiveBorrowings | user/serializers.py:84-89 | an annotation wins; otherwise at most the table size |
| Users.CountsOfEmpty | user/serializers.py:81-89 | without annotations an empty table gives zero for both counts |
| Users.CountsAppend | user/serializers.py:81-89 | without annotations an appended row adds one to the borrowings count iff it is the user's, and one to the active count iff it is also unreturned |
| Users.CountsSplit | user/serializers.py:81-89 | a user's borrowings are the active ones plus the returned ones |
| Users.ActiveAtMostTotal | user/serializers.py:81-89 | the active count never exceeds the borrowings count |
| Store.FirstReturnStep | library/serializers.py:381-391 | the payment table never shrinks and the next key never goes back; an accepted step adds rows |
| Store.FirstReturnStepErrors | library/serializers.py:383-391 | a first return's payment step fails only as the request or the processor fails; a refused request changes nothing |
| Store.FirstReturnStepRows | library/serializers.py:381-391 | once accepted, the old rows stay as they were and the calculator's rows follow them, differing at most in their session fields, whatever the processor answers |
| Store.StampAppended | library/stripe_system.py:85-88 | stamping after appending to a table with no PENDING row of the borrowing keeps the old rows and changes the new ones only in their session fields |
| Store.FirstReturnStepKeepsOthers | library/serializers.py:381-391 | the rows already in the table stay as they were |
| Store.Library.constructor | library/models.py:8-143 | an empty database with the given authors |
| Store.Library.CreateBook | library/serializers.py:41-48 | a valid book is inserted under the next key with its stock; an invalid one changes nothing |
| Store.Library.UpdateBook | library/serializers.py:50-62 | a missing book is a 404; an invalid update, or a PUT missing a required field, changes nothing; otherwise exactly the updated row is stored |
| Store.Library.RemoveBook | library/views.py:71 | the book, its borrowings and their payments are deleted; every rule still holds |
| Store.Library.DestroyBook | library/views.py:55-71 | the result is the deletion guard's; a refusal changes nothing; an accepted deletion cascades |
| Store.Library.CreateBorrowing | library/serializers.py:289-334 | refused when validation fails (against the UTC date) or no copy is on the shelf, changing nothing; otherwise one copy leaves the shelf and one active borrowing of the requester, borrowed on the local date, is added |
| Store.Library.RecordPayments | library/serializers.py:208-231 | the calculator's rows are appended under the next keys |
| Store.Library.CreatePayment | library/serializers.py:173-233 | a refused request changes nothing; an accepted one appends the rows and returns the rental row's key |
| Store.Library.EnsureSession | library/stripe_system.py:66-90 | no PENDING row: nothing happens; a processor failure changes nothing; a created session is stamped on every PENDING row |
| Store.Library.CompleteReturn | library/serializers.py:393-402 | the copy is back on the shelf, the return date is today and the notification is queued |
| Store.Library.OpenFirstPayments | library/serializers.py:381-391 | the payment table and result are those of the first return's payment step |
| Store.Library.ChargeAndOpen | library/serializers.py:383-391 | the rows are inserted; the session's outcome decides the result and the stamping |
| Store.Library.FirstReturn | library/serializers.py:381-402 | a failed payment step fails the return, keeping its rows; otherwise the return is recorded |
| Store.Library.ProceedReturn | library/serializers.py:365-402 | an accepted return: the first-return step when there are no payments, then the return |
| Store.Library.ReturnAt | library/serializers.py:344-402 | a refused return changes nothing; an accepted one is as ReturnedAt states |
| Store.Library.ReturnBorrowing | library/views.py:126-142 | a borrowing the requester may not see is a 404 that changes nothing; otherwise the return is as ReturnedAt states |

## Left out

- The payment confirmation flow (`success`), the PENDING payment refresh in
  `retrieve`, and the compensation in `PaymentViewSet.create`. Their bodies
  are `try: pass` (library/views.py:184-192, 204-208, 227-234), so the model
  has nothing to follow. PAID rows appear only as given in the tables.
- `PaymentViewSet.create` returns nothing after saving: the created rows stay,
  and `Store.Library.CreatePayment` models only the save.
- Telegram messages and the Celery dispatch. The model only records the
  queued notification as an `Event`.
- `transaction.atomic`, `select_for_update` and concurrency. Each method is
  one sequential step.
- HTTP response shapes, routing, admin, the whitespace trimming DRF's
  `CharField` applies to submitted text, email format checks, search and
  ordering filters, authentication, and author CRUD.
- DRF collects every field error of a request and reports them together.
  Serializers.ValidateBorrowingRequest, Serializers.ValidateBook and
  Serializers.ValidateBookUpdate return only the first refusal, checking in
  a fixed order. Which error is reported is a choice of the model; whether a
  request is accepted is not affected.
- library/permissions.py is not part of this model.
  `IsAdminOrIfAuthenticatedReadOnly` is taken to admit staff, and other
  users only on safe methods, as its name says.
- Permission classes are not applied inside `Store.Library`. Their effect is
  stated separately in Views.
- Serializers.ValidateBook: Django's `max_digits=7` bound on the fee is
  checked, but `Store.Library.RecordPayments` does not check
  `Models.MaxAmount` on computed amounts. An overflowing amount would be
  refused by the database.
- Users.UserTable.Register: the password is stored as given. Hashing is part
  of `create_user`, which is not part of this model.
- Tasks.Report: its own contract gives only bounds. Tasks.EmptyReport,
  Tasks.BorrowingFigures, Tasks.UnpaidPaymentIgnored and
  Tasks.PaidPaymentCounts give the effect of each kind of row.
- Users.BorrowingsCount and Users.ActiveBorrowings: their own contracts give
  only bounds. The counts are pinned down by Users.CountsOfEmpty and
  Users.CountsAppend.
- No queryset in user/views.py annotates users, so the detail counts are
  always computed from the rows. The optional parameter of
  Users.BorrowingsCount and Users.ActiveBorrowings only models `getattr`'s
  preference for an annotation.

## Findings

| source | as written | input that shows it | evidently intended | confidence | as-written member | corrected member |
|---|---|---|---|---|---|---|
| library/views.py:26-31 | `LibraryBaseViewSet.get_permissions` never reads `permission_classes`, so `BorrowingViewSet` and `PaymentViewSet` get `IsAdminUser` for `create` and the read-only class for the `return` POST (library/views.py:74-75, 145-146) | a non-staff authenticated user POSTing to create a borrowing, return it or create a payment is refused | the declared `(IsAuthenticated,)` applies to those view sets, so any authenticated user may borrow, return and pay | not executed | Views.BorrowerCannotCreateBorrowing | Views.IntendedPermissions |
