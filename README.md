# Library service: borrowing and payment lifecycle

A Dafny model of the core of a library-borrowing backend. Users borrow books and return them. Each return bills the borrower a fee, or a fine when the book is late. The model covers:

- lending a book: the `inventory` guard, then a new borrowing and one copy fewer on the shelf;
- returning a book: the owner check, the two-state borrowing (active until `actual_return_date` is set), one copy back, and a PENDING payment of type PAYMENT or FINE;
- the fee and fine formula: day differences times the daily fee, with a fine multiplier of 2;
- the rule of one payment per (borrowing, type), enforced by `validate_unique` on every save;
- recording a checkout session on a payment;
- the visibility filters of the borrowing and payment listings, and the payment success and cancel views.

The database is in-memory state. `Models.Db` is the value: books and borrowings keyed by id, payments as a table of rows. `LibraryStore.Store` is the same state as a mutable object. Its methods perform the requests in place, one transaction per method. Each method is proved to produce exactly the state and result of the matching function in `Borrowings` or `Payments`. Each method also keeps `Models.Valid`: no negative inventory, fresh ids, foreign keys that resolve, and one payment of each type per borrowing. `Store.Save` keeps it when the payment's borrowing exists and its pk, if any, is at least 1; every caller inside the core meets both conditions. `Lifecycle` proves the properties that span several operations.

Modelling choices:

- Dates are whole day numbers. Today's date is a parameter of each operation.
- Money is integer cents. A `daily_fee` of 9.99 is 999, so amounts are exact.
- The payment gateway is outside the model. Its answer, a checkout session id and url, is a parameter. The amount the gateway is asked for is returned alongside the payment (`Payments.Created.amount`).
- Exceptions that escape a view, and the error responses the views build, are `Models.Error` values inside a `Result`.
- A transaction that fails leaves the database as it was.
- The Python field `type` is called `kind`, because `type` is a Dafny keyword.

Behaviour of the code that may surprise a reader:

- The success and cancel views only report a result; they never mark a payment PAID.
- `return_book` compares only direct ownership; there is no staff override.
- A missing borrowing in `return_book` is an uncaught `DoesNotExist`, not a 404.
- The due date is the field `extend_return_date`. `borrowings/models.py` is not part of this model. The borrow date is taken to be set to the day of creation.

## Model

| member | source | states |
|---|---|---|
| Borrowings.CheckBookAvailability | borrowings/utils.py:11-14 | returns the "Book is out of stock" message exactly when inventory ≤ 0, and nothing otherwise; the method of the same name in borrowings/views.py:34-37 makes the same decision on the same condition, but returns a 400 Response carrying that message instead of a dict |
| Borrowings.CreateBorrowing | borrowings/utils.py:17-29 | out of stock exactly when inventory ≤ 0, and then nothing changes; otherwise exactly one new active borrowing for that user, book and due date, that book's inventory down by exactly 1 and still ≥ 0, other books and all payments untouched |
| Borrowings.Create | borrowings/views.py:39-57 | an unknown book id is a 404 and changes nothing; for an existing book the view behaves exactly as create_borrowing |
| Borrowings.PaymentTypeOnReturn | borrowings/views.py:76-81 | the payment is a FINE exactly when the return date is after `extend_return_date`, and a PAYMENT otherwise, including a return on the due day |
| Borrowings.ReturnBook | borrowings/views.py:59-100 | a non-owner is refused before the return state is looked at; a returned borrowing is refused; an existing payment of the type the return produces is a duplicate-payment error; every failure leaves the database unchanged; success happens exactly when the owner returns an active borrowing with no payment of that type yet; it sets the return date to today, puts one copy back, appends one PENDING payment carrying the session, charges money_to_pay of that payment (with the corrected fine amount), and answers with the success text, the on-time or overdue message for the payment's type, and a link to the session url; the payment sequence advances by one |
| Borrowings.ParseIsActive | borrowings/views.py:113-117 | `is_active` selects active rows exactly when it lower-cases to "true", returned rows exactly when it lower-cases to "false", and no filter otherwise |
| Borrowings.ListBorrowings | borrowings/views.py:102-118 | the listing is a sub-map of the borrowings; a row is listed exactly when the user is staff or owns it, it matches `user_id` if given, and it matches the `is_active` filter; a non-staff user sees only their own rows, whatever `user_id` they pass |
| Payments.MoneyToPay | payments/models.py:33-48 | defined exactly for PAYMENT, and for FINE with a return date; every other case is the unbound-local error; PAYMENT is (due − borrow) days × fee, FINE is (returned − due) days × fee × 2 |
| Payments.PaymentAmountAsWritten | payments/utils.py:18-35 | as written: yields an amount only for PAYMENT, which agrees with money_to_pay; FINE always fails on the missing `expected_return_date`; any other type is refused |
| Payments.PaymentAmount | payments/utils.py:23-30 | the FINE branch read with `extend_return_date`: yields an amount exactly for PAYMENT or a FINE with a return date; unknown types are refused; every amount it yields equals money_to_pay for the same type |
| Payments.Save | payments/models.py:80-82 | fails with a duplicate-payment error exactly when validate_unique finds another row of the same borrowing and type (a pk of 0 is falsy and excludes no row), and then changes nothing; an unsaved payment is appended under the next primary key and the key sequence advances by one; a saved one replaces its own row and leaves the sequence alone, or is appended under its own key when no row has it |
| Payments.CreatePaymentAndSession | payments/utils.py:15-49 | an unknown type is refused and changes nothing; it succeeds exactly when an amount exists and the borrowing has no payment of that type; it appends one PENDING payment of that type with the session's id and url; the amount requested equals money_to_pay of the new payment |
| Payments.CreateStripeSession | payments/models.py:50-61 | succeeds exactly when money_to_pay is defined and the re-save does not clash; returns the session; sets only the session id and url of that row; a failure changes nothing |
| Payments.OwnPayments | payments/views.py:39-40 | keeps exactly the payments whose borrowing belongs to the user, each as often as the table holds it, in table order (a subsequence of the table), and drops every other row |
| Payments.ListPayments | payments/views.py:36-42 | staff see every payment; anyone else sees exactly the payments whose borrowing is theirs, in table order |
| Payments.HandlePaymentResult | payments/views.py:19-25 | status 200 with the success message exactly when a non-empty session id was given; otherwise 400 with the error message |
| Payments.PaymentSuccess | payments/views.py:96-100 | status 200 exactly when a non-empty session id came with the request, with "Payment was successful!"; otherwise 400 "Session ID not found." |
| Payments.PaymentCancel | payments/views.py:108-115 | status 200 exactly when a non-empty session id came with the request, with the pay-later message; otherwise 400 "Session ID not found." |
| LibraryStore.Store.ValidateUnique | payments/models.py:63-78 | the scan of the payment table answers "no conflict" exactly when no other row has the same borrowing and type, excluding the payment's own pk only when that pk is truthy (not 0) |
| LibraryStore.Store.Save | payments/models.py:80-82 | the new table and result are those of Payments.Save; the invariant is kept when the payment's borrowing exists and its pk, if any, is at least 1 |
| LibraryStore.Store.CreatePaymentAndStripeSession | payments/utils.py:41-47 | the new state and result are those of Payments.CreatePaymentAndSession; the invariant is kept |
| LibraryStore.Store.CreateStripeSession | payments/models.py:57-59 | the row update and result are those of Payments.CreateStripeSession; the invariant is kept |
| LibraryStore.Store.CreateBorrowing | borrowings/utils.py:22-27 | the insert and decrement are those of Borrowings.CreateBorrowing; the invariant is kept |
| LibraryStore.Store.Create | borrowings/views.py:42-53 | the state and result are those of Borrowings.Create; the invariant is kept |
| LibraryStore.Store.ReturnBook | borrowings/views.py:64-88 | the in-place updates are undone when payment creation fails, and the state and result are those of Borrowings.ReturnBook; the invariant is kept |
| Lifecycle.SavePreservesValid | payments/models.py:63-82 | saving a payment whose borrowing exists and whose pk, if any, is at least 1 keeps at most one payment of each type per borrowing, and keeps primary keys unique and at least 1 |
| Lifecycle.ResaveDoesNotConflictWithItself | payments/models.py:70-71 | re-saving a stored payment with the same pk, borrowing and type never conflicts with its own row |
| Lifecycle.CreateStripeSessionOutcome | payments/models.py:50-61 | in a valid database, create_stripe_session fails exactly when money_to_pay does; on success it changes only the session id and url of that row |
| Lifecycle.CreatePaymentPreservesValid | payments/utils.py:41-47 | creating a payment for an existing borrowing keeps the invariant |
| Lifecycle.SecondPaymentOfSameTypeRefused | payments/utils.py:41 | after a payment of a type is created for a borrowing, a second one of that type is refused with the duplicate-payment error and changes nothing |
| Lifecycle.CreateBorrowingPreservesValid | borrowings/utils.py:18-27 | lending keeps the invariant; inventory never goes negative, because of the guard before the decrement |
| Lifecycle.ReturnBookPreservesValid | borrowings/views.py:64-100 | returning keeps the invariant, whether it succeeds or is refused |
| Lifecycle.CreateBorrowingConservesCopies | borrowings/views.py:48-53 | for every book, copies on the shelf plus its active borrowings is unchanged by lending |
| Lifecycle.ReturnBookConservesCopies | borrowings/views.py:67-72 | for every book, copies on the shelf plus its active borrowings is unchanged by a return |
| Lifecycle.CreateThenReturnRestoresInventory | borrowings/tests/test_views.py:68-85 | in a valid database, a user who borrows an available book and returns it succeeds both times (with the corrected fine amount), and every book's inventory ends where it began |
| Lifecycle.SecondReturnRefused | borrowings/views.py:65-100 | after a successful return, a return by the owner is refused as "already returned", a return by anyone else as not theirs, and neither changes anything |
| Lifecycle.ReturnedBorrowingIsFinal | borrowings/views.py:67-69 | a returned borrowing is left unchanged by lending and by any return, so its return date is set at most once |
| Lifecycle.ReturnCharge | borrowings/views.py:76-88 | a return by the due day bills (due − borrow) days × fee as a PAYMENT; a later return bills (returned − due) days × fee × 2 as a FINE, and the fine is never negative |
| Lifecycle.LateReturnExample | payments/utils.py:23-30 | the sample book at 9.99 a day, borrowed on day 0 and due on day 2: 19.98 when returned on day 2; 59.94 as intended when returned on day 5, while the code as written raises |
| Lifecycle.FineAsWrittenNeverPriced | payments/utils.py:23-26 | for every returned borrowing, the FINE branch as written fails while money_to_pay prices it, and the corrected amount equals money_to_pay |
| Borrowings.ReturnBookAsWritten | borrowings/views.py:81-86 | return_book with the amount as written: it succeeds exactly when the corrected return succeeds and the book is back by its due date, and then is that same return; every failure leaves the database unchanged |
| Lifecycle.LateReturnAsWrittenRefused | payments/utils.py:23-26 | as written, a late return by the borrower of an active borrowing is refused with the missing `expected_return_date` error and changes nothing, while the corrected return succeeds exactly when no fine exists yet for the borrowing |
| Lifecycle.ZeroKeyConflictsWithItself | payments/models.py:70-71 | a stored payment whose pk is 0 is not excluded by `if self.pk:`, so validate_unique finds it in conflict with itself |
| Lifecycle.SuccessAndCancelAgree | payments/views.py:91-115 | the success and cancel views give the same status for every session id, and the same 400 response when it is missing |

## Findings

| source | as written | input that shows it | evidently intended | confidence | as-written member | corrected member |
|---|---|---|---|---|---|---|
| payments/utils.py:25 | the FINE branch reads `borrowing.expected_return_date`, a field Borrowing does not have (every other site uses `extend_return_date`) | a book at 9.99 a day, borrowed on day 0, due on day 2, returned on day 5: return_book takes the FINE branch, the attribute lookup raises, and the transaction rolls back the return | fine = (5 − 2) × 9.99 × 2 = 59.94, the amount money_to_pay gives for the same payment | high; not executed | Payments.PaymentAmountAsWritten | Payments.PaymentAmount |

The rest of the model (`Payments.CreatePaymentAndSession`, `Borrowings.ReturnBook`) uses the corrected amount. `Lifecycle.FineAsWrittenNeverPriced` and `Lifecycle.LateReturnExample` exhibit the difference; `Borrowings.ReturnBookAsWritten` is the return as written, and `Lifecycle.LateReturnAsWrittenRefused` shows that it refuses every late return.

## Left out

- Borrowings.ReturnBook / Payments.CreatePaymentAndSession / Borrowings.CreateBorrowing: the model assumes that the payment gateway always answers with a session and that the notification is always enqueued. In the code both calls run inside the atomic block (borrowings/views.py:56, 68-89; payments/utils.py:37-39). An exception from either one, such as the gateway refusing a negative amount, rolls back the return or the loan. The model's return and loan never fail that way.
- The payment gateway call and its line items (payments/stipe_utils.py) are a foreign network call. The session is a parameter. The conversion of the amount to cents disappears because amounts are already in cents.
- The gateway is called before the payment row is inserted. If the insert then fails, the remote session still exists. The model has no state for remote sessions.
- Notifications (the asynchronous message task, the bot sender) are fire-and-forget I/O and are not modelled.
- Transactions are modelled as all-or-nothing sequential steps. Concurrent requests, and races on the last copy, are not modelled.
- URL routing, serializers, `CreateStripeSession.post` URL building, `PaymentDetail`, authentication and permission classes are framework configuration. Only the explicit owner and `is_staff` checks are modelled. `BorrowingSerializer.create` calls `create_borrowing` with its arguments out of order, but the views never use that path.
- Missing or malformed request data (no `extend_return_date`, a non-numeric `user_id`) raise in the framework. These cases are not modelled: `user_id` arrives already parsed, or as None when absent or empty.
- `Payment.money_to_pay` fails for a FINE without a return date, and for any type other than PAYMENT or FINE, because it reads an unbound local. The model returns an error for these cases instead of raising.
- A PAYMENT whose due date precedes its borrow date yields a negative amount. Nothing in the core checks for this, and the model keeps it.
- Borrowings.ParseIsActive: lower-cases ASCII letters only, while `str.lower` also lower-cases other scripts. No non-ASCII character lower-cases to a letter of "true" or "false", so the comparison gives the same answer.
- Payments.Save: saving a payment whose pk matches no row inserts it under that pk and advances the id sequence past it. The source leaves the id sequence to the database.
- Lifecycle.SavePreservesValid: assumes that a payment saved with a pk has one of at least 1. The database's id sequence starts at 1, and the core only re-saves rows it loaded, so a pk of 0 or below never reaches `save`.
- Listing order: the borrowing listing is a sub-map keyed by id, so its order is not modelled. The payment listing keeps table order.
