/** Borrowings: lending a book (which takes one copy off the shelf),
    returning it (which puts the copy back and bills the borrower), and the
    borrowing listing with its ownership and state filters. */
module Borrowings {
  import opened Models
  import Payments

  /** check_book_availability: the out-of-stock message exactly when no copy
      is left, and nothing otherwise. */
  function CheckBookAvailability(book: Book): (r: Option<string>)
    ensures r.Some? <==> book.inventory <= 0
    ensures r.Some? ==> r.value == Message(OutOfStock)
  {
    if book.inventory <= 0 then Some(Message(OutOfStock)) else None
  }

  /** The borrowing a user opens on `today` for a book due back on
      `extendReturnDate`: the borrow date is the day of creation and there is
      no return date yet. */
  function NewBorrowing(user: User, bookId: int, extendReturnDate: int, today: int): Borrowing
  {
    Borrowing(today, extendReturnDate, None, bookId, user.id)
  }

  /** create_borrowing: refuse an unavailable book and change nothing;
      otherwise, in one transaction, insert the borrowing under the next id
      and take one copy of the book off the shelf. The result is the new
      borrowing's id. */
  function CreateBorrowing(db: Db, user: User, bookId: int, extendReturnDate: int, today: int)
    : (r: (Db, Result<int>))
    requires bookId in db.books
    ensures r.1.Err? <==> db.books[bookId].inventory <= 0
    ensures r.1.Err? ==> r.1.error == OutOfStock && r.0 == db
    ensures r.1.Ok? ==>
      var id := r.1.value;
      var book := db.books[bookId];
      && id == db.nextBorrowingId
      && r.0.borrowings == db.borrowings[id := NewBorrowing(user, bookId, extendReturnDate, today)]
      && r.0.books == db.books[bookId := book.(inventory := book.inventory - 1)]
      && r.0.books[bookId].inventory >= 0
      && r.0.payments == db.payments
      && r.0.nextBorrowingId == id + 1 && r.0.nextPaymentId == db.nextPaymentId
  {
    var book := db.books[bookId];
    if CheckBookAvailability(book).Some? then
      (db, Err(OutOfStock))
    else
      var id := db.nextBorrowingId;
      var after := db.(
        borrowings := db.borrowings[id := NewBorrowing(user, bookId, extendReturnDate, today)],
        books := db.books[bookId := book.(inventory := book.inventory - 1)],
        nextBorrowingId := id + 1);
      (after, Ok(id))
  }

  /** BorrowingViewSet.create: a book id that names no book is answered with
      404 and changes nothing; for an existing book the view takes the same
      steps as create_borrowing. */
  function Create(db: Db, user: User, bookId: int, extendReturnDate: int, today: int)
    : (r: (Db, Result<int>))
    ensures bookId !in db.books ==> r == (db, Err(BookNotFound))
    ensures bookId in db.books ==> r == CreateBorrowing(db, user, bookId, extendReturnDate, today)
  {
    if bookId !in db.books then (db, Err(BookNotFound))
    else CreateBorrowing(db, user, bookId, extendReturnDate, today)
  }

  /** The payment type a return produces: a fine exactly when the book comes
      back after its due date; a return on the due day is on time. */
  function PaymentTypeOnReturn(actualReturnDate: int, extendReturnDate: int): (kind: string)
    ensures kind == FINE <==> actualReturnDate > extendReturnDate
    ensures kind == PAYMENT <==> actualReturnDate <= extendReturnDate
  {
    if actualReturnDate > extendReturnDate then FINE else PAYMENT
  }

  function ReturnMessage(kind: string): string
  {
    if kind == FINE then "Your borrowing was overdue. You`ll have to pay fine."
    else "Thank you for the timely return of the book"
  }

  /** The body of a successful return, with the payment it created and the
      amount handed to the payment gateway. */
  datatype Receipt = Receipt(success: string, message: string, link: string, payment: Payment, amount: int)

  /** BorrowingViewSet.return_book, for a return on `today`; `session` is the
      gateway's answer to the session request. A missing borrowing raises; a
      user other than the borrower is refused before anything else is looked
      at; a returned borrowing is refused. Otherwise, in one transaction, the
      return date is set, the copy goes back on the shelf and a PENDING
      payment (a fine when late) is created. If creating the payment fails the
      transaction rolls back and nothing changes. */
  function ReturnBook(db: Db, user: User, borrowingId: int, today: int, session: Session)
    : (r: (Db, Result<Receipt>))
    requires borrowingId in db.borrowings ==> db.borrowings[borrowingId].bookId in db.books
    ensures r.1.Err? ==> r.0 == db
    ensures borrowingId !in db.borrowings ==> r.1 == Err(BorrowingDoesNotExist)
    ensures borrowingId in db.borrowings && db.borrowings[borrowingId].userId != user.id ==>
      r.1 == Err(NotOwner)
    ensures borrowingId in db.borrowings && db.borrowings[borrowingId].userId == user.id
            && !db.borrowings[borrowingId].IsActive() ==>
      r.1 == Err(AlreadyReturned)
    ensures borrowingId in db.borrowings && db.borrowings[borrowingId].userId == user.id
            && db.borrowings[borrowingId].IsActive()
            && Payments.HasPayment(db.payments, borrowingId,
                 PaymentTypeOnReturn(today, db.borrowings[borrowingId].extendReturnDate)) ==>
      r.1 == Err(DuplicatePayment(PaymentTypeOnReturn(today, db.borrowings[borrowingId].extendReturnDate)))
    ensures r.1.Ok? <==>
      && borrowingId in db.borrowings
      && db.borrowings[borrowingId].userId == user.id
      && db.borrowings[borrowingId].IsActive()
      && !Payments.HasPayment(db.payments, borrowingId,
           PaymentTypeOnReturn(today, db.borrowings[borrowingId].extendReturnDate))
    ensures r.1.Ok? ==>
      var b := db.borrowings[borrowingId];
      var book := db.books[b.bookId];
      var returned := b.(actualReturnDate := Some(today));
      var p := r.1.value.payment;
      && r.0.borrowings == db.borrowings[borrowingId := returned]
      && r.0.books == db.books[b.bookId := book.(inventory := book.inventory + 1)]
      && r.0.payments == db.payments + [p]
      && r.0.nextBorrowingId == db.nextBorrowingId && r.0.nextPaymentId == db.nextPaymentId + 1
      && p == Payment(Some(db.nextPaymentId), Pending, PaymentTypeOnReturn(today, b.extendReturnDate),
                      borrowingId, Some(session.url), Some(session.id))
      && Payments.MoneyToPay(p.kind, returned, book.dailyFee) == Ok(r.1.value.amount)
      && r.1.value.success == "The book was successfully returned."
      && r.1.value.message == ReturnMessage(p.kind)
      && r.1.value.link == "Pay here: " + session.url
  {
    if borrowingId !in db.borrowings then (db, Err(BorrowingDoesNotExist))
    else
      var b := db.borrowings[borrowingId];
      if b.userId != user.id then (db, Err(NotOwner))
      else if !b.IsActive() then (db, Err(AlreadyReturned))
      else
        var book := db.books[b.bookId];
        var returned := db.(
          borrowings := db.borrowings[borrowingId := b.(actualReturnDate := Some(today))],
          books := db.books[b.bookId := book.(inventory := book.inventory + 1)]);
        var kind := PaymentTypeOnReturn(today, b.extendReturnDate);
        var (after, created) := Payments.CreatePaymentAndSession(returned, borrowingId, kind, session);
        match created
        case Err(e) => (db, Err(e))
        case Ok(c) =>
          (after, Ok(Receipt("The book was successfully returned.", ReturnMessage(kind),
                             "Pay here: " + session.url, c.payment, c.amount)))
  }

  /** BorrowingViewSet.return_book as the code is written: the amount of
      create_payment_and_stripe_session is PaymentAmountAsWritten, which raises
      on every fine. Where it yields an amount it agrees with PaymentAmount,
      so the return then goes exactly as ReturnBook; where it raises, the
      transaction rolls back and the return is refused. */
  function ReturnBookAsWritten(db: Db, user: User, borrowingId: int, today: int, session: Session)
    : (r: (Db, Result<Receipt>))
    requires borrowingId in db.borrowings ==> db.borrowings[borrowingId].bookId in db.books
    ensures r.1.Err? ==> r.0 == db
    ensures r.1.Ok? <==>
      ReturnBook(db, user, borrowingId, today, session).1.Ok?
      && today <= db.borrowings[borrowingId].extendReturnDate
    ensures r.1.Ok? ==> r == ReturnBook(db, user, borrowingId, today, session)
  {
    if borrowingId !in db.borrowings then ReturnBook(db, user, borrowingId, today, session)
    else
      var b := db.borrowings[borrowingId];
      if b.userId != user.id || !b.IsActive() then ReturnBook(db, user, borrowingId, today, session)
      else
        var kind := PaymentTypeOnReturn(today, b.extendReturnDate);
        var returned := b.(actualReturnDate := Some(today));
        match Payments.PaymentAmountAsWritten(kind, returned, db.books[b.bookId].dailyFee)
        case Err(e) => (db, Err(e))
        case Ok(_) => ReturnBook(db, user, borrowingId, today, session)
  }

  /** ASCII lower-casing, as str.lower does on ASCII text. */
  function LowerChar(c: char): char
  {
    if 'A' <= c <= 'Z' then (c as int + 32) as char else c
  }

  function Lower(s: string): (r: string)
    ensures |r| == |s|
    ensures forall i :: 0 <= i < |s| ==> r[i] == LowerChar(s[i])
  {
    seq(|s|, i requires 0 <= i < |s| => LowerChar(s[i]))
  }

  /** The effect of the `is_active` query parameter. */
  datatype StateFilter = AnyState | OnlyActive | OnlyReturned

  /** An absent or empty `is_active` applies no filter; "true" and "false" in
      any case select active and returned borrowings; anything else applies
      no filter. */
  function ParseIsActive(isActive: Option<string>): (f: StateFilter)
    ensures f == OnlyActive <==> isActive.Some? && Lower(isActive.value) == "true"
    ensures f == OnlyReturned <==> isActive.Some? && Lower(isActive.value) == "false"
  {
    if isActive.None? || isActive.value == "" then AnyState
    else if Lower(isActive.value) == "true" then OnlyActive
    else if Lower(isActive.value) == "false" then OnlyReturned
    else AnyState
  }

  function OfUser(bs: map<int, Borrowing>, userId: int): map<int, Borrowing>
  {
    map id | id in bs && bs[id].userId == userId :: bs[id]
  }

  function InState(bs: map<int, Borrowing>, f: StateFilter): map<int, Borrowing>
  {
    match f
    case AnyState => bs
    case OnlyActive => map id | id in bs && bs[id].IsActive() :: bs[id]
    case OnlyReturned => map id | id in bs && !bs[id].IsActive() :: bs[id]
  }

  /** Whether one borrowing appears in the listing, stated as one condition. */
  predicate Listed(b: Borrowing, user: User, userIdFilter: Option<int>, f: StateFilter)
  {
    && (user.isStaff || b.userId == user.id)
    && (userIdFilter.None? || b.userId == userIdFilter.value)
    && (f == OnlyActive ==> b.IsActive())
    && (f == OnlyReturned ==> !b.IsActive())
  }

  /** BorrowingViewSet.get_queryset, narrowed step by step as the view does:
      non-staff users to their own rows, then by the `user_id` parameter
      (None when absent or empty), then by `is_active`. Non-staff users see
      only their own rows whatever `user_id` they pass. */
  function ListBorrowings(bs: map<int, Borrowing>, user: User, userIdFilter: Option<int>,
                          isActive: Option<string>): (r: map<int, Borrowing>)
    ensures forall id :: id in r ==> id in bs && r[id] == bs[id]
    ensures !user.isStaff ==> forall id :: id in r ==> r[id].userId == user.id
    ensures forall id :: id in r <==>
      id in bs && Listed(bs[id], user, userIdFilter, ParseIsActive(isActive))
  {
    var own := if !user.isStaff then OfUser(bs, user.id) else bs;
    var byUser := if userIdFilter.Some? then OfUser(own, userIdFilter.value) else own;
    InState(byUser, ParseIsActive(isActive))
  }
}
