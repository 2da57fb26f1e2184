/** Properties of the borrowing and payment lifecycle that relate several
    operations, or one operation and the database invariant. */
module Lifecycle {
  import opened Models
  import Payments
  import Borrowings

  /** Saving a payment whose borrowing exists keeps the database invariant;
      in particular the uniqueness rule of validate_unique is what keeps at
      most one payment of each type per borrowing. */
  lemma SavePreservesValid(db: Db, p: Payment)
    requires Valid(db) && p.borrowingId in db.borrowings
    requires p.pk.Some? ==> p.pk.value >= 1
    ensures Valid(Payments.Save(db, p).0)
  {
    var (after, r) := Payments.Save(db, p);
    if r.Ok? {
      assert forall j :: 0 <= j < |db.payments| ==>
        !(db.payments[j].borrowingId == p.borrowingId && db.payments[j].kind == p.kind)
        || (p.pk.Some? && db.payments[j].pk == p.pk);
      match p.pk
      case None =>
        AppendKeepsValid(db, r.value, db.nextPaymentId + 1);
      case Some(k) =>
        match Payments.IndexOfPk(db.payments, k)
        case Some(i) =>
          ReplaceKeepsValid(db, i, p);
        case None =>
          AppendKeepsValid(db, p, after.nextPaymentId);
    }
  }

  /** Appending a row under a key no row has, for an existing borrowing and
      a type that borrowing has no payment of yet, keeps the invariant. */
  lemma AppendKeepsValid(db: Db, q: Payment, next: int)
    requires Valid(db) && q.borrowingId in db.borrowings
    requires q.pk.Some? && 1 <= q.pk.value < next && db.nextPaymentId <= next
    requires forall j :: 0 <= j < |db.payments| ==> db.payments[j].pk != q.pk
    requires forall j :: 0 <= j < |db.payments| ==>
      !(db.payments[j].borrowingId == q.borrowingId && db.payments[j].kind == q.kind)
    ensures Valid(db.(payments := db.payments + [q], nextPaymentId := next))
  {
    var ps := db.payments + [q];
    assert forall j :: 0 <= j < |db.payments| ==> ps[j] == db.payments[j];
    assert KeysValid(ps, next);
    assert OnePerType(ps);
  }

  /** Overwriting row `i` with a row of the same key, for an existing
      borrowing and a type no other row of that borrowing has, keeps the
      invariant. */
  lemma ReplaceKeepsValid(db: Db, i: nat, q: Payment)
    requires Valid(db) && q.borrowingId in db.borrowings
    requires i < |db.payments| && db.payments[i].pk == q.pk
    requires forall j :: 0 <= j < |db.payments| && j != i ==>
      !(db.payments[j].borrowingId == q.borrowingId && db.payments[j].kind == q.kind)
    ensures Valid(db.(payments := db.payments[i := q]))
  {
    var ps := db.payments[i := q];
    assert KeysValid(ps, db.nextPaymentId);
    assert OnePerType(ps);
  }

  /** `if self.pk:` treats a key of 0 as no key, so a stored row whose key is
      0 is not excluded and clashes with itself: re-saving it is refused. */
  lemma ZeroKeyConflictsWithItself(ps: seq<Payment>, i: nat)
    requires i < |ps| && ps[i].pk == Some(0)
    ensures Payments.Conflicts(ps, ps[i])
  {
    assert Payments.Clash(ps[i], ps[i]);
  }

  /** A saved payment re-saved with only its session fields changed does
      not conflict with itself, because its own row is excluded. */
  lemma ResaveDoesNotConflictWithItself(ps: seq<Payment>, next: int, i: nat, p: Payment)
    requires KeysValid(ps, next) && OnePerType(ps)
    requires i < |ps|
    requires p.pk == ps[i].pk && p.borrowingId == ps[i].borrowingId && p.kind == ps[i].kind
    ensures !Payments.Conflicts(ps, p)
  {
  }

  /** In a valid database, Payment.create_stripe_session fails exactly when
      money_to_pay does; when it succeeds it records the session's id and url
      on that row and changes nothing else. */
  lemma CreateStripeSessionOutcome(db: Db, i: nat, session: Session)
    requires Valid(db) && i < |db.payments|
    ensures db.payments[i].pk.Some? && db.payments[i].borrowingId in db.borrowings
    ensures var p := db.payments[i];
      var b := db.borrowings[p.borrowingId];
      var r := Payments.CreateStripeSession(db, i, session);
      && (r.1.Ok? <==> Payments.MoneyToPay(p.kind, b, db.books[b.bookId].dailyFee).Ok?)
      && (r.1.Ok? ==> r.0 == db.(payments := db.payments[i := p.(sessionId := Some(session.id),
                                                                  sessionUrl := Some(session.url))]))
      && Valid(r.0)
  {
  }

  /** Creating a payment for an existing borrowing keeps the invariant. */
  lemma CreatePaymentPreservesValid(db: Db, borrowingId: int, kind: string, session: Session)
    requires Valid(db) && borrowingId in db.borrowings
    ensures Valid(Payments.CreatePaymentAndSession(db, borrowingId, kind, session).0)
  {
  }

  /** A second payment of the same type for the same borrowing is refused,
      whatever session it would carry, and changes nothing. */
  lemma SecondPaymentOfSameTypeRefused(db: Db, borrowingId: int, kind: string, s1: Session, s2: Session)
    requires borrowingId in db.borrowings && db.borrowings[borrowingId].bookId in db.books
    requires Payments.CreatePaymentAndSession(db, borrowingId, kind, s1).1.Ok?
    ensures var after := Payments.CreatePaymentAndSession(db, borrowingId, kind, s1).0;
      Payments.CreatePaymentAndSession(after, borrowingId, kind, s2) == (after, Err(DuplicatePayment(kind)))
  {
  }

  /** Lending a book keeps the invariant: the guard keeps inventory at zero
      or above, and the new borrowing's id is fresh. */
  lemma CreateBorrowingPreservesValid(db: Db, user: User, bookId: int, due: int, today: int)
    requires Valid(db) && bookId in db.books
    ensures Valid(Borrowings.CreateBorrowing(db, user, bookId, due, today).0)
  {
  }

  /** Returning a book keeps the invariant, whether the return succeeds or
      is refused. */
  lemma ReturnBookPreservesValid(db: Db, user: User, borrowingId: int, today: int, session: Session)
    requires Valid(db)
    ensures Valid(Borrowings.ReturnBook(db, user, borrowingId, today, session).0)
  {
    if borrowingId in db.borrowings {
      var b := db.borrowings[borrowingId];
      if b.userId == user.id && b.IsActive() {
        var book := db.books[b.bookId];
        var returned := db.(
          borrowings := db.borrowings[borrowingId := b.(actualReturnDate := Some(today))],
          books := db.books[b.bookId := book.(inventory := book.inventory + 1)]);
        assert returned.payments == db.payments && returned.nextPaymentId == db.nextPaymentId;
        assert returned.borrowings.Keys == db.borrowings.Keys;
        assert forall id :: id in returned.borrowings ==> returned.borrowings[id].bookId == db.borrowings[id].bookId;
        assert Valid(returned);
        CreatePaymentPreservesValid(returned, borrowingId,
          Borrowings.PaymentTypeOnReturn(today, b.extendReturnDate), session);
      }
    }
  }

  /** The borrowings of one book that are still out. */
  function ActiveOf(bs: map<int, Borrowing>, bookId: int): set<int>
  {
    set id | id in bs && bs[id].bookId == bookId && bs[id].IsActive()
  }

  /** Lending conserves copies: for every book, copies on the shelf plus
      copies out on active borrowings is the same before and after. */
  lemma CreateBorrowingConservesCopies(db: Db, user: User, bookId: int, due: int, today: int, other: int)
    requires Valid(db) && bookId in db.books && other in db.books
    ensures var after := Borrowings.CreateBorrowing(db, user, bookId, due, today).0;
      other in after.books &&
      after.books[other].inventory + |ActiveOf(after.borrowings, other)|
        == db.books[other].inventory + |ActiveOf(db.borrowings, other)|
  {
    var (after, r) := Borrowings.CreateBorrowing(db, user, bookId, due, today);
    if r.Ok? {
      var id := r.value;
      assert id !in db.borrowings;
      if other == bookId {
        assert ActiveOf(after.borrowings, other) == ActiveOf(db.borrowings, other) + {id};
      } else {
        assert ActiveOf(after.borrowings, other) == ActiveOf(db.borrowings, other);
      }
    }
  }

  /** Returning conserves copies in the same sense. */
  lemma ReturnBookConservesCopies(db: Db, user: User, borrowingId: int, today: int, session: Session, other: int)
    requires Valid(db) && other in db.books
    ensures var after := Borrowings.ReturnBook(db, user, borrowingId, today, session).0;
      other in after.books &&
      after.books[other].inventory + |ActiveOf(after.borrowings, other)|
        == db.books[other].inventory + |ActiveOf(db.borrowings, other)|
  {
    var (after, r) := Borrowings.ReturnBook(db, user, borrowingId, today, session);
    if r.Ok? {
      var b := db.borrowings[borrowingId];
      if other == b.bookId {
        assert ActiveOf(db.borrowings, other) == ActiveOf(after.borrowings, other) + {borrowingId};
      } else {
        assert ActiveOf(after.borrowings, other) == ActiveOf(db.borrowings, other);
      }
    }
  }

  /** A user who borrows an available book and returns it, on any later day,
      succeeds both times and leaves the book's inventory where it was. */
  lemma CreateThenReturnRestoresInventory(db: Db, user: User, bookId: int, due: int, today: int,
                                          returnDay: int, session: Session)
    requires Valid(db) && bookId in db.books && db.books[bookId].inventory > 0
    ensures var (db1, r1) := Borrowings.CreateBorrowing(db, user, bookId, due, today);
      && r1.Ok?
      && var (db2, r2) := Borrowings.ReturnBook(db1, user, r1.value, returnDay, session);
      && r2.Ok?
      && db2.books == db.books
  {
  }

  /** A borrowing is returned at most once: after a successful return, any
      further return of it is refused and changes nothing. */
  lemma SecondReturnRefused(db: Db, user: User, borrowingId: int, today: int, session: Session,
                            anyone: User, later: int, session2: Session)
    requires borrowingId in db.borrowings ==> db.borrowings[borrowingId].bookId in db.books
    requires Borrowings.ReturnBook(db, user, borrowingId, today, session).1.Ok?
    ensures var db1 := Borrowings.ReturnBook(db, user, borrowingId, today, session).0;
      var (db2, r2) := Borrowings.ReturnBook(db1, anyone, borrowingId, later, session2);
      && db2 == db1
      && r2 == (if anyone.id == user.id then Err(AlreadyReturned) else Err(NotOwner))
  {
  }

  /** A returned borrowing is never touched again: neither lending (in a
      valid database) nor any return changes it, so its return date is set
      at most once. */
  lemma ReturnedBorrowingIsFinal(db: Db, id: int, user: User, bookId: int, due: int, today: int,
                                 borrowingId: int, session: Session)
    requires Valid(db) && id in db.borrowings && !db.borrowings[id].IsActive()
    ensures bookId in db.books ==>
      Borrowings.CreateBorrowing(db, user, bookId, due, today).0.borrowings[id] == db.borrowings[id]
    ensures Borrowings.ReturnBook(db, user, borrowingId, today, session).0.borrowings[id] == db.borrowings[id]
  {
  }

  /** What a successful return bills: the planned loan at the daily fee when
      the book is back by its due date (the due day included), otherwise a
      fine of twice the daily fee per day late, which is never negative. */
  lemma ReturnCharge(db: Db, user: User, borrowingId: int, today: int, session: Session)
    requires borrowingId in db.borrowings ==> db.borrowings[borrowingId].bookId in db.books
    requires Borrowings.ReturnBook(db, user, borrowingId, today, session).1.Ok?
    ensures var b := db.borrowings[borrowingId];
      var fee := db.books[b.bookId].dailyFee;
      var receipt := Borrowings.ReturnBook(db, user, borrowingId, today, session).1.value;
      && (today <= b.extendReturnDate ==>
            receipt.payment.kind == PAYMENT && receipt.amount == (b.extendReturnDate - b.borrowDate) * fee)
      && (today > b.extendReturnDate ==>
            receipt.payment.kind == FINE && receipt.amount == (today - b.extendReturnDate) * fee * FINE_MULTIPLIER
            && receipt.amount >= 0)
  {
  }

  /** On the source's sample book (9.99 a day, borrowed on day 0, due on day
      2): returned on day 2 the fee is 19.98; returned on day 5 the fine is
      59.94 as intended, while the code as written raises instead. */
  lemma LateReturnExample()
    ensures var b := Borrowing(0, 2, Some(2), 1, 1);
      Payments.MoneyToPay(PAYMENT, b, 999) == Ok(1998)
    ensures var b := Borrowing(0, 2, Some(5), 1, 1);
      && Payments.PaymentAmount(FINE, b, 999) == Ok(5994)
      && Payments.MoneyToPay(FINE, b, 999) == Ok(5994)
      && Payments.PaymentAmountAsWritten(FINE, b, 999) == Err(AttributeMissing("expected_return_date"))
  {
  }

  /** As written, a late return by the borrower is always refused with the
      AttributeError and changes nothing, while the corrected return goes
      through whenever no fine exists yet for the borrowing. */
  lemma LateReturnAsWrittenRefused(db: Db, user: User, borrowingId: int, today: int, session: Session)
    requires borrowingId in db.borrowings && db.borrowings[borrowingId].bookId in db.books
    requires db.borrowings[borrowingId].userId == user.id && db.borrowings[borrowingId].IsActive()
    requires today > db.borrowings[borrowingId].extendReturnDate
    ensures Borrowings.ReturnBookAsWritten(db, user, borrowingId, today, session)
      == (db, Err(AttributeMissing("expected_return_date")))
    ensures Borrowings.ReturnBook(db, user, borrowingId, today, session).1.Ok?
      <==> !Payments.HasPayment(db.payments, borrowingId, FINE)
  {
  }

  /** As written, every fine fails to be created even though money_to_pay
      would price it; the corrected amount agrees with money_to_pay. */
  lemma FineAsWrittenNeverPriced(b: Borrowing, fee: nat)
    requires b.actualReturnDate.Some?
    ensures Payments.PaymentAmountAsWritten(FINE, b, fee).Err?
    ensures Payments.MoneyToPay(FINE, b, fee).Ok?
    ensures Payments.PaymentAmount(FINE, b, fee) == Payments.MoneyToPay(FINE, b, fee)
  {
  }

  /** PaymentSuccess and PaymentCancel apply one rule and differ only in the
      text of a success. */
  lemma SuccessAndCancelAgree(sessionId: Option<string>)
    ensures Payments.PaymentSuccess(sessionId).status == Payments.PaymentCancel(sessionId).status
    ensures Payments.PaymentSuccess(sessionId).status != 200 ==>
      Payments.PaymentSuccess(sessionId) == Payments.PaymentCancel(sessionId)
  {
  }
}
