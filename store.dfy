/** The database as one mutable object. Each method performs one request of
    the service in place (one transaction) and is proved to leave the store in
    the state, with the result, that the matching function of Borrowings or
    Payments describes. */
module LibraryStore {
  import opened Models
  import Payments
  import Borrowings
  import Lifecycle

  class Store {
    var books: map<int, Book>
    var borrowings: map<int, Borrowing>
    var payments: seq<Payment>
    var nextBorrowingId: int
    var nextPaymentId: int

    /** The store's contents as a value. */
    function State(): Db
      reads this
    {
      Db(books, borrowings, payments, nextBorrowingId, nextPaymentId)
    }

    /** The database invariant: no book below zero copies, fresh ids, foreign
        keys that resolve, one payment of each type per borrowing. */
    predicate Valid()
      reads this
    {
      Models.Valid(State())
    }

    /** A store holding the given books and nothing else. */
    constructor (initial: map<int, Book>)
      ensures State() == Db(initial, map[], [], 1, 1)
      ensures (forall id :: id in initial ==> initial[id].inventory >= 0) ==> Valid()
    {
      books := initial;
      borrowings := map[];
      payments := [];
      nextBorrowingId := 1;
      nextPaymentId := 1;
    }

    /** Payment.validate_unique: scan the payment table for a row of the same
        borrowing and type other than `p`'s own; `ok` is false when there is
        one (the source raises ValidationError). */
    method ValidateUnique(p: Payment) returns (ok: bool)
      ensures ok <==> !Payments.Conflicts(payments, p)
    {
      var i := 0;
      while i < |payments|
        invariant 0 <= i <= |payments|
        invariant forall j :: 0 <= j < i ==> !Payments.Clash(payments[j], p)
      {
        if Payments.Clash(payments[i], p) {
          return false;
        }
        i := i + 1;
      }
      return true;
    }

    /** The position of the row with primary key `k`, if any. */
    method FindPayment(k: int) returns (r: Option<nat>)
      ensures r.Some? ==> r.value < |payments| && payments[r.value].pk == Some(k)
      ensures r.None? ==> forall j :: 0 <= j < |payments| ==> payments[j].pk != Some(k)
      ensures r == Payments.IndexOfPk(payments, k)
    {
      var i := 0;
      while i < |payments|
        invariant 0 <= i <= |payments|
        invariant forall j :: 0 <= j < i ==> payments[j].pk != Some(k)
      {
        if payments[i].pk == Some(k) {
          return Some(i);
        }
        i := i + 1;
      }
      return None;
    }

    /** Payment.save. */
    method Save(p: Payment) returns (r: Result<Payment>)
      modifies this
      ensures (State(), r) == Payments.Save(old(State()), p)
      ensures old(Valid()) && p.borrowingId in old(borrowings) && (p.pk.Some? ==> p.pk.value >= 1) ==> Valid()
    {
      if Valid() && p.borrowingId in borrowings && (p.pk.Some? ==> p.pk.value >= 1) {
        Lifecycle.SavePreservesValid(State(), p);
      }
      var ok := ValidateUnique(p);
      if !ok {
        return Err(DuplicatePayment(p.kind));
      }
      if p.pk.None? {
        var stored := p.(pk := Some(nextPaymentId));
        payments := payments + [stored];
        nextPaymentId := nextPaymentId + 1;
        return Ok(stored);
      }
      var k := p.pk.value;
      var at := FindPayment(k);
      if at.Some? {
        payments := payments[at.value := p];
      } else {
        payments := payments + [p];
        if k + 1 > nextPaymentId {
          nextPaymentId := k + 1;
        }
      }
      r := Ok(p);
    }

    /** create_payment_and_stripe_session. */
    method CreatePaymentAndStripeSession(borrowingId: int, kind: string, session: Session)
      returns (r: Result<Payments.Created>)
      requires borrowingId in borrowings && borrowings[borrowingId].bookId in books
      modifies this
      ensures (State(), r) == Payments.CreatePaymentAndSession(old(State()), borrowingId, kind, session)
      ensures old(Valid()) ==> Valid()
    {
      if Valid() {
        Lifecycle.CreatePaymentPreservesValid(State(), borrowingId, kind, session);
      }
      var b := borrowings[borrowingId];
      var amount := Payments.PaymentAmount(kind, b, books[b.bookId].dailyFee);
      if amount.Err? {
        return Err(amount.error);
      }
      var saved := Save(Payment(None, Pending, kind, borrowingId, Some(session.url), Some(session.id)));
      if saved.Err? {
        return Err(saved.error);
      }
      r := Ok(Payments.Created(saved.value, amount.value));
    }

    /** Payment.create_stripe_session on the row at position `i`. */
    method CreateStripeSession(i: nat, session: Session) returns (r: Result<Session>)
      requires i < |payments| && payments[i].pk.Some?
      requires payments[i].borrowingId in borrowings
      requires borrowings[payments[i].borrowingId].bookId in books
      modifies this
      ensures (State(), r) == Payments.CreateStripeSession(old(State()), i, session)
      ensures old(Valid()) ==> Valid()
    {
      if Valid() {
        Lifecycle.CreateStripeSessionOutcome(State(), i, session);
      }
      var p := payments[i];
      var b := borrowings[p.borrowingId];
      var amount := Payments.MoneyToPay(p.kind, b, books[b.bookId].dailyFee);
      if amount.Err? {
        return Err(amount.error);
      }
      var saved := Save(p.(sessionId := Some(session.id), sessionUrl := Some(session.url)));
      if saved.Err? {
        return Err(saved.error);
      }
      r := Ok(session);
    }

    /** create_borrowing. */
    method CreateBorrowing(user: User, bookId: int, extendReturnDate: int, today: int)
      returns (r: Result<int>)
      requires bookId in books
      modifies this
      ensures (State(), r) == Borrowings.CreateBorrowing(old(State()), user, bookId, extendReturnDate, today)
      ensures old(Valid()) ==> Valid()
    {
      if Valid() {
        Lifecycle.CreateBorrowingPreservesValid(State(), user, bookId, extendReturnDate, today);
      }
      if Borrowings.CheckBookAvailability(books[bookId]).Some? {
        return Err(OutOfStock);
      }
      var id := nextBorrowingId;
      borrowings := borrowings[id := Borrowings.NewBorrowing(user, bookId, extendReturnDate, today)];
      nextBorrowingId := id + 1;
      var book := books[bookId];
      books := books[bookId := book.(inventory := book.inventory - 1)];
      r := Ok(id);
    }

    /** BorrowingViewSet.create. */
    method Create(user: User, bookId: int, extendReturnDate: int, today: int) returns (r: Result<int>)
      modifies this
      ensures (State(), r) == Borrowings.Create(old(State()), user, bookId, extendReturnDate, today)
      ensures old(Valid()) ==> Valid()
    {
      if bookId !in books {
        return Err(BookNotFound);
      }
      r := CreateBorrowing(user, bookId, extendReturnDate, today);
    }

    /** BorrowingViewSet.return_book. The updates are made in place and undone
        when creating the payment fails, as the transaction's rollback does. */
    method ReturnBook(user: User, borrowingId: int, today: int, session: Session)
      returns (r: Result<Borrowings.Receipt>)
      requires borrowingId in borrowings ==> borrowings[borrowingId].bookId in books
      modifies this
      ensures (State(), r) == Borrowings.ReturnBook(old(State()), user, borrowingId, today, session)
      ensures old(Valid()) ==> Valid()
    {
      if Valid() {
        Lifecycle.ReturnBookPreservesValid(State(), user, borrowingId, today, session);
      }
      if borrowingId !in borrowings {
        return Err(BorrowingDoesNotExist);
      }
      var b := borrowings[borrowingId];
      if b.userId != user.id {
        return Err(NotOwner);
      }
      if !b.IsActive() {
        return Err(AlreadyReturned);
      }
      var savedBooks, savedBorrowings := books, borrowings;
      borrowings := borrowings[borrowingId := b.(actualReturnDate := Some(today))];
      var book := books[b.bookId];
      books := books[b.bookId := book.(inventory := book.inventory + 1)];
      var kind := Borrowings.PaymentTypeOnReturn(today, b.extendReturnDate);
      var created := CreatePaymentAndStripeSession(borrowingId, kind, session);
      if created.Err? {
        books, borrowings := savedBooks, savedBorrowings;
        return Err(created.error);
      }
      r := Ok(Borrowings.Receipt("The book was successfully returned.", Borrowings.ReturnMessage(kind),
                                 "Pay here: " + session.url, created.value.payment, created.value.amount));
    }
  }
}
