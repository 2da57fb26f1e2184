/** Payments: the amount owed for a borrowing, the uniqueness rule that guards
    the payment table, the creation of a PENDING payment with its checkout
    session, and the read-only views over payments. */
module Payments {
  import opened Models

  /** Payment.money_to_pay: the rental fee for the planned loan period, or
      the fine for the days between the due date and the return, at twice
      the daily fee. The property reads a local that only the FINE branch
      with a return date assigns; every other case raises. */
  function MoneyToPay(kind: string, b: Borrowing, dailyFee: nat): (r: Result<int>)
    ensures r.Ok? <==> kind == PAYMENT || (kind == FINE && b.actualReturnDate.Some?)
    ensures r.Err? ==> r.error == UnboundLocal("day_overdue")
    ensures kind == PAYMENT ==> r.value == (b.extendReturnDate - b.borrowDate) * dailyFee
    ensures kind == FINE && b.actualReturnDate.Some? ==>
      r.value == (b.actualReturnDate.value - b.extendReturnDate) * dailyFee * FINE_MULTIPLIER
  {
    if kind == PAYMENT then
      Ok((b.extendReturnDate - b.borrowDate) * dailyFee)
    else if kind == FINE && b.actualReturnDate.Some? then
      Ok((b.actualReturnDate.value - b.extendReturnDate) * dailyFee * FINE_MULTIPLIER)
    else
      Err(UnboundLocal("day_overdue"))
  }

  /** The amount create_payment_and_stripe_session computes, as the code is
      written: its FINE branch reads `expected_return_date`, a field a
      Borrowing does not have, so that branch always raises. */
  function PaymentAmountAsWritten(kind: string, b: Borrowing, dailyFee: nat): (r: Result<int>)
    ensures r.Ok? <==> kind == PAYMENT
    ensures kind == FINE ==> r == Err(AttributeMissing("expected_return_date"))
    ensures kind != PAYMENT && kind != FINE ==> r == Err(InvalidPaymentType)
    ensures r.Ok? ==> r == MoneyToPay(kind, b, dailyFee)
  {
    if kind == PAYMENT then
      Ok((b.extendReturnDate - b.borrowDate) * dailyFee)
    else if kind == FINE then
      Err(AttributeMissing("expected_return_date"))
    else
      Err(InvalidPaymentType)
  }

  /** The amount create_payment_and_stripe_session evidently means to compute:
      the FINE branch reads the due date `extend_return_date`, as every other
      site does. Whenever it yields an amount, that amount is what
      money_to_pay reports for a payment of the same type. */
  function PaymentAmount(kind: string, b: Borrowing, dailyFee: nat): (r: Result<int>)
    ensures r.Ok? <==> kind == PAYMENT || (kind == FINE && b.actualReturnDate.Some?)
    ensures kind != PAYMENT && kind != FINE ==> r == Err(InvalidPaymentType)
    ensures kind == FINE && b.actualReturnDate.None? ==> r == Err(NoneOperand)
    ensures r.Ok? ==> r == MoneyToPay(kind, b, dailyFee)
  {
    if kind == PAYMENT then
      Ok((b.extendReturnDate - b.borrowDate) * dailyFee)
    else if kind == FINE then
      if b.actualReturnDate.None? then Err(NoneOperand)
      else Ok((b.actualReturnDate.value - b.extendReturnDate) * dailyFee * FINE_MULTIPLIER)
    else
      Err(InvalidPaymentType)
  }

  /** Row `q` counts against saving `p` in validate_unique: same borrowing and
      type, and not `p`'s own row. Only a truthy pk is excluded (`if self.pk:`),
      so a payment whose pk is 0 counts against itself. */
  predicate Clash(q: Payment, p: Payment)
  {
    q.borrowingId == p.borrowingId && q.kind == p.kind
    && !(p.pk.Some? && p.pk.value != 0 && q.pk == p.pk)
  }

  /** validate_unique raises exactly when some stored row clashes with `p`. */
  predicate Conflicts(ps: seq<Payment>, p: Payment)
  {
    exists i :: 0 <= i < |ps| && Clash(ps[i], p)
  }

  /** Some stored payment of this type already exists for this borrowing. */
  predicate HasPayment(ps: seq<Payment>, borrowingId: int, kind: string)
  {
    exists i :: 0 <= i < |ps| && ps[i].borrowingId == borrowingId && ps[i].kind == kind
  }

  /** The position of the row whose primary key is `k`, the first one if
      several share it. */
  function IndexOfPk(ps: seq<Payment>, k: int): (r: Option<nat>)
    ensures r.Some? ==> r.value < |ps| && ps[r.value].pk == Some(k)
    ensures r.Some? ==> forall j :: 0 <= j < r.value ==> ps[j].pk != Some(k)
    ensures r.None? ==> forall j :: 0 <= j < |ps| ==> ps[j].pk != Some(k)
  {
    if |ps| == 0 then None
    else if ps[0].pk == Some(k) then Some(0)
    else
      match IndexOfPk(ps[1..], k)
      case None => None
      case Some(i) => Some(i + 1)
  }

  /** Payment.save: validate_unique first; then an unsaved payment is inserted
      under the next primary key, and a saved one overwrites its own row (or
      is inserted under its own key when no row has it). */
  function Save(db: Db, p: Payment): (r: (Db, Result<Payment>))
    ensures r.1.Err? <==> Conflicts(db.payments, p)
    ensures r.1.Err? ==> r.0 == db && r.1.error == DuplicatePayment(p.kind)
    ensures r.1.Ok? ==>
      && r.0.books == db.books && r.0.borrowings == db.borrowings
      && r.0.nextBorrowingId == db.nextBorrowingId
      && r.1.value == p.(pk := r.1.value.pk) && r.1.value.pk.Some?
      && r.1.value in r.0.payments
    ensures r.1.Ok? && p.pk.None? ==>
      && r.1.value.pk == Some(db.nextPaymentId)
      && r.0.payments == db.payments + [r.1.value]
      && r.0.nextPaymentId == db.nextPaymentId + 1
    ensures r.1.Ok? && p.pk.Some? ==> r.1.value == p
    ensures r.1.Ok? && p.pk.Some? && IndexOfPk(db.payments, p.pk.value).Some? ==>
      && r.0.payments == db.payments[IndexOfPk(db.payments, p.pk.value).value := p]
      && r.0.nextPaymentId == db.nextPaymentId
    ensures r.1.Ok? && p.pk.Some? && IndexOfPk(db.payments, p.pk.value).None? ==>
      && r.0.payments == db.payments + [p]
      && r.0.nextPaymentId == (if p.pk.value + 1 > db.nextPaymentId then p.pk.value + 1 else db.nextPaymentId)
  {
    if Conflicts(db.payments, p) then
      (db, Err(DuplicatePayment(p.kind)))
    else
      match p.pk
      case None =>
        var stored := p.(pk := Some(db.nextPaymentId));
        (db.(payments := db.payments + [stored], nextPaymentId := db.nextPaymentId + 1), Ok(stored))
      case Some(k) =>
        match IndexOfPk(db.payments, k)
        case Some(i) =>
          var rows := db.payments[i := p];
          assert rows[i] == p;
          (db.(payments := rows), Ok(p))
        case None =>
          var next := if k + 1 > db.nextPaymentId then k + 1 else db.nextPaymentId;
          (db.(payments := db.payments + [p], nextPaymentId := next), Ok(p))
  }

  /** A payment created for a borrowing, with the amount handed to the
      payment gateway for its checkout session. */
  datatype Created = Created(payment: Payment, amount: int)

  /** create_payment_and_stripe_session: choose the amount by type (an
      unknown type is refused before anything else happens), ask the gateway
      for a session for that amount (`session` is its answer), and insert a
      PENDING payment carrying the session's id and url. */
  function CreatePaymentAndSession(db: Db, borrowingId: int, kind: string, session: Session)
    : (r: (Db, Result<Created>))
    requires borrowingId in db.borrowings && db.borrowings[borrowingId].bookId in db.books
    ensures kind != PAYMENT && kind != FINE ==> r == (db, Err(InvalidPaymentType))
    ensures r.1.Err? ==> r.0 == db
    ensures var b := db.borrowings[borrowingId];
      r.1.Ok? <==>
        && PaymentAmount(kind, b, db.books[b.bookId].dailyFee).Ok?
        && !HasPayment(db.payments, borrowingId, kind)
    ensures r.1.Ok? ==>
      var p := r.1.value.payment;
      && p == Payment(Some(db.nextPaymentId), Pending, kind, borrowingId, Some(session.url), Some(session.id))
      && r.0 == db.(payments := db.payments + [p], nextPaymentId := db.nextPaymentId + 1)
    ensures r.1.Ok? ==>
      var b := db.borrowings[borrowingId];
      MoneyToPay(r.1.value.payment.kind, b, db.books[b.bookId].dailyFee) == Ok(r.1.value.amount)
  {
    var b := db.borrowings[borrowingId];
    match PaymentAmount(kind, b, db.books[b.bookId].dailyFee)
    case Err(e) => (db, Err(e))
    case Ok(amount) =>
      var unsaved := Payment(None, Pending, kind, borrowingId, Some(session.url), Some(session.id));
      assert Conflicts(db.payments, unsaved) <==> HasPayment(db.payments, borrowingId, kind);
      var (after, saved) := Save(db, unsaved);
      match saved
      case Err(e) => (db, Err(e))
      case Ok(p) => (after, Ok(Created(p, amount)))
  }

  /** Payment.create_stripe_session on the stored row at position `i`:
      compute money_to_pay (which may raise), ask the gateway for a session
      (`session` is its answer), record the session's id and url on the row,
      save it, and hand the session back. */
  function CreateStripeSession(db: Db, i: nat, session: Session): (r: (Db, Result<Session>))
    requires i < |db.payments| && db.payments[i].pk.Some?
    requires db.payments[i].borrowingId in db.borrowings
    requires db.borrowings[db.payments[i].borrowingId].bookId in db.books
    ensures var p := db.payments[i];
      var b := db.borrowings[p.borrowingId];
      r.1.Ok? <==>
        && MoneyToPay(p.kind, b, db.books[b.bookId].dailyFee).Ok?
        && !Conflicts(db.payments, p)
    ensures r.1.Err? ==> r.0 == db
    ensures r.1.Ok? ==> r.1.value == session
    ensures r.1.Ok? && KeysValid(db.payments, db.nextPaymentId) ==>
      r.0 == db.(payments := db.payments[i := db.payments[i].(sessionId := Some(session.id),
                                                            sessionUrl := Some(session.url))])
  {
    var p := db.payments[i];
    var b := db.borrowings[p.borrowingId];
    match MoneyToPay(p.kind, b, db.books[b.bookId].dailyFee)
    case Err(e) => (db, Err(e))
    case Ok(_) =>
      var updated := p.(sessionId := Some(session.id), sessionUrl := Some(session.url));
      assert forall j :: 0 <= j < |db.payments| ==> (Clash(db.payments[j], updated) <==> Clash(db.payments[j], p));
      assert KeysValid(db.payments, db.nextPaymentId) ==> IndexOfPk(db.payments, p.pk.value) == Some(i);
      var (after, saved) := Save(db, updated);
      match saved
      case Err(e) => (db, Err(e))
      case Ok(_) => (after, Ok(session))
  }

  /** The payment's borrowing belongs to `user`. */
  predicate OwnedBy(p: Payment, bs: map<int, Borrowing>, user: User)
  {
    p.borrowingId in bs && bs[p.borrowingId].userId == user.id
  }

  /** `r` is `s` with some elements left out, the rest kept in order. */
  predicate SubsequenceOf(r: seq<Payment>, s: seq<Payment>)
  {
    if r == [] then true
    else if s == [] then false
    else if r[0] == s[0] then SubsequenceOf(r[1..], s[1..])
    else SubsequenceOf(r, s[1..])
  }

  /** The rows of `ps` whose borrowing belongs to `user`, in table order:
      every owned row is kept as often as it occurs, every other row is
      dropped, and the order of the table is preserved. */
  function OwnPayments(ps: seq<Payment>, bs: map<int, Borrowing>, user: User): (r: seq<Payment>)
    ensures |r| <= |ps|
    ensures forall p :: p in r <==> p in ps && OwnedBy(p, bs, user)
    ensures forall p :: multiset(r)[p] == if OwnedBy(p, bs, user) then multiset(ps)[p] else 0
    ensures SubsequenceOf(r, ps)
  {
    if ps == [] then []
    else
      var rest := OwnPayments(ps[1..], bs, user);
      assert ps == [ps[0]] + ps[1..];
      assert multiset(ps) == multiset{ps[0]} + multiset(ps[1..]);
      if OwnedBy(ps[0], bs, user) then
        var r := [ps[0]] + rest;
        assert r[1..] == rest;
        r
      else
        assert rest != [] ==> rest[0] in rest && rest[0] != ps[0];
        rest
  }

  /** PaymentList.get_queryset: staff see every payment; anyone else sees
      exactly the payments whose borrowing is theirs. */
  function ListPayments(ps: seq<Payment>, bs: map<int, Borrowing>, user: User): (r: seq<Payment>)
    ensures user.isStaff ==> r == ps
    ensures !user.isStaff ==> forall p :: p in r <==> p in ps && OwnedBy(p, bs, user)
    ensures !user.isStaff ==> SubsequenceOf(r, ps)
  {
    if user.isStaff then ps else OwnPayments(ps, bs, user)
  }

  /** A response of the payment result views: a status and a one-entry body. */
  datatype Response = Response(status: int, key: string, text: string)

  /** BasePaymentView.handle_payment_result: success exactly when a non-empty
      session id came with the request. */
  function HandlePaymentResult(sessionId: Option<string>, success: string, failure: string)
    : (r: Response)
    ensures r.status == 200 <==> sessionId.Some? && sessionId.value != ""
    ensures r.status == 200 ==> r.key == "message" && r.text == success
    ensures r.status != 200 ==> r.status == 400 && r.key == "error" && r.text == failure
  {
    if sessionId.Some? && sessionId.value != "" then Response(200, "message", success)
    else Response(400, "error", failure)
  }

  const SESSION_NOT_FOUND: string := "Session ID not found."

  /** PaymentSuccess.get. It reports the outcome and changes no payment. */
  function PaymentSuccess(sessionId: Option<string>): (r: Response)
    ensures r.status == 200 <==> sessionId.Some? && sessionId.value != ""
    ensures r.status == 200 ==> r.text == "Payment was successful!"
    ensures r.status != 200 ==> r == Response(400, "error", SESSION_NOT_FOUND)
  {
    HandlePaymentResult(sessionId, "Payment was successful!", SESSION_NOT_FOUND)
  }

  /** PaymentCancel.get. It reports the outcome and changes no payment. */
  function PaymentCancel(sessionId: Option<string>): (r: Response)
    ensures r.status == 200 <==> sessionId.Some? && sessionId.value != ""
    ensures r.status == 200 ==>
      r.text == "Payment was not successful and can be paid later. The session is available for 24h."
    ensures r.status != 200 ==> r == Response(400, "error", SESSION_NOT_FOUND)
  {
    HandlePaymentResult(sessionId,
      "Payment was not successful and can be paid later. The session is available for 24h.",
      SESSION_NOT_FOUND)
  }
}
