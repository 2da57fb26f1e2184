/** The entities of the library service and the database that holds them.

    The database is plain in-memory state: books keyed by id, borrowings keyed
    by id, and payments as a table of rows in insertion order. Dates are whole
    day numbers (a `date` becomes the number of days since some fixed day) and
    money is counted in cents, so a `daily_fee` of 9.99 is 999. */
module Models {

  datatype Option<T> = None | Some(value: T)

  datatype Result<T> = Ok(value: T) | Err(error: Error)

  /** Every way an operation of the core can fail. The first group are
      responses the views build themselves; the second are exceptions that
      escape to the framework. */
  datatype Error =
    | OutOfStock                    // "Book is out of stock"
    | NotOwner                      // "It's not your borrowing"
    | AlreadyReturned               // "Borrowing already returned"
    | InvalidPaymentType            // "Payment type has to be either PAYMENT or FINE"
    | DuplicatePayment(kind: string) // ValidationError raised by Payment.validate_unique
    | BookNotFound                  // get_object_or_404(Book, ...)
    | BorrowingDoesNotExist         // Borrowing.objects.get(id=pk) raising DoesNotExist
    | UnboundLocal(name: string)    // a local read before it was assigned
    | AttributeMissing(name: string) // an attribute the object does not have
    | NoneOperand                   // arithmetic with None as an operand (TypeError)

  /** The text of the message the view puts in its error response. */
  function Message(e: Error): string
  {
    match e
    case OutOfStock => "Book is out of stock"
    case NotOwner => "It's not your borrowing"
    case AlreadyReturned => "Borrowing already returned"
    case InvalidPaymentType => "Payment type has to be either PAYMENT or FINE"
    case DuplicatePayment(t) => "A payment with type '" + t + "' already exists for this borrowing."
    case BookNotFound => "No Book matches the given query."
    case BorrowingDoesNotExist => "Borrowing matching query does not exist."
    case UnboundLocal(n) => "local variable '" + n + "' referenced before assignment"
    case AttributeMissing(n) => "'Borrowing' object has no attribute '" + n + "'"
    case NoneOperand => "unsupported operand type(s) for -: 'NoneType' and 'datetime.date'"
  }

  /** The two payment types the service knows. A payment's `type` is stored
      as text, so other values can reach the code and are handled there. */
  const PAYMENT: string := "PAYMENT"
  const FINE: string := "FINE"

  /** A late return costs twice the daily fee per day overdue. */
  const FINE_MULTIPLIER: int := 2

  datatype User = User(id: int, isStaff: bool)

  /** `dailyFee` is in cents. `inventory` is the number of copies on the shelf. */
  datatype Book = Book(title: string, inventory: int, dailyFee: nat)

  /** A loan of one book to one user. The due date is the field
      `extend_return_date`; `actualReturnDate` is unset while the loan is
      active and is set once, when the book comes back. */
  datatype Borrowing = Borrowing(
    borrowDate: int,
    extendReturnDate: int,
    actualReturnDate: Option<int>,
    bookId: int,
    userId: int)
  {
    predicate IsActive() { actualReturnDate.None? }
  }

  datatype PaymentStatus = Pending | Paid

  /** A payment row. `pk` is None for a payment that was never saved. */
  datatype Payment = Payment(
    pk: Option<int>,
    status: PaymentStatus,
    kind: string,
    borrowingId: int,
    sessionUrl: Option<string>,
    sessionId: Option<string>)

  /** What the payment gateway hands back for a checkout session. */
  datatype Session = Session(id: string, url: string)

  /** The database. `nextBorrowingId` and `nextPaymentId` are the values the
      id sequences hand out next. */
  datatype Db = Db(
    books: map<int, Book>,
    borrowings: map<int, Borrowing>,
    payments: seq<Payment>,
    nextBorrowingId: int,
    nextPaymentId: int)

  /** Two payment rows for the same borrowing never share a type. */
  predicate OnePerType(ps: seq<Payment>)
  {
    forall i, j :: 0 <= i < j < |ps| ==>
      !(ps[i].borrowingId == ps[j].borrowingId && ps[i].kind == ps[j].kind)
  }

  /** Every stored payment has a primary key, from 1 (the first value the id
      sequence hands out) up to below the next one, and no two share one. */
  predicate KeysValid(ps: seq<Payment>, next: int)
  {
    && next >= 1
    && (forall i :: 0 <= i < |ps| ==> ps[i].pk.Some? && 1 <= ps[i].pk.value < next)
    && (forall i, j :: 0 <= i < j < |ps| ==> ps[i].pk != ps[j].pk)
  }

  /** The invariant the operations of the core keep: no book below zero
      copies, ids below the sequences, foreign keys that resolve, and at most
      one payment of each type per borrowing. */
  predicate Valid(db: Db)
  {
    && (forall id :: id in db.books ==> db.books[id].inventory >= 0)
    && (forall id :: id in db.borrowings ==>
          id < db.nextBorrowingId && db.borrowings[id].bookId in db.books)
    && (forall i :: 0 <= i < |db.payments| ==> db.payments[i].borrowingId in db.borrowings)
    && KeysValid(db.payments, db.nextPaymentId)
    && OnePerType(db.payments)
  }
}
