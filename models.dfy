/**
 * The rows of the library database and the rules their fields declare:
 * enumerated choices, defaults and value bounds (library/models.py).
 *
 * Representation: a `DecimalField(decimal_places=2)` is a whole number
 * of cents, a `DateField` a day number, a `DateTimeField` an instant in
 * seconds. Identifiers are the database's auto-increment keys.
 */
module Models {
  import opened Wrappers

  type BookId = nat
  type AuthorId = nat
  type BorrowingId = nat
  type PaymentId = nat
  type UserId = nat

  /** A calendar date as a day number. */
  type Day = int
  /** A point in time in seconds; its date is `DayOf`. */
  type Instant = int
  /** An amount of money in cents. */
  type Cents = int

  const SecondsPerDay: int := 86400

  /** Smallest accepted fee or amount: `MinValueValidator(Decimal("0.01"))`. */
  const MinAmount: Cents := 1
  /** Largest amount seven digits with two decimals hold: 99999.99. */
  const MaxAmount: Cents := 9_999_999

  /** `Book.inventory` defaults to one copy. */
  const DefaultInventory: nat := 1
  /** `MinValueValidator(1)` on `Book.inventory`. */
  const MinInventory: nat := 1

  /**
   * The date of an instant. Instants count seconds of the configured time
   * zone's wall clock, so this is the local date Django derives from an
   * aware datetime.
   */
  function DayOf(t: Instant): (d: Day)
    ensures d * SecondsPerDay <= t < (d + 1) * SecondsPerDay
  {
    t / SecondsPerDay
  }

  /** A fee or an amount the two-decimal, seven-digit columns accept. */
  predicate ValidAmount(c: Cents)
  {
    MinAmount <= c <= MaxAmount
  }

  // ---------------------------------------------------------------------
  // Enumerated choices

  datatype CoverType = Hard | Soft

  const DefaultCover: CoverType := Soft

  datatype PaymentStatus = Pending | Paid

  /** `Payment.Type`: `Rental` is the choice stored as "Payment". */
  datatype PaymentType = Rental | Fine

  const DefaultStatus: PaymentStatus := Pending

  /** The stored value of a cover choice. */
  function CoverValue(c: CoverType): string
  {
    match c
    case Hard => "Hard"
    case Soft => "Soft"
  }

  /** The stored value of a status choice. */
  function StatusValue(s: PaymentStatus): string
  {
    match s
    case Pending => "Pending"
    case Paid => "Paid"
  }

  /**
   * The stored value of a payment type; the label shown for it (the
   * display of a `TextChoices` member named PAYMENT or FINE) is the same text.
   */
  function TypeLabel(t: PaymentType): string
  {
    match t
    case Rental => "Payment"
    case Fine => "Fine"
  }

  /** The choice field's check of a submitted cover value. */
  function ParseCover(v: string): (r: Option<CoverType>)
    ensures r.Some? <==> v == "Hard" || v == "Soft"
    ensures r.Some? ==> CoverValue(r.value) == v
  {
    if v == "Hard" then Some(Hard)
    else if v == "Soft" then Some(Soft)
    else None
  }

  /** The choice field's check of a submitted status value. */
  function ParseStatus(v: string): (r: Option<PaymentStatus>)
    ensures r.Some? <==> v == "Pending" || v == "Paid"
    ensures r.Some? ==> StatusValue(r.value) == v
  {
    if v == "Pending" then Some(Pending)
    else if v == "Paid" then Some(Paid)
    else None
  }

  /** The choice field's check of a submitted payment type value. */
  function ParseType(v: string): (r: Option<PaymentType>)
    ensures r.Some? <==> v == "Payment" || v == "Fine"
    ensures r.Some? ==> TypeLabel(r.value) == v
  {
    if v == "Payment" then Some(Rental)
    else if v == "Fine" then Some(Fine)
    else None
  }

  /** Every choice is stored as a value its parser reads back. */
  lemma ChoicesRoundTrip(c: CoverType, s: PaymentStatus, t: PaymentType)
    ensures ParseCover(CoverValue(c)) == Some(c)
    ensures ParseStatus(StatusValue(s)) == Some(s)
    ensures ParseType(TypeLabel(t)) == Some(t)
  {
  }

  // ---------------------------------------------------------------------
  // Rows

  datatype Book = Book(
    id: BookId,
    title: string,
    authors: set<AuthorId>,
    cover: CoverType,
    inventory: nat,
    dailyFee: Cents)

  datatype Borrowing = Borrowing(
    id: BorrowingId,
    bookId: BookId,
    userId: UserId,
    borrowDate: Day,
    expectedReturnDate: Day,
    actualReturnDate: Option<Day>)
  {
    /** A borrowing is active until its return date is recorded. */
    predicate IsActive()
    {
      actualReturnDate.None?
    }
  }

  datatype Payment = Payment(
    id: PaymentId,
    borrowingId: BorrowingId,
    status: PaymentStatus,
    paymentType: PaymentType,
    moneyToPay: Cents,
    sessionUrl: Option<string>,
    sessionId: Option<string>,
    createdAt: Instant)

  /** A new borrowing row: `borrow_date` defaults to the current date, no return date. */
  function NewBorrowing(id: BorrowingId, bookId: BookId, userId: UserId,
                        expectedReturnDate: Day, today: Day): (b: Borrowing)
    ensures b.IsActive() && b.actualReturnDate == None
    ensures b.borrowDate == today && b.expectedReturnDate == expectedReturnDate
    ensures b.id == id && b.bookId == bookId && b.userId == userId
  {
    Borrowing(id, bookId, userId, today, expectedReturnDate, None)
  }

  /** A new payment row: status PENDING, no session, stamped with its creation time. */
  function NewPayment(id: PaymentId, borrowingId: BorrowingId, paymentType: PaymentType,
                      money: Cents, now: Instant): (p: Payment)
    ensures p.status == DefaultStatus == Pending
    ensures p.sessionUrl == None && p.sessionId == None
    ensures p.id == id && p.borrowingId == borrowingId && p.paymentType == paymentType
    ensures p.moneyToPay == money && p.createdAt == now
  {
    Payment(id, borrowingId, DefaultStatus, paymentType, money, None, None, now)
  }
}
