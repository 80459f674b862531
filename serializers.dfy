/**
 * The pure half of the library serializers (library/serializers.py): the
 * payment calculator, the validation steps that decide whether a borrowing,
 * a return, a payment or a book write is accepted, and the computed fields
 * of the list serializers. The writes themselves are in Store.
 */
module Serializers {
  import opened Wrappers
  import opened Models
  import opened Api
  import opened Ledger

  // ---------------------------------------------------------------------
  // Payment calculator

  /** Days charged for a rental: from borrowing to expected return, at least one. */
  function RentalDays(b: Borrowing): (d: nat)
    ensures d >= 1 && d >= b.expectedReturnDate - b.borrowDate
    ensures d == 1 || d == b.expectedReturnDate - b.borrowDate
  {
    var days := b.expectedReturnDate - b.borrowDate;
    if days > 1 then days else 1
  }

  /** The rental payment: the book's daily fee for every day charged. */
  function RentalCost(dailyFee: Cents, b: Borrowing): (c: Cents)
    ensures dailyFee >= MinAmount ==> c >= dailyFee
  {
    dailyFee * RentalDays(b)
  }

  /** Days past the expected return date; zero when not overdue. */
  function OverdueDays(b: Borrowing, today: Day): (d: nat)
    ensures d > 0 <==> today > b.expectedReturnDate
    ensures d > 0 ==> d == today - b.expectedReturnDate
  {
    if today > b.expectedReturnDate then today - b.expectedReturnDate else 0
  }

  /** The fine: twice the daily fee for every overdue day. */
  function FineCost(dailyFee: Cents, b: Borrowing, today: Day): (c: Cents)
    ensures dailyFee >= MinAmount && today > b.expectedReturnDate ==> c >= 2 * dailyFee
    ensures today <= b.expectedReturnDate ==> c == 0
  {
    OverdueDays(b, today) * dailyFee * 2
  }

  /** What the calculator charges, case by case. */
  lemma CalculatorCharges(dailyFee: Cents, b: Borrowing, today: Day)
    ensures b.expectedReturnDate - b.borrowDate >= 1 ==>
      RentalCost(dailyFee, b) == dailyFee * (b.expectedReturnDate - b.borrowDate)
    ensures b.expectedReturnDate - b.borrowDate <= 1 ==> RentalCost(dailyFee, b) == dailyFee
    ensures today > b.expectedReturnDate ==>
      FineCost(dailyFee, b, today) == 2 * dailyFee * (today - b.expectedReturnDate)
  {
    var days := b.expectedReturnDate - b.borrowDate;
    if days >= 1 {
      assert RentalDays(b) == days;
    }
    if today > b.expectedReturnDate {
      var od := today - b.expectedReturnDate;
      assert OverdueDays(b, today) == od;
      calc {
        FineCost(dailyFee, b, today);
        od * dailyFee * 2;
        2 * dailyFee * od;
      }
    }
  }

  /** Fees of 2.00 for five days, 1.50 for a same-day window, and a fine of three days at 2.00. */
  lemma CalculatorExamples(d: Day)
    ensures RentalCost(200, Borrowing(0, 0, 0, d, d + 5, None)) == 1000
    ensures RentalCost(150, Borrowing(0, 0, 0, d, d, None)) == 150
    ensures FineCost(200, Borrowing(0, 0, 0, d - 5, d, None), d + 3) == 1200
    ensures FineCost(200, Borrowing(0, 0, 0, d - 5, d, None), d) == 0
  {
  }

  /**
   * The rows `PaymentCreateSerializer.create` inserts for a borrowing: the
   * PENDING rental payment and, when the borrowing is overdue, a PENDING fine
   * after it, under consecutive keys.
   */
  function PaymentRows(b: Borrowing, dailyFee: Cents, today: Day, now: Instant, firstId: PaymentId): (rows: seq<Payment>)
    ensures |rows| == (if today > b.expectedReturnDate then 2 else 1)
    ensures rows[0] == NewPayment(firstId, b.id, Rental, RentalCost(dailyFee, b), now)
    ensures |rows| == 2 ==> rows[1] == NewPayment(firstId + 1, b.id, Fine, FineCost(dailyFee, b, today), now)
    ensures forall i :: 0 <= i < |rows| ==>
      rows[i].id == firstId + i && rows[i].borrowingId == b.id && rows[i].status == Pending
    ensures dailyFee >= MinAmount ==> forall i :: 0 <= i < |rows| ==> rows[i].moneyToPay >= dailyFee
  {
    var payment := NewPayment(firstId, b.id, Rental, RentalCost(dailyFee, b), now);
    if OverdueDays(b, today) > 0 then
      [payment, NewPayment(firstId + 1, b.id, Fine, FineCost(dailyFee, b, today), now)]
    else
      [payment]
  }

  // ---------------------------------------------------------------------
  // Computed fields of the list serializers

  /** `BorrowingListSerializer.get_days_borrowed`: days up to the return (or today), at least one. */
  function DaysBorrowed(b: Borrowing, today: Day): (d: int)
    ensures d >= 1
    ensures var span := b.actualReturnDate.GetOr(today) - b.borrowDate;
      d >= span && (d == 1 || d == span)
  {
    var diff := if b.actualReturnDate.Some? then b.actualReturnDate.value - b.borrowDate
                else today - b.borrowDate;
    if 1 > diff then 1 else diff
  }

  /** `BookListSerializer.get_availability`. */
  function Availability(book: Book): (s: string)
    ensures s == "Available" <==> book.inventory > 0
    ensures s == "Available" || s == "Not available"
  {
    if book.inventory > 0 then "Available" else "Not available"
  }

  /** `PaymentSerializer.get_session_url`: the link is shown only while there is something to pay. */
  function SessionUrlShown(p: Payment): (r: Option<string>)
    ensures r.Some? ==> p.status == Pending && p.moneyToPay > 0
    ensures p.status == Pending && p.moneyToPay > 0 ==> r == p.sessionUrl
    ensures !(p.status == Pending && p.moneyToPay > 0) ==> r == None
  {
    if p.status == Pending && p.moneyToPay > 0 then p.sessionUrl else None
  }

  // ---------------------------------------------------------------------
  // Borrowing creation: BorrowingCreateSerializer's validation

  /**
   * The book must exist, the expected return date may not be before
   * `utcToday` (the date of the current instant in UTC, `now().date()`,
   * which near midnight can differ from the local date the borrow date
   * defaults to), and the requester may not already have an active
   * borrowing of the book. Stock is checked later, by the write itself.
   */
  function ValidateBorrowingRequest(books: map<BookId, Book>, bs: seq<Borrowing>, requester: Requester,
                                    bookId: BookId, expectedReturnDate: Day, utcToday: Day): (r: Result<(), Error>)
    ensures r.Ok? <==>
      bookId in books && expectedReturnDate >= utcToday && !HasActive(bs, requester.userId, bookId)
    ensures bookId !in books ==> r == Err(BookNotFound)
    ensures bookId in books && expectedReturnDate < utcToday ==> r == Err(ReturnDateInPast)
    ensures r.Err? && bookId in books && expectedReturnDate >= utcToday ==> r == Err(DuplicateActiveBorrowing)
  {
    if bookId !in books then Err(BookNotFound)
    else if expectedReturnDate < utcToday then Err(ReturnDateInPast)
    else if HasActive(bs, requester.userId, bookId) then Err(DuplicateActiveBorrowing)
    else Ok(())
  }

  // ---------------------------------------------------------------------
  // Borrowing return: BorrowingReturnSerializer's validation

  /**
   * A borrowing is returned once; while any of its payments is PENDING only
   * a staff member may return it. (`validate` and `update` make the same
   * pending check on the same rows; it is made once here.)
   */
  function ValidateReturn(b: Borrowing, ps: seq<Payment>, requester: Requester): (r: Result<(), Error>)
    ensures r.Ok? <==> b.IsActive() && (requester.isStaff || !HasPending(ps, b.id))
    ensures !b.IsActive() ==> r == Err(AlreadyReturned)
    ensures b.IsActive() && HasPending(ps, b.id) && !requester.isStaff ==> r == Err(UnpaidBalance)
  {
    if b.actualReturnDate.Some? then Err(AlreadyReturned)
    else if HasPending(ps, b.id) && !requester.isStaff then Err(UnpaidBalance)
    else Ok(())
  }

  // ---------------------------------------------------------------------
  // Payment creation: PaymentCreateSerializer's validation

  /**
   * In the order the serializer checks: the borrowing key must name a
   * borrowing the requester may see (the field's queryset), the requester
   * must own it or be staff, no PENDING payment may exist for the same user
   * and book, and none for this borrowing. Accepted: the borrowing's position.
   */
  function ValidatePaymentRequest(bs: seq<Borrowing>, ps: seq<Payment>, borrowingId: BorrowingId,
                                  requester: Requester): (r: Result<nat, Error>)
    requires DistinctBorrowingIds(bs)
    ensures r.Ok? <==>
      HasBorrowing(bs, borrowingId)
      && (var b := bs[FindBorrowing(bs, borrowingId).value];
          MayAccess(requester, b) && !PendingForPair(bs, ps, b.userId, b.bookId))
    ensures r.Ok? ==> r.value < |bs| && bs[r.value].id == borrowingId && !HasPending(ps, borrowingId)
    ensures r.Err? ==> r.error in {BorrowingNotFound, DuplicatePendingPayment}
  {
    match FindBorrowing(bs, borrowingId)
    case None => Err(BorrowingNotFound)
    case Some(k) =>
      var b := bs[k];
      if !MayAccess(requester, b) then Err(BorrowingNotFound)
      else if b.userId != requester.userId && !requester.isStaff then Err(NotOwner)
      else if PendingForPair(bs, ps, b.userId, b.bookId) then Err(DuplicatePendingPayment)
      else if HasPending(ps, b.id) then
        PendingOfBorrowingIsPendingForPair(bs, ps, k);
        Err(PendingForBorrowing)
      else Ok(k)
  }

  /** A requester who neither owns the borrowing nor is staff never gets a payment created. */
  lemma PaymentRequestNeedsOwnerOrStaff(bs: seq<Borrowing>, ps: seq<Payment>, k: nat, requester: Requester)
    requires DistinctBorrowingIds(bs) && k < |bs|
    requires bs[k].userId != requester.userId && !requester.isStaff
    ensures ValidatePaymentRequest(bs, ps, bs[k].id, requester) == Err(BorrowingNotFound)
  {
    FindBorrowingAt(bs, k);
  }

  // ---------------------------------------------------------------------
  // Book writes: BookSerializer's field validation

  /**
   * The fields of a book create request, after parsing. The cover and the
   * inventory have model defaults, so a request may leave them out.
   */
  datatype BookInput = BookInput(title: string, authors: set<AuthorId>, cover: Option<CoverType>,
                                 inventory: Option<int>, dailyFee: Cents)
  {
    /** The cover stored: the one given, or the model's default. */
    function StoredCover(): CoverType
    {
      cover.GetOr(DefaultCover)
    }

    /** The inventory stored: the one given, or the model's default. */
    function StoredInventory(): int
    {
      inventory.GetOr(DefaultInventory)
    }
  }

  /** The row `Book.objects.create(**validated_data)` inserts under key `id`, defaults filled in. */
  function NewBook(id: BookId, input: BookInput): (b: Book)
    requires input.StoredInventory() >= 0
    ensures b.id == id && b.title == input.title && b.authors == input.authors && b.dailyFee == input.dailyFee
    ensures input.cover.Some? ==> b.cover == input.cover.value
    ensures input.cover.None? ==> b.cover == DefaultCover == Soft
    ensures input.inventory.Some? ==> b.inventory == input.inventory.value
    ensures input.inventory.None? ==> b.inventory == DefaultInventory == 1
  {
    Book(id, input.title, input.authors, input.StoredCover(), input.StoredInventory(), input.dailyFee)
  }

  /** `CharField(max_length=100)`, not blank. */
  predicate ValidTitle(t: string)
  {
    0 < |t| <= 100
  }

  /** The model's validators on a whole create request, against the authors that exist. */
  function ValidateBook(input: BookInput, authorIds: set<AuthorId>): (r: Result<(), Error>)
    ensures r.Ok? <==>
      ValidTitle(input.title) && input.authors <= authorIds
      && input.StoredInventory() >= MinInventory && ValidAmount(input.dailyFee)
  {
    if !ValidTitle(input.title) then Err(InvalidTitle)
    else if !(input.authors <= authorIds) then Err(UnknownAuthor)
    else if input.StoredInventory() < MinInventory then Err(InvalidInventory)
    else if !ValidAmount(input.dailyFee) then Err(InvalidDailyFee)
    else Ok(())
  }

  /** One scalar entry of an update's `validated_data`. */
  datatype BookField = Title(title: string) | Cover(cover: CoverType) | Inventory(inventory: int) | DailyFee(fee: Cents)

  predicate ValidField(f: BookField)
  {
    match f
    case Title(t) => ValidTitle(t)
    case Cover(_) => true
    case Inventory(n) => n >= MinInventory
    case DailyFee(c) => ValidAmount(c)
  }

  /** The refusal for a field that fails its validator. */
  function FieldError(f: BookField): Error
  {
    if f.Title? then InvalidTitle else if f.Inventory? then InvalidInventory else InvalidDailyFee
  }

  /** The model's validators on the fields an update gives, against the authors that exist. */
  function ValidateBookFields(fields: seq<BookField>, authors: Option<set<AuthorId>>,
                              authorIds: set<AuthorId>): (r: Result<(), Error>)
    ensures r.Ok? <==>
      (forall i :: 0 <= i < |fields| ==> ValidField(fields[i]))
      && (authors.Some? ==> authors.value <= authorIds)
  {
    if fields == [] then
      if authors.Some? && !(authors.value <= authorIds) then Err(UnknownAuthor) else Ok(())
    else if !ValidField(fields[0]) then Err(FieldError(fields[0]))
    else
      var rest := ValidateBookFields(fields[1..], authors, authorIds);
      assert forall i :: 1 <= i < |fields| ==> fields[i] == fields[1..][i - 1];
      rest
  }

  /**
   * A full update (PUT) gives every field without a model default: the
   * title, the daily fee and the authors.
   */
  predicate GivesRequiredFields(fields: seq<BookField>, authors: Option<set<AuthorId>>)
  {
    && authors.Some?
    && (exists i | 0 <= i < |fields| :: fields[i].Title?)
    && (exists i | 0 <= i < |fields| :: fields[i].DailyFee?)
  }

  /**
   * An update: a full one (`partial` false, the `update` action) is refused
   * when a required field is missing; then, full or partial, every field
   * given must pass its validator.
   */
  function ValidateBookUpdate(fields: seq<BookField>, authors: Option<set<AuthorId>>,
                              authorIds: set<AuthorId>, partial: bool): (r: Result<(), Error>)
    ensures r.Ok? <==>
      (partial || GivesRequiredFields(fields, authors))
      && (forall i :: 0 <= i < |fields| ==> ValidField(fields[i]))
      && (authors.Some? ==> authors.value <= authorIds)
    ensures !partial && !GivesRequiredFields(fields, authors) ==> r == Err(RequiredFieldMissing)
  {
    if !partial && !GivesRequiredFields(fields, authors) then Err(RequiredFieldMissing)
    else ValidateBookFields(fields, authors, authorIds)
  }

  /** A PUT with only an inventory is refused; the same body as a PATCH is accepted. */
  lemma InventoryOnlyUpdate(authorIds: set<AuthorId>)
    ensures ValidateBookUpdate([Inventory(3)], None, authorIds, false) == Err(RequiredFieldMissing)
    ensures ValidateBookUpdate([Inventory(3)], None, authorIds, true) == Ok(())
  {
    var fields := [Inventory(3)];
    assert forall i :: 0 <= i < |fields| ==> ValidField(fields[i]);
    assert ValidateBookFields(fields, None, authorIds).Ok?;
    assert ValidateBookUpdate(fields, None, authorIds, true) == ValidateBookFields(fields, None, authorIds);
  }

  /** `setattr(instance, attr, value)` for one validated field. */
  function SetField(b: Book, f: BookField): (r: Book)
    requires ValidField(f)
    ensures r.id == b.id && r.authors == b.authors
  {
    match f
    case Title(t) => b.(title := t)
    case Cover(c) => b.(cover := c)
    case Inventory(n) => b.(inventory := n)
    case DailyFee(c) => b.(dailyFee := c)
  }

  /** The book after setting the fields one after the other, as the update loop does. */
  function SetFields(b: Book, fields: seq<BookField>): (r: Book)
    requires forall i :: 0 <= i < |fields| ==> ValidField(fields[i])
    ensures r.id == b.id && r.authors == b.authors
  {
    if fields == [] then b
    else SetField(SetFields(b, fields[..|fields| - 1]), fields[|fields| - 1])
  }

  /** The book after an accepted update: the scalar fields in turn, then the authors when given. */
  function UpdatedBook(b: Book, fields: seq<BookField>, authors: Option<set<AuthorId>>): (r: Book)
    requires forall i :: 0 <= i < |fields| ==> ValidField(fields[i])
    ensures r.id == b.id && r.authors == authors.GetOr(b.authors)
  {
    var u := SetFields(b, fields);
    if authors.Some? then u.(authors := authors.value) else u
  }

  predicate SameKind(f: BookField, g: BookField)
  {
    (f.Title? && g.Title?) || (f.Cover? && g.Cover?) || (f.Inventory? && g.Inventory?) || (f.DailyFee? && g.DailyFee?)
  }

  /** The book holds the value of field `f`. */
  predicate Holds(b: Book, f: BookField)
  {
    match f
    case Title(t) => b.title == t
    case Cover(c) => b.cover == c
    case Inventory(n) => b.inventory == n
    case DailyFee(c) => b.dailyFee == c
  }

  /**
   * With one entry per field, as a dictionary has, every field named in the
   * update takes its new value and every other field keeps its old one.
   */
  lemma {:induction false} SetFieldsEffect(b: Book, fields: seq<BookField>)
    requires forall i :: 0 <= i < |fields| ==> ValidField(fields[i])
    requires forall i, j :: 0 <= i < j < |fields| ==> !SameKind(fields[i], fields[j])
    ensures forall i :: 0 <= i < |fields| ==> Holds(SetFields(b, fields), fields[i])
    ensures (forall i :: 0 <= i < |fields| ==> !fields[i].Title?) ==> SetFields(b, fields).title == b.title
    ensures (forall i :: 0 <= i < |fields| ==> !fields[i].Cover?) ==> SetFields(b, fields).cover == b.cover
    ensures (forall i :: 0 <= i < |fields| ==> !fields[i].Inventory?) ==> SetFields(b, fields).inventory == b.inventory
    ensures (forall i :: 0 <= i < |fields| ==> !fields[i].DailyFee?) ==> SetFields(b, fields).dailyFee == b.dailyFee
  {
    if fields != [] {
      var n := |fields| - 1;
      var init := fields[..n];
      assert forall i :: 0 <= i < n ==> init[i] == fields[i];
      SetFieldsEffect(b, init);
      var mid := SetFields(b, init);
      forall i | 0 <= i < |fields|
        ensures Holds(SetFields(b, fields), fields[i])
      {
        if i < n {
          assert Holds(mid, init[i]);
          assert !SameKind(fields[i], fields[n]);
        }
      }
    }
  }
}
