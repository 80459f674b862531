/**
 * The database the serializers write to, as one object: the book table
 * (keyed by primary key), the borrowing and payment tables (in insertion
 * order), the notifications queued for the worker, and the next primary
 * keys. Each method is one request's write, applied in one step.
 */
module Store {
  import opened Wrappers
  import opened Models
  import opened Api
  import opened Ledger
  import opened Serializers
  import opened Stripe
  import opened Views

  /** A notification task handed to the worker (`.delay(borrowing.id)`). */
  datatype Event = BorrowingCreated(borrowingId: BorrowingId) | BorrowingReturned(borrowingId: BorrowingId)

  /** The payment table after a step that may fail part way, with the result raised. */
  datatype PaymentStep = PaymentStep(result: Result<(), Error>, payments: seq<Payment>, nextPaymentId: nat)

  /**
   * The payment side of a first return of the borrowing at position `k`:
   * the payment request is validated; when accepted its rows are inserted
   * and one session is requested for the borrowing's PENDING rows; when the
   * session is created it is stamped on them. The rows stay even when the
   * gateway fails, and an accepted step leaves them PENDING.
   */
  function FirstReturnStep(books: map<BookId, Book>, bs: seq<Borrowing>, ps: seq<Payment>, nextPaymentId: nat,
                           k: nat, requester: Requester, today: Day, now: Instant,
                           origin: string, processor: SessionRequest -> GatewayReply): (s: PaymentStep)
    requires DistinctBorrowingIds(bs) && k < |bs| && bs[k].bookId in books
    ensures |s.payments| >= |ps| && s.nextPaymentId >= nextPaymentId
    ensures s.result.Ok? ==> |s.payments| > |ps|
  {
    var b := bs[k];
    var request := ValidatePaymentRequest(bs, ps, b.id, requester);
    if request.Err? then PaymentStep(Err(request.error), ps, nextPaymentId)
    else
      var rows := PaymentRows(b, books[b.bookId].dailyFee, today, now, nextPaymentId);
      var inserted := ps + rows;
      assert IsPendingOf(inserted[|ps|], b.id);
      match processor(CheckoutRequest(PendingNewestFirst(inserted, b.id), books[b.bookId].title, origin))
      case Failed => PaymentStep(Err(GatewayError), inserted, nextPaymentId + |rows|)
      case Created(id, url) => PaymentStep(Ok(()), StampPending(inserted, b.id, SessionHandle(id, url)), nextPaymentId + |rows|)
  }

  /** A first return's payment step fails only as a payment request or the gateway fails. */
  lemma FirstReturnStepErrors(books: map<BookId, Book>, bs: seq<Borrowing>, ps: seq<Payment>, nextPaymentId: nat,
                              k: nat, requester: Requester, today: Day, now: Instant,
                              origin: string, processor: SessionRequest -> GatewayReply)
    requires DistinctBorrowingIds(bs) && k < |bs| && bs[k].bookId in books
    ensures var s := FirstReturnStep(books, bs, ps, nextPaymentId, k, requester, today, now, origin, processor);
      && (s.result.Err? ==> s.result.error in {BorrowingNotFound, DuplicatePendingPayment, GatewayError})
      && (ValidatePaymentRequest(bs, ps, bs[k].id, requester).Err? ==>
            s == PaymentStep(Err(ValidatePaymentRequest(bs, ps, bs[k].id, requester).error), ps, nextPaymentId))
  {
  }

  /**
   * Once the payment request is accepted, the rows already in the table stay
   * as they were and the calculator's rows follow them under fresh keys,
   * PENDING, with at most their session fields set, whether or not the
   * session was created.
   */
  lemma FirstReturnStepRows(books: map<BookId, Book>, bs: seq<Borrowing>, ps: seq<Payment>, nextPaymentId: nat,
                            k: nat, requester: Requester, today: Day, now: Instant,
                            origin: string, processor: SessionRequest -> GatewayReply)
    requires DistinctBorrowingIds(bs) && k < |bs| && bs[k].bookId in books
    requires ValidatePaymentRequest(bs, ps, bs[k].id, requester).Ok?
    ensures var s := FirstReturnStep(books, bs, ps, nextPaymentId, k, requester, today, now, origin, processor);
      var rows := PaymentRows(bs[k], books[bs[k].bookId].dailyFee, today, now, nextPaymentId);
      && |s.payments| == |ps| + |rows|
      && s.nextPaymentId == nextPaymentId + |rows|
      && s.payments[..|ps|] == ps
      && (forall i :: 0 <= i < |rows| ==>
            s.payments[|ps| + i] == rows[i].(sessionUrl := s.payments[|ps| + i].sessionUrl,
                                            sessionId := s.payments[|ps| + i].sessionId))
      && HasPending(s.payments, bs[k].id)
  {
    var b := bs[k];
    var rows := PaymentRows(b, books[b.bookId].dailyFee, today, now, nextPaymentId);
    var inserted := ps + rows;
    assert IsPendingOf(inserted[|ps|], b.id);
    var reply := processor(CheckoutRequest(PendingNewestFirst(inserted, b.id), books[b.bookId].title, origin));
    if reply.Created? {
      var h := SessionHandle(reply.sessionId, reply.url);
      StampPendingKeepsPending(inserted, b.id, h, b.id);
      StampAppended(ps, rows, b.id, h);
    } else {
      assert inserted[..|ps|] == ps;
      assert forall i :: 0 <= i < |rows| ==> inserted[|ps| + i] == rows[i];
    }
  }

  /** Stamping rows appended after a table with no PENDING row of the borrowing keeps that table. */
  lemma StampAppended(ps: seq<Payment>, rows: seq<Payment>, borrowing: BorrowingId, h: SessionHandle)
    requires !HasPending(ps, borrowing)
    ensures var stamped := StampPending(ps + rows, borrowing, h);
      && stamped[..|ps|] == ps
      && forall i :: 0 <= i < |rows| ==>
           stamped[|ps| + i] == rows[i].(sessionUrl := stamped[|ps| + i].sessionUrl,
                                         sessionId := stamped[|ps| + i].sessionId)
  {
    var inserted := ps + rows;
    var stamped := StampPending(inserted, borrowing, h);
    forall i | 0 <= i < |ps| ensures stamped[i] == ps[i] {
      assert inserted[i] == ps[i] && !IsPendingOf(ps[i], borrowing);
    }
    assert stamped[..|ps|] == ps;
    forall i | 0 <= i < |rows|
      ensures stamped[|ps| + i] == rows[i].(sessionUrl := stamped[|ps| + i].sessionUrl,
                                            sessionId := stamped[|ps| + i].sessionId)
    {
      assert inserted[|ps| + i] == rows[i];
    }
  }

  /** The borrowing had no payment, so the rows already in the table stay as they were. */
  lemma FirstReturnStepKeepsOthers(books: map<BookId, Book>, bs: seq<Borrowing>, ps: seq<Payment>, nextPaymentId: nat,
                                   k: nat, requester: Requester, today: Day, now: Instant,
                                   origin: string, processor: SessionRequest -> GatewayReply)
    requires DistinctBorrowingIds(bs) && k < |bs| && bs[k].bookId in books
    requires !HasPayment(ps, bs[k].id)
    ensures var s := FirstReturnStep(books, bs, ps, nextPaymentId, k, requester, today, now, origin, processor);
      |s.payments| >= |ps| && s.payments[..|ps|] == ps
  {
    var b := bs[k];
    if ValidatePaymentRequest(bs, ps, b.id, requester).Ok? {
      var rows := PaymentRows(b, books[b.bookId].dailyFee, today, now, nextPaymentId);
      var inserted := ps + rows;
      assert inserted[..|ps|] == ps;
      var reply := processor(CheckoutRequest(PendingNewestFirst(inserted, b.id), books[b.bookId].title, origin));
      if reply.Created? {
        var stamped := StampPending(inserted, b.id, SessionHandle(reply.sessionId, reply.url));
        forall i | 0 <= i < |ps| ensures stamped[i] == ps[i] {
          assert inserted[i] == ps[i] && ps[i].borrowingId != b.id;
        }
        assert stamped[..|ps|] == ps;
      }
    }
  }

  /**
   * From `books`, `bs` and `events` to `books'`, `bs'` and `events'` the
   * return of the borrowing at position `k` is recorded: its copy is back on
   * the shelf, its return date is `today` and the notification is queued.
   */
  predicate ReturnRecorded(books: map<BookId, Book>, bs: seq<Borrowing>, events: seq<Event>, k: nat, today: Day,
                           books': map<BookId, Book>, bs': seq<Borrowing>, events': seq<Event>)
    requires k < |bs| && bs[k].bookId in books
  {
    var b := bs[k];
    var book := books[b.bookId];
    && books' == books[b.bookId := book.(inventory := book.inventory + 1)]
    && bs' == bs[k := b.(actualReturnDate := Some(today))]
    && events' == events + [BorrowingReturned(b.id)]
  }

  class Library {
    var authorIds: set<AuthorId>
    var books: map<BookId, Book>
    var borrowings: seq<Borrowing>
    var payments: seq<Payment>
    var events: seq<Event>
    var nextBookId: nat
    var nextBorrowingId: nat
    var nextPaymentId: nat
    /** Copies owned per book: those on the shelf plus those out on active borrowings. */
    ghost var stock: map<BookId, nat>

    ghost predicate Valid()
      reads this
    {
      WellFormed(books, borrowings, payments, stock, nextBookId, nextBorrowingId, nextPaymentId)
    }

    constructor(authors: set<AuthorId>)
      ensures Valid()
      ensures authorIds == authors && books == map[] && borrowings == [] && payments == [] && events == []
      ensures nextBookId == 0 && nextBorrowingId == 0 && nextPaymentId == 0
    {
      authorIds := authors;
      books := map[];
      borrowings := [];
      payments := [];
      events := [];
      nextBookId := 0;
      nextBorrowingId := 0;
      nextPaymentId := 0;
      stock := map[];
    }

    // -------------------------------------------------------------------
    // Books: BookSerializer.create / update, BookViewSet.destroy

    /** A valid request inserts the book under the next key; an invalid one changes nothing. */
    method CreateBook(input: BookInput) returns (r: Result<BookId, Error>)
      requires Valid()
      modifies this
      ensures Valid()
      ensures r.Ok? <==> ValidateBook(input, authorIds).Ok?
      ensures r.Err? ==> r == Err(ValidateBook(input, authorIds).error) && unchanged(this)
      ensures r.Ok? ==>
        && r.value == old(nextBookId) && r.value !in old(books)
        && books == old(books)[r.value := NewBook(r.value, input)]
        && nextBookId == old(nextBookId) + 1
        && stock == old(stock)[r.value := input.StoredInventory()]
        && borrowings == old(borrowings) && payments == old(payments) && events == old(events)
        && authorIds == old(authorIds) && nextBorrowingId == old(nextBorrowingId)
        && nextPaymentId == old(nextPaymentId)
    {
      var check := ValidateBook(input, authorIds);
      if check.Err? {
        return Err(check.error);
      }
      var id := nextBookId;
      ActiveCountUnreferenced(borrowings, id);
      books := books[id := NewBook(id, input)];
      stock := stock[id := input.StoredInventory()];
      nextBookId := nextBookId + 1;
      r := Ok(id);
    }

    /**
     * A missing book is a 404; an invalid update (for a full one, also one
     * missing a required field) changes nothing; otherwise
     * the fields are set one after the other and the authors replaced when
     * given. The stock follows the new inventory.
     */
    method UpdateBook(id: BookId, fields: seq<BookField>, authors: Option<set<AuthorId>>, partial: bool) returns (r: Result<(), Error>)
      requires Valid()
      modifies this
      ensures Valid()
      ensures id !in old(books) ==> r == Err(BookNotFound)
      ensures id in old(books) ==> r == ValidateBookUpdate(fields, authors, authorIds, partial)
      ensures r.Err? ==> unchanged(this)
      ensures r.Ok? ==>
        && books == old(books)[id := UpdatedBook(old(books)[id], fields, authors)]
        && stock == old(stock)[id := books[id].inventory + ActiveCount(borrowings, id)]
        && borrowings == old(borrowings) && payments == old(payments) && events == old(events)
        && authorIds == old(authorIds) && nextBookId == old(nextBookId)
        && nextBorrowingId == old(nextBorrowingId) && nextPaymentId == old(nextPaymentId)
    {
      if id !in books {
        return Err(BookNotFound);
      }
      var check := ValidateBookUpdate(fields, authors, authorIds, partial);
      if check.Err? {
        return check;
      }
      var original := books[id];
      var b := original;
      for i := 0 to |fields|
        invariant b == SetFields(original, fields[..i])
        invariant b.dailyFee >= MinAmount
      {
        assert fields[..i + 1][..i] == fields[..i];
        b := SetField(b, fields[i]);
      }
      assert fields[..|fields|] == fields;
      if authors.Some? {
        b := b.(authors := authors.value);
      }
      books := books[id := b];
      stock := stock[id := b.inventory + ActiveCount(borrowings, id)];
      r := check;
    }

    /** Deletes a book with no active borrowing, with its borrowings and their payments. */
    method RemoveBook(id: BookId)
      requires Valid() && id in books && ActiveCount(borrowings, id) == 0
      modifies this
      ensures Valid()
      ensures books == old(books) - {id}
      ensures borrowings == WithoutBook(old(borrowings), id)
      ensures payments == PaymentsOfRemaining(old(payments), borrowings)
      ensures stock == old(stock) - {id}
      ensures events == old(events) && authorIds == old(authorIds) && nextBookId == old(nextBookId)
      ensures nextBorrowingId == old(nextBorrowingId) && nextPaymentId == old(nextPaymentId)
    {
      DestroyWellFormed(books, borrowings, payments, stock, nextBookId, nextBorrowingId, nextPaymentId, id);
      var remaining := WithoutBook(borrowings, id);
      payments := PaymentsOfRemaining(payments, remaining);
      borrowings := remaining;
      books := books - {id};
      stock := stock - {id};
    }

    /**
     * A missing book is a 404; a book with active borrowings is refused;
     * otherwise it is deleted with its borrowings and their payments.
     */
    method DestroyBook(id: BookId) returns (r: Result<(), Error>)
      requires Valid()
      modifies this
      ensures Valid()
      ensures r == DestroyCheck(old(books), old(borrowings), id)
      ensures r.Err? ==> unchanged(this)
      ensures r.Ok? ==>
        && books == old(books) - {id}
        && borrowings == WithoutBook(old(borrowings), id)
        && payments == PaymentsOfRemaining(old(payments), borrowings)
        && stock == old(stock) - {id}
        && events == old(events) && authorIds == old(authorIds) && nextBookId == old(nextBookId)
        && nextBorrowingId == old(nextBorrowingId) && nextPaymentId == old(nextPaymentId)
    {
      r := DestroyCheck(books, borrowings, id);
      if r.Err? {
        return;
      }
      ActiveCountPositive(borrowings, id);
      RemoveBook(id);
    }

    // -------------------------------------------------------------------
    // Borrowings: BorrowingCreateSerializer

    /**
     * A request that fails validation, or a book with no copy on the shelf,
     * is refused and changes nothing. Otherwise one copy leaves the shelf,
     * an active borrowing of the requester is added under the next key and
     * its notification is queued; the stock of every book is unchanged.
     * The return date is checked against `utcToday`, the UTC date of the
     * request, while the new row's borrow date is the local date `today`.
     */
    method CreateBorrowing(requester: Requester, bookId: BookId, expectedReturnDate: Day, today: Day, utcToday: Day)
      returns (r: Result<BorrowingId, Error>)
      requires Valid()
      modifies this
      ensures Valid()
      ensures ValidateBorrowingRequest(old(books), old(borrowings), requester, bookId, expectedReturnDate, utcToday).Err? ==>
        r == Err(ValidateBorrowingRequest(old(books), old(borrowings), requester, bookId, expectedReturnDate, utcToday).error)
      ensures (ValidateBorrowingRequest(old(books), old(borrowings), requester, bookId, expectedReturnDate, utcToday).Ok?
               && old(books)[bookId].inventory == 0) ==> r == Err(OutOfStock)
      ensures r.Err? ==> unchanged(this)
      ensures r.Ok? <==>
        ValidateBorrowingRequest(old(books), old(borrowings), requester, bookId, expectedReturnDate, utcToday).Ok?
        && old(books)[bookId].inventory > 0
      ensures r.Ok? ==>
        && r.value == old(nextBorrowingId)
        && books == old(books)[bookId := old(books)[bookId].(inventory := old(books)[bookId].inventory - 1)]
        && borrowings == old(borrowings) + [NewBorrowing(r.value, bookId, requester.userId, expectedReturnDate, today)]
        && events == old(events) + [BorrowingCreated(r.value)]
        && nextBorrowingId == old(nextBorrowingId) + 1
        && stock == old(stock) && payments == old(payments) && authorIds == old(authorIds)
        && nextBookId == old(nextBookId) && nextPaymentId == old(nextPaymentId)
    {
      var check := ValidateBorrowingRequest(books, borrowings, requester, bookId, expectedReturnDate, utcToday);
      if check.Err? {
        return Err(check.error);
      }
      var book := books[bookId];
      if book.inventory <= 0 {
        return Err(OutOfStock);
      }
      var id := nextBorrowingId;
      var borrowing := NewBorrowing(id, bookId, requester.userId, expectedReturnDate, today);
      InsertBorrowingWellFormed(books, borrowings, nextBorrowingId, borrowing);
      forall i | HasBorrowing(borrowings, i) ensures HasBorrowing(borrowings + [borrowing], i) {
        HasBorrowingAfterAppend(borrowings, borrowing, i);
      }
      PaymentsWellFormedUnderSameIds(borrowings, borrowings + [borrowing], payments, nextPaymentId);
      forall other | other in books ensures ActiveCount(borrowings + [borrowing], other) ==
        ActiveCount(borrowings, other) + (if other == bookId then 1 else 0)
      {
        ActiveCountAppend(borrowings, borrowing, other);
      }
      books := books[bookId := book.(inventory := book.inventory - 1)];
      borrowings := borrowings + [borrowing];
      nextBorrowingId := nextBorrowingId + 1;
      events := events + [BorrowingCreated(id)];
      r := Ok(id);
    }

    // -------------------------------------------------------------------
    // Payments: PaymentCreateSerializer.create

    /** Inserts the calculator's rows for the borrowing at position `k` under the next keys. */
    method RecordPayments(k: nat, today: Day, now: Instant)
      requires Valid() && k < |borrowings| && !HasPending(payments, borrowings[k].id)
      modifies this
      ensures Valid()
      ensures payments == old(payments)
        + PaymentRows(old(borrowings)[k], old(books)[old(borrowings)[k].bookId].dailyFee, today, now, old(nextPaymentId))
      ensures nextPaymentId == old(nextPaymentId) + |payments| - |old(payments)|
      ensures books == old(books) && borrowings == old(borrowings) && events == old(events)
      ensures stock == old(stock) && authorIds == old(authorIds)
      ensures nextBookId == old(nextBookId) && nextBorrowingId == old(nextBorrowingId)
    {
      var b := borrowings[k];
      var rows := PaymentRows(b, books[b.bookId].dailyFee, today, now, nextPaymentId);
      assert forall i :: 0 <= i < |rows| ==> HasBorrowing(borrowings, rows[i].borrowingId) by {
        assert borrowings[k].id == b.id;
      }
      AppendPaymentRowsWellFormed(borrowings, payments, nextPaymentId, rows);
      payments := payments + rows;
      nextPaymentId := nextPaymentId + |rows|;
    }

    /**
     * A refused request changes nothing. An accepted one inserts the PENDING
     * rental payment and, for an overdue borrowing, the PENDING fine; the
     * rental payment's key is returned.
     */
    method CreatePayment(requester: Requester, borrowingId: BorrowingId, today: Day, now: Instant)
      returns (r: Result<PaymentId, Error>)
      requires Valid()
      modifies this
      ensures Valid()
      ensures ValidatePaymentRequest(old(borrowings), old(payments), borrowingId, requester).Err? ==>
        r == Err(ValidatePaymentRequest(old(borrowings), old(payments), borrowingId, requester).error)
        && unchanged(this)
      ensures ValidatePaymentRequest(old(borrowings), old(payments), borrowingId, requester).Ok? ==>
        var b := old(borrowings)[ValidatePaymentRequest(old(borrowings), old(payments), borrowingId, requester).value];
        && r == Ok(old(nextPaymentId))
        && payments == old(payments) + PaymentRows(b, old(books)[b.bookId].dailyFee, today, now, old(nextPaymentId))
        && nextPaymentId == old(nextPaymentId) + |payments| - |old(payments)|
        && books == old(books) && borrowings == old(borrowings) && events == old(events)
        && stock == old(stock) && authorIds == old(authorIds)
        && nextBookId == old(nextBookId) && nextBorrowingId == old(nextBorrowingId)
    {
      var check := ValidatePaymentRequest(borrowings, payments, borrowingId, requester);
      if check.Err? {
        return Err(check.error);
      }
      r := Ok(nextPaymentId);
      RecordPayments(check.value, today, now);
    }

    // -------------------------------------------------------------------
    // StripeService.get_or_create_session_for_borrowing

    /**
     * With no PENDING payment of the borrowing nothing happens. Otherwise one
     * session is requested for all of them, newest first; a failure is
     * raised and changes nothing; a created session is stamped on every one
     * of them.
     */
    method EnsureSession(borrowingId: BorrowingId, origin: string, processor: SessionRequest -> GatewayReply)
      returns (r: Result<Option<SessionHandle>, Error>)
      requires Valid() && HasBorrowing(borrowings, borrowingId)
      modifies this
      ensures Valid()
      ensures PendingNewestFirst(old(payments), borrowingId) == [] ==> r == Ok(None) && unchanged(this)
      ensures PendingNewestFirst(old(payments), borrowingId) != [] ==>
        var b := old(borrowings)[FindBorrowing(old(borrowings), borrowingId).value];
        var reply := processor(CheckoutRequest(PendingNewestFirst(old(payments), borrowingId), old(books)[b.bookId].title, origin));
        && (reply.Failed? ==> r == Err(GatewayError) && unchanged(this))
        && (reply.Created? ==>
              && r == Ok(Some(SessionHandle(reply.sessionId, reply.url)))
              && payments == StampPending(old(payments), borrowingId, SessionHandle(reply.sessionId, reply.url))
              && books == old(books) && borrowings == old(borrowings) && events == old(events)
              && stock == old(stock) && authorIds == old(authorIds) && nextBookId == old(nextBookId)
              && nextBorrowingId == old(nextBorrowingId) && nextPaymentId == old(nextPaymentId))
    {
      var pending := PendingNewestFirst(payments, borrowingId);
      if pending == [] {
        return Ok(None);
      }
      var b := borrowings[FindBorrowing(borrowings, borrowingId).value];
      var urls := GetUrls(origin);
      var session := CreateCheckoutSession(EntriesOf(pending, books[b.bookId].title), urls.successUrl, urls.cancelUrl, processor);
      if session.Err? {
        return Err(GatewayError);
      }
      StampPendingWellFormed(borrowings, payments, nextPaymentId, borrowingId, session.value);
      payments := StampPending(payments, borrowingId, session.value);
      r := Ok(Some(session.value));
    }

    // -------------------------------------------------------------------
    // Borrowings: BorrowingReturnSerializer

    /** The copy goes back on the shelf, the return date is recorded and the notification queued. */
    method CompleteReturn(k: nat, today: Day)
      requires Valid() && k < |borrowings| && borrowings[k].IsActive()
      modifies this
      ensures Valid()
      ensures ReturnRecorded(old(books), old(borrowings), old(events), k, today, books, borrowings, events)
      ensures payments == old(payments) && stock == old(stock) && authorIds == old(authorIds)
      ensures nextBookId == old(nextBookId) && nextBorrowingId == old(nextBorrowingId) && nextPaymentId == old(nextPaymentId)
    {
      var b := borrowings[k];
      var returned := b.(actualReturnDate := Some(today));
      ReturnBorrowingWellFormed(books, borrowings, nextBorrowingId, k, returned);
      forall i | HasBorrowing(borrowings, i) ensures HasBorrowing(borrowings[k := returned], i) {
        HasBorrowingAfterUpdate(borrowings, k, returned, i);
      }
      PaymentsWellFormedUnderSameIds(borrowings, borrowings[k := returned], payments, nextPaymentId);
      forall other | other in books ensures ActiveCount(borrowings[k := returned], other) ==
        ActiveCount(borrowings, other) - (if other == b.bookId then 1 else 0)
      {
        ActiveCountUpdate(borrowings, k, returned, other);
      }
      var book := books[b.bookId];
      books := books[b.bookId := book.(inventory := book.inventory + 1)];
      borrowings := borrowings[k := returned];
      events := events + [BorrowingReturned(b.id)];
    }

    /**
     * A first return: the borrowing's payments are created as a payment
     * request would create them (a refused request changes nothing) and a
     * session is opened for them. A gateway failure is raised, but the new
     * rows stay.
     */
    method OpenFirstPayments(k: nat, requester: Requester, today: Day, now: Instant,
                             origin: string, processor: SessionRequest -> GatewayReply)
      returns (r: Result<(), Error>)
      requires Valid() && k < |borrowings| && !HasPayment(payments, borrowings[k].id)
      modifies this
      ensures Valid()
      ensures var s := FirstReturnStep(old(books), old(borrowings), old(payments), old(nextPaymentId),
                                       k, requester, today, now, origin, processor);
        r == s.result && payments == s.payments && nextPaymentId == s.nextPaymentId
      ensures books == old(books) && borrowings == old(borrowings) && events == old(events)
      ensures stock == old(stock) && authorIds == old(authorIds)
      ensures nextBookId == old(nextBookId) && nextBorrowingId == old(nextBorrowingId)
    {
      var b := borrowings[k];
      var request := ValidatePaymentRequest(borrowings, payments, b.id, requester);
      if request.Err? {
        return Err(request.error);
      }
      r := ChargeAndOpen(k, today, now, origin, processor);
    }

    /** Inserts the borrowing's payment rows, then opens one session for its PENDING rows. */
    method ChargeAndOpen(k: nat, today: Day, now: Instant, origin: string, processor: SessionRequest -> GatewayReply)
      returns (r: Result<(), Error>)
      requires Valid() && k < |borrowings| && !HasPending(payments, borrowings[k].id)
      modifies this
      ensures Valid()
      ensures var b := old(borrowings)[k];
        var rows := PaymentRows(b, old(books)[b.bookId].dailyFee, today, now, old(nextPaymentId));
        nextPaymentId == old(nextPaymentId) + |rows| && PendingNewestFirst(old(payments) + rows, b.id) != []
      ensures var b := old(borrowings)[k];
        var rows := PaymentRows(b, old(books)[b.bookId].dailyFee, today, now, old(nextPaymentId));
        var reply := processor(CheckoutRequest(PendingNewestFirst(old(payments) + rows, b.id), old(books)[b.bookId].title, origin));
        && (reply.Failed? ==> r == Err(GatewayError) && payments == old(payments) + rows)
        && (reply.Created? ==>
              r == Ok(()) && payments == StampPending(old(payments) + rows, b.id, SessionHandle(reply.sessionId, reply.url)))
      ensures books == old(books) && borrowings == old(borrowings) && events == old(events)
      ensures stock == old(stock) && authorIds == old(authorIds)
      ensures nextBookId == old(nextBookId) && nextBorrowingId == old(nextBorrowingId)
    {
      var b := borrowings[k];
      ghost var before := payments;
      RecordPayments(k, today, now);
      assert IsPendingOf(payments[|before|], b.id);
      FindBorrowingAt(borrowings, k);
      var session := EnsureSession(b.id, origin, processor);
      if session.Err? {
        return Err(GatewayError);
      }
      r := Ok(());
    }

    /**
     * A first return of the borrowing at position `k`: FirstReturnStep
     * decides the payments; its refusal or gateway failure fails the return
     * (keeping the rows that step inserted), otherwise the return is recorded.
     */
    twostate predicate FirstReturnDone(k: nat, requester: Requester, today: Day, now: Instant,
                                       origin: string, processor: SessionRequest -> GatewayReply, new r: Result<(), Error>)
      requires old(Valid()) && k < old(|borrowings|)
      reads this
    {
      var step := FirstReturnStep(old(books), old(borrowings), old(payments), old(nextPaymentId),
                                  k, requester, today, now, origin, processor);
      && payments == step.payments && nextPaymentId == step.nextPaymentId
      && (step.result.Err? ==>
            r == step.result && books == old(books) && borrowings == old(borrowings) && events == old(events))
      && (step.result.Ok? ==>
            r == Ok(()) && ReturnRecorded(old(books), old(borrowings), old(events), k, today, books, borrowings, events))
    }

    /**
     * What returning the borrowing at position `k` does. A returned
     * borrowing, or one with a PENDING payment returned by a user who is not
     * staff, is refused. A borrowing without any payment goes through
     * FirstReturnDone. Otherwise the return is recorded and the payments are
     * left as they are, even when they are PENDING.
     */
    twostate predicate ReturnedAt(k: nat, requester: Requester, today: Day, now: Instant,
                                  origin: string, processor: SessionRequest -> GatewayReply, new r: Result<(), Error>)
      requires old(Valid()) && k < old(|borrowings|)
      reads this
    {
      var b := old(borrowings)[k];
      var check := ValidateReturn(b, old(payments), requester);
      var first := !HasPayment(old(payments), b.id);
      && (check.Err? ==> r == Err(check.error) && unchanged(this))
      && (check.Ok? && first ==> FirstReturnDone(k, requester, today, now, origin, processor, r))
      && (check.Ok? && !first ==>
            && r == Ok(()) && ReturnRecorded(old(books), old(borrowings), old(events), k, today, books, borrowings, events)
            && payments == old(payments) && nextPaymentId == old(nextPaymentId))
      && stock == old(stock) && authorIds == old(authorIds)
      && nextBookId == old(nextBookId) && nextBorrowingId == old(nextBorrowingId)
    }

    /** A first return: the payment step, then, when it succeeds, the return itself. */
    method FirstReturn(k: nat, requester: Requester, today: Day, now: Instant,
                       origin: string, processor: SessionRequest -> GatewayReply)
      returns (r: Result<(), Error>)
      requires Valid() && k < |borrowings| && ValidateReturn(borrowings[k], payments, requester).Ok?
      requires !HasPayment(payments, borrowings[k].id)
      modifies this
      ensures Valid()
      ensures FirstReturnDone(k, requester, today, now, origin, processor, r)
      ensures stock == old(stock) && authorIds == old(authorIds)
      ensures nextBookId == old(nextBookId) && nextBorrowingId == old(nextBorrowingId)
    {
      r := OpenFirstPayments(k, requester, today, now, origin, processor);
      if r.Ok? {
        CompleteReturn(k, today);
      }
    }

    /** An accepted return: the first-return payment step when due, then the return itself. */
    method ProceedReturn(k: nat, requester: Requester, today: Day, now: Instant,
                         origin: string, processor: SessionRequest -> GatewayReply)
      returns (r: Result<(), Error>)
      requires Valid() && k < |borrowings| && ValidateReturn(borrowings[k], payments, requester).Ok?
      modifies this
      ensures Valid()
      ensures ReturnedAt(k, requester, today, now, origin, processor, r)
    {
      if !HasPayment(payments, borrowings[k].id) {
        r := FirstReturn(k, requester, today, now, origin, processor);
      } else {
        CompleteReturn(k, today);
        r := Ok(());
      }
    }

    method ReturnAt(k: nat, requester: Requester, today: Day, now: Instant,
                    origin: string, processor: SessionRequest -> GatewayReply)
      returns (r: Result<(), Error>)
      requires Valid() && k < |borrowings|
      modifies this
      ensures Valid()
      ensures ReturnedAt(k, requester, today, now, origin, processor, r)
    {
      var check := ValidateReturn(borrowings[k], payments, requester);
      if check.Err? {
        return Err(check.error);
      }
      r := ProceedReturn(k, requester, today, now, origin, processor);
    }

    /** The `return` action: a borrowing the requester may not see is a 404; see ReturnedAt. */
    method ReturnBorrowing(requester: Requester, borrowingId: BorrowingId, today: Day, now: Instant,
                           origin: string, processor: SessionRequest -> GatewayReply)
      returns (r: Result<(), Error>)
      requires Valid()
      modifies this
      ensures Valid()
      ensures var found := FindBorrowing(old(borrowings), borrowingId);
        found.None? || !MayAccess(requester, old(borrowings)[found.value]) ==>
          r == Err(BorrowingNotFound) && unchanged(this)
      ensures var found := FindBorrowing(old(borrowings), borrowingId);
        found.Some? && MayAccess(requester, old(borrowings)[found.value]) ==>
          ReturnedAt(found.value, requester, today, now, origin, processor, r)
    {
      var found := FindBorrowing(borrowings, borrowingId);
      if found.None? || !MayAccess(requester, borrowings[found.value]) {
        return Err(BorrowingNotFound);
      }
      r := ReturnAt(found.value, requester, today, now, origin, processor);
    }
  }
}
