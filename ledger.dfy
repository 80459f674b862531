/**
 * The queries the serializers and views run against the borrowing and
 * payment tables, and the consistency rules every write keeps.
 */
module Ledger {
  import opened Wrappers
  import opened Models
  import opened Seqs

  // ---------------------------------------------------------------------
  // Rows by key

  predicate HasBorrowing(bs: seq<Borrowing>, id: BorrowingId)
  {
    exists i | 0 <= i < |bs| :: bs[i].id == id
  }

  /** Position of the (first) borrowing whose primary key is `id`. */
  function FindBorrowing(bs: seq<Borrowing>, id: BorrowingId): (r: Option<nat>)
    ensures r.Some? ==> r.value < |bs| && bs[r.value].id == id
    ensures r.Some? ==> forall i :: 0 <= i < r.value ==> bs[i].id != id
    ensures r.None? ==> forall i :: 0 <= i < |bs| ==> bs[i].id != id
    ensures r.Some? <==> HasBorrowing(bs, id)
  {
    if bs == [] then None
    else if bs[0].id == id then Some(0)
    else match FindBorrowing(bs[1..], id)
      case None => None
      case Some(k) => Some(k + 1)
  }

  /** With distinct keys the row found is the only one with that key. */
  lemma FindBorrowingAt(bs: seq<Borrowing>, k: nat)
    requires DistinctBorrowingIds(bs) && k < |bs|
    ensures FindBorrowing(bs, bs[k].id) == Some(k)
  {
  }

  /** The borrowing row a payment row belongs to (`payment.borrowing`). */
  function BorrowingOf(bs: seq<Borrowing>, p: Payment): (r: Option<Borrowing>)
    ensures r.Some? <==> HasBorrowing(bs, p.borrowingId)
    ensures r.Some? ==> r.value in bs && r.value.id == p.borrowingId
  {
    match FindBorrowing(bs, p.borrowingId)
    case Some(k) => Some(bs[k])
    case None => None
  }

  /** The payment belongs to a borrowing of `book` by `user`. */
  predicate OfPair(bs: seq<Borrowing>, p: Payment, user: UserId, book: BookId)
  {
    var b := BorrowingOf(bs, p);
    b.Some? && b.value.userId == user && b.value.bookId == book
  }

  // ---------------------------------------------------------------------
  // Borrowing queries

  predicate ActiveOf(b: Borrowing, book: BookId)
  {
    b.bookId == book && b.IsActive()
  }

  /** `Borrowing.objects.filter(book=book, user=user, actual_return_date__isnull=True).exists()` */
  predicate HasActive(bs: seq<Borrowing>, user: UserId, book: BookId)
  {
    exists i | 0 <= i < |bs| :: ActiveOf(bs[i], book) && bs[i].userId == user
  }

  /** Number of active borrowings of `book`: the copies that are out. */
  function ActiveCount(bs: seq<Borrowing>, book: BookId): (n: nat)
    ensures n <= |bs|
  {
    if bs == [] then 0
    else (if ActiveOf(bs[0], book) then 1 else 0) + ActiveCount(bs[1..], book)
  }

  lemma {:induction false} ActiveCountPositive(bs: seq<Borrowing>, book: BookId)
    ensures ActiveCount(bs, book) > 0 <==> exists i :: 0 <= i < |bs| && ActiveOf(bs[i], book)
  {
    if bs != [] {
      ActiveCountPositive(bs[1..], book);
      if ActiveCount(bs[1..], book) > 0 {
        var i :| 0 <= i < |bs[1..]| && ActiveOf(bs[1..][i], book);
        assert ActiveOf(bs[i + 1], book);
      }
      if exists i :: 0 <= i < |bs| && ActiveOf(bs[i], book) {
        var i :| 0 <= i < |bs| && ActiveOf(bs[i], book);
        if i > 0 { assert ActiveOf(bs[1..][i - 1], book); }
      }
    }
  }

  lemma {:induction false} ActiveCountAppend(bs: seq<Borrowing>, x: Borrowing, book: BookId)
    ensures ActiveCount(bs + [x], book) == ActiveCount(bs, book) + (if ActiveOf(x, book) then 1 else 0)
  {
    if bs == [] {
      assert [x][1..] == [];
    } else {
      assert (bs + [x])[1..] == bs[1..] + [x];
      ActiveCountAppend(bs[1..], x, book);
    }
  }

  lemma {:induction false} ActiveCountUpdate(bs: seq<Borrowing>, k: nat, x: Borrowing, book: BookId)
    requires k < |bs|
    ensures ActiveCount(bs[k := x], book)
         == ActiveCount(bs, book) - (if ActiveOf(bs[k], book) then 1 else 0) + (if ActiveOf(x, book) then 1 else 0)
  {
    if k == 0 {
      assert bs[k := x][1..] == bs[1..];
    } else {
      assert bs[k := x][1..] == bs[1..][k - 1 := x];
      ActiveCountUpdate(bs[1..], k - 1, x, book);
    }
  }

  /** Dropping rows that are not active borrowings of `book` does not change its count. */
  lemma {:induction false} ActiveCountFilter(bs: seq<Borrowing>, keep: Borrowing -> bool, book: BookId)
    requires forall i :: 0 <= i < |bs| && ActiveOf(bs[i], book) ==> keep(bs[i])
    ensures ActiveCount(Filter(bs, keep), book) == ActiveCount(bs, book)
  {
    if bs != [] {
      ActiveCountFilter(bs[1..], keep, book);
      var head := if keep(bs[0]) then [bs[0]] else [];
      assert Filter(bs, keep) == head + Filter(bs[1..], keep);
      if keep(bs[0]) {
        assert (head + Filter(bs[1..], keep))[1..] == Filter(bs[1..], keep);
      } else {
        assert head + Filter(bs[1..], keep) == Filter(bs[1..], keep);
      }
    }
  }

  /** A book no borrowing refers to has no copies out. */
  lemma {:induction false} ActiveCountUnreferenced(bs: seq<Borrowing>, book: BookId)
    requires forall i :: 0 <= i < |bs| ==> bs[i].bookId != book
    ensures ActiveCount(bs, book) == 0
  {
    if bs != [] { ActiveCountUnreferenced(bs[1..], book); }
  }

  // ---------------------------------------------------------------------
  // Payment queries

  predicate IsPendingOf(p: Payment, borrowing: BorrowingId)
  {
    p.borrowingId == borrowing && p.status == Pending
  }

  /** `Payment.objects.filter(borrowing=borrowing, status=PENDING).exists()` */
  predicate HasPending(ps: seq<Payment>, borrowing: BorrowingId)
  {
    exists i | 0 <= i < |ps| :: IsPendingOf(ps[i], borrowing)
  }

  /** `Payment.objects.filter(borrowing=borrowing).exists()` */
  predicate HasPayment(ps: seq<Payment>, borrowing: BorrowingId)
  {
    exists i | 0 <= i < |ps| :: ps[i].borrowingId == borrowing
  }

  /**
   * A PENDING payment of any borrowing of `book` by `user`
   * (`borrowing__user=user, borrowing__book=book, status=PENDING`).
   */
  predicate PendingForPair(bs: seq<Borrowing>, ps: seq<Payment>, user: UserId, book: BookId)
  {
    exists i | 0 <= i < |ps| ::
      ps[i].status == Pending && OfPair(bs, ps[i], user, book)
  }

  /** A pending payment of a borrowing is a pending payment of its (user, book) pair. */
  lemma PendingOfBorrowingIsPendingForPair(bs: seq<Borrowing>, ps: seq<Payment>, k: nat)
    requires DistinctBorrowingIds(bs) && k < |bs|
    requires HasPending(ps, bs[k].id)
    ensures PendingForPair(bs, ps, bs[k].userId, bs[k].bookId)
  {
    var i :| 0 <= i < |ps| && IsPendingOf(ps[i], bs[k].id);
    FindBorrowingAt(bs, k);
    assert OfPair(bs, ps[i], bs[k].userId, bs[k].bookId);
  }

  /** The filter `borrowing=borrowing, status=PENDING`. */
  function PendingOf(borrowing: BorrowingId): Payment -> bool
  {
    p => IsPendingOf(p, borrowing)
  }

  /**
   * The borrowing's PENDING payments as the payment table's default
   * ordering (`-created_at`) lists them: rows are inserted in creation
   * order, so the newest row comes first. A borrowing's PENDING rows are
   * the one batch a payment request creates, all with the same `now`, so
   * `-created_at` ties them; the model breaks the tie by reverse table order.
   */
  function PendingNewestFirst(ps: seq<Payment>, borrowing: BorrowingId): (r: seq<Payment>)
    ensures forall p :: p in r ==> p in ps && IsPendingOf(p, borrowing)
    ensures forall i :: 0 <= i < |ps| && IsPendingOf(ps[i], borrowing) ==> ps[i] in r
    ensures r == [] <==> !HasPending(ps, borrowing)
  {
    if ps == [] then []
    else
      var last := ps[|ps| - 1];
      var rest := PendingNewestFirst(ps[..|ps| - 1], borrowing);
      assert forall i :: 0 <= i < |ps| - 1 ==> ps[..|ps| - 1][i] == ps[i];
      (if IsPendingOf(last, borrowing) then [last] else []) + rest
  }

  /** The list is the borrowing's PENDING rows in the table's order, reversed: newest first. */
  lemma {:induction false} PendingNewestFirstOrder(ps: seq<Payment>, borrowing: BorrowingId)
    ensures PendingNewestFirst(ps, borrowing) == Reverse(Filter(ps, PendingOf(borrowing)))
  {
    if ps != [] {
      var init := ps[..|ps| - 1];
      var last := ps[|ps| - 1];
      PendingNewestFirstOrder(init, borrowing);
      var kept := Filter(init, PendingOf(borrowing));
      var tail := Filter([last], PendingOf(borrowing));
      InitLast(ps);
      FilterAppend(init, [last], PendingOf(borrowing));
      assert Filter(ps, PendingOf(borrowing)) == kept + tail;
      if IsPendingOf(last, borrowing) {
        assert tail == [last];
        ReverseSnoc(kept, last);
        assert PendingNewestFirst(ps, borrowing) == [last] + Reverse(kept);
      } else {
        assert tail == [];
        assert kept + tail == kept;
        assert PendingNewestFirst(ps, borrowing) == [] + Reverse(kept);
      }
    }
  }

  // ---------------------------------------------------------------------
  // Consistency of the tables

  predicate DistinctBorrowingIds(bs: seq<Borrowing>)
  {
    forall i, j :: 0 <= i < j < |bs| ==> bs[i].id != bs[j].id
  }

  predicate DistinctPaymentIds(ps: seq<Payment>)
  {
    forall i, j :: 0 <= i < j < |ps| ==> ps[i].id != ps[j].id
  }

  /** At most one active borrowing per (user, book) pair. */
  predicate UniqueActive(bs: seq<Borrowing>)
  {
    forall i, j :: 0 <= i < j < |bs| && bs[i].IsActive() && bs[j].IsActive() ==>
      bs[i].userId != bs[j].userId || bs[i].bookId != bs[j].bookId
  }

  /** At most one PENDING payment of each type per borrowing. */
  predicate OnePendingPerType(ps: seq<Payment>)
  {
    forall i, j ::
      0 <= i < j < |ps| && ps[i].status == Pending && ps[j].status == Pending && ps[i].borrowingId == ps[j].borrowingId
      ==> ps[i].paymentType != ps[j].paymentType
  }

  /** Book rows sit under their own key, below the next key, with a valid fee. */
  predicate BooksWellFormed(books: map<BookId, Book>, nextBookId: nat)
  {
    forall id :: id in books ==> books[id].id == id && id < nextBookId && books[id].dailyFee >= MinAmount
  }

  predicate BorrowingsWellFormed(books: map<BookId, Book>, bs: seq<Borrowing>, nextBorrowingId: nat)
  {
    && (forall i :: 0 <= i < |bs| ==> bs[i].bookId in books && bs[i].id < nextBorrowingId)
    && DistinctBorrowingIds(bs)
    && UniqueActive(bs)
  }

  predicate PaymentsWellFormed(bs: seq<Borrowing>, ps: seq<Payment>, nextPaymentId: nat)
  {
    && (forall i :: 0 <= i < |ps| ==>
          HasBorrowing(bs, ps[i].borrowingId) && ps[i].id < nextPaymentId && ps[i].moneyToPay >= MinAmount)
    && DistinctPaymentIds(ps)
    && OnePendingPerType(ps)
  }

  /**
   * Inventory conservation: for every book, the copies on the shelf plus the
   * copies out on active borrowings equal its stock.
   */
  predicate Balanced(books: map<BookId, Book>, bs: seq<Borrowing>, stock: map<BookId, nat>)
  {
    && stock.Keys == books.Keys
    && forall id :: id in books ==> books[id].inventory + ActiveCount(bs, id) == stock[id]
  }

  /** Every rule at once, over the whole database. */
  predicate WellFormed(books: map<BookId, Book>, bs: seq<Borrowing>, ps: seq<Payment>, stock: map<BookId, nat>,
                       nextBook: nat, nextBorrowing: nat, nextPayment: nat)
  {
    && BooksWellFormed(books, nextBook)
    && BorrowingsWellFormed(books, bs, nextBorrowing)
    && PaymentsWellFormed(bs, ps, nextPayment)
    && Balanced(books, bs, stock)
  }

  // ---------------------------------------------------------------------
  // Writes keep the rules

  /** Inserting an active borrowing of a pair with none keeps the borrowing rules. */
  lemma InsertBorrowingWellFormed(books: map<BookId, Book>, bs: seq<Borrowing>, next: nat, x: Borrowing)
    requires BorrowingsWellFormed(books, bs, next)
    requires x.bookId in books && x.id == next && x.IsActive()
    requires !HasActive(bs, x.userId, x.bookId)
    ensures BorrowingsWellFormed(books, bs + [x], next + 1)
  {
    var bs' := bs + [x];
    forall i, j | 0 <= i < j < |bs'| && bs'[i].IsActive() && bs'[j].IsActive()
      ensures bs'[i].userId != bs'[j].userId || bs'[i].bookId != bs'[j].bookId
    {
      if j == |bs| {
        assert !(ActiveOf(bs[i], x.bookId) && bs[i].userId == x.userId);
      }
    }
  }

  /** Updating a borrowing under the same key and book, to a returned row, keeps the rules. */
  lemma ReturnBorrowingWellFormed(books: map<BookId, Book>, bs: seq<Borrowing>, next: nat, k: nat, x: Borrowing)
    requires BorrowingsWellFormed(books, bs, next) && k < |bs|
    requires x.id == bs[k].id && x.bookId == bs[k].bookId && !x.IsActive()
    ensures BorrowingsWellFormed(books, bs[k := x], next)
  {
  }

  /** Payment rows keep referring to borrowings when a borrowing is changed in place. */
  lemma PaymentsWellFormedUnderSameIds(bs: seq<Borrowing>, bs': seq<Borrowing>, ps: seq<Payment>, next: nat)
    requires PaymentsWellFormed(bs, ps, next)
    requires forall id :: HasBorrowing(bs, id) ==> HasBorrowing(bs', id)
    ensures PaymentsWellFormed(bs', ps, next)
  {
  }

  lemma HasBorrowingAfterAppend(bs: seq<Borrowing>, x: Borrowing, id: BorrowingId)
    requires HasBorrowing(bs, id)
    ensures HasBorrowing(bs + [x], id)
  {
    var i :| 0 <= i < |bs| && bs[i].id == id;
    assert (bs + [x])[i].id == id;
  }

  lemma HasBorrowingAfterUpdate(bs: seq<Borrowing>, k: nat, x: Borrowing, id: BorrowingId)
    requires k < |bs| && x.id == bs[k].id
    requires HasBorrowing(bs, id)
    ensures HasBorrowing(bs[k := x], id)
  {
    var i :| 0 <= i < |bs| && bs[i].id == id;
    assert bs[k := x][i].id == id;
  }

  /**
   * Appending the new rows of a borrowing that has no PENDING payment keeps
   * the payment rules, when the rows are one PENDING rental and at most one
   * PENDING fine under fresh keys.
   */
  lemma AppendPaymentRowsWellFormed(bs: seq<Borrowing>, ps: seq<Payment>, next: nat, rows: seq<Payment>)
    requires PaymentsWellFormed(bs, ps, next)
    requires 1 <= |rows| <= 2
    requires forall i :: 0 <= i < |rows| ==>
      rows[i].id == next + i && HasBorrowing(bs, rows[i].borrowingId) && rows[i].moneyToPay >= MinAmount
      && rows[i].borrowingId == rows[0].borrowingId
    requires rows[0].paymentType == Rental && (|rows| == 2 ==> rows[1].paymentType == Fine)
    requires !HasPending(ps, rows[0].borrowingId)
    ensures PaymentsWellFormed(bs, ps + rows, next + |rows|)
  {
    var ps' := ps + rows;
    var b := rows[0].borrowingId;
    assert forall i :: 0 <= i < |ps| ==> !IsPendingOf(ps[i], b);
    assert forall i :: 0 <= i < |ps| ==> ps'[i] == ps[i];
    assert forall i :: |ps| <= i < |ps'| ==> ps'[i] == rows[i - |ps|];
  }

  // ---------------------------------------------------------------------
  // Deleting a book

  function NotOfBook(book: BookId): Borrowing -> bool
  {
    (b: Borrowing) => b.bookId != book
  }

  function OfRemaining(bs: seq<Borrowing>): Payment -> bool
  {
    (p: Payment) => HasBorrowing(bs, p.borrowingId)
  }

  /** The borrowings left when a book is deleted: its own rows cascade away. */
  function WithoutBook(bs: seq<Borrowing>, book: BookId): (r: seq<Borrowing>)
    ensures forall b :: b in r <==> b in bs && b.bookId != book
  {
    forall b ensures b in Filter(bs, NotOfBook(book)) <==> b in bs && NotOfBook(book)(b) {
      FilterMembership(bs, NotOfBook(book), b);
    }
    Filter(bs, NotOfBook(book))
  }

  /** The payments left: those whose borrowing is still there. */
  function PaymentsOfRemaining(ps: seq<Payment>, bs: seq<Borrowing>): (r: seq<Payment>)
    ensures forall p :: p in r <==> p in ps && HasBorrowing(bs, p.borrowingId)
  {
    forall p ensures p in Filter(ps, OfRemaining(bs)) <==> p in ps && OfRemaining(bs)(p) {
      FilterMembership(ps, OfRemaining(bs), p);
    }
    Filter(ps, OfRemaining(bs))
  }

  /** The borrowings left keep their rules, within the books left. */
  lemma WithoutBookWellFormed(books: map<BookId, Book>, bs: seq<Borrowing>, next: nat, book: BookId)
    requires BorrowingsWellFormed(books, bs, next)
    ensures BorrowingsWellFormed(books - {book}, WithoutBook(bs, book), next)
  {
    var bs' := WithoutBook(bs, book);
    FilterPairwise(bs, NotOfBook(book), (x: Borrowing, y: Borrowing) => x.id != y.id);
    FilterPairwise(bs, NotOfBook(book), (x: Borrowing, y: Borrowing) =>
      x.IsActive() && y.IsActive() ==> x.userId != y.userId || x.bookId != y.bookId);
    assert forall i :: 0 <= i < |bs'| ==> bs'[i] in bs;
  }

  /** The payments left keep their rules, against any borrowings left. */
  lemma PaymentsOfRemainingWellFormed(bs: seq<Borrowing>, bs': seq<Borrowing>, ps: seq<Payment>, next: nat)
    requires PaymentsWellFormed(bs, ps, next)
    ensures PaymentsWellFormed(bs', PaymentsOfRemaining(ps, bs'), next)
  {
    var ps' := PaymentsOfRemaining(ps, bs');
    FilterPairwise(ps, OfRemaining(bs'), (x: Payment, y: Payment) => x.id != y.id);
    FilterPairwise(ps, OfRemaining(bs'), (x: Payment, y: Payment) =>
      x.status == Pending && y.status == Pending && x.borrowingId == y.borrowingId ==> x.paymentType != y.paymentType);
    assert forall i :: 0 <= i < |ps'| ==> ps'[i] in ps;
  }

  /** The other books keep their copies out, so their stock still balances. */
  lemma WithoutBookBalanced(books: map<BookId, Book>, bs: seq<Borrowing>, stock: map<BookId, nat>, book: BookId)
    requires Balanced(books, bs, stock)
    ensures Balanced(books - {book}, WithoutBook(bs, book), stock - {book})
  {
    forall id | id in books && id != book
      ensures ActiveCount(WithoutBook(bs, book), id) == ActiveCount(bs, id)
    {
      ActiveCountFilter(bs, NotOfBook(book), id);
    }
  }

  /**
   * Deleting a book with no active borrowing, together with its borrowings
   * and their payments, keeps every rule, and the other books' stock.
   */
  lemma DestroyWellFormed(books: map<BookId, Book>, bs: seq<Borrowing>, ps: seq<Payment>, stock: map<BookId, nat>,
                          nextBook: nat, nextBorrowing: nat, nextPayment: nat, book: BookId)
    requires WellFormed(books, bs, ps, stock, nextBook, nextBorrowing, nextPayment)
    requires book in books && ActiveCount(bs, book) == 0
    ensures WellFormed(books - {book}, WithoutBook(bs, book), PaymentsOfRemaining(ps, WithoutBook(bs, book)),
                       stock - {book}, nextBook, nextBorrowing, nextPayment)
  {
    WithoutBookWellFormed(books, bs, nextBorrowing, book);
    PaymentsOfRemainingWellFormed(bs, WithoutBook(bs, book), ps, nextPayment);
    WithoutBookBalanced(books, bs, stock, book);
  }
}
