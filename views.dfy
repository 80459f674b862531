/**
 * The view-level rules (library/views.py): which permission classes an
 * action gets, which borrowings and payments a requester is shown, in what
 * order, and when a book may be deleted.
 */
module Views {
  import opened Wrappers
  import opened Models
  import opened Api
  import opened Ledger
  import opened Seqs

  // ---------------------------------------------------------------------
  // Permissions: LibraryBaseViewSet.get_permissions

  datatype PermissionClass = IsAdminUser | IsAdminOrIfAuthenticatedReadOnly | IsAuthenticated

  const WriteActions: set<string> := {"create", "update", "partial_update", "destroy"}

  /** Writes need an admin; every other action gets the read-only-unless-admin class. */
  function GetPermissions(action: string): (r: seq<PermissionClass>)
    ensures r == [IsAdminUser] <==> action in WriteActions
    ensures r == [IsAdminUser] || r == [IsAdminOrIfAuthenticatedReadOnly]
  {
    if action in WriteActions then [IsAdminUser] else [IsAdminOrIfAuthenticatedReadOnly]
  }

  datatype ViewSet = AuthorViewSet | BookViewSet | BorrowingViewSet | PaymentViewSet

  /** The `permission_classes` a view set declares for itself. */
  function DeclaredPermissionClasses(v: ViewSet): (r: Option<seq<PermissionClass>>)
    ensures r.Some? <==> v == BorrowingViewSet || v == PaymentViewSet
    ensures r.Some? ==> r.value == [IsAuthenticated]
  {
    match v
    case BorrowingViewSet => Some([IsAuthenticated])
    case PaymentViewSet => Some([IsAuthenticated])
    case _ => None
  }

  /**
   * Whether a permission class admits an authenticated requester. The
   * read-only-unless-admin class is taken to mean what its name says
   * (staff, or a safe method); its definition is not part of this model.
   */
  predicate Grants(p: PermissionClass, requester: Requester, safeMethod: bool)
  {
    match p
    case IsAdminUser => requester.isStaff
    case IsAuthenticated => true
    case IsAdminOrIfAuthenticatedReadOnly => requester.isStaff || safeMethod
  }

  predicate AllGrant(ps: seq<PermissionClass>, requester: Requester, safeMethod: bool)
  {
    forall i :: 0 <= i < |ps| ==> Grants(ps[i], requester, safeMethod)
  }

  /**
   * As written every view set inherits `get_permissions`, which never reads
   * `permission_classes`: the borrowing and payment view sets declare the
   * authenticated class, yet their create and return actions get other
   * classes, and a user who is not staff is refused when borrowing,
   * returning or paying.
   */
  lemma BorrowerCannotCreateBorrowing(requester: Requester)
    requires !requester.isStaff
    ensures DeclaredPermissionClasses(BorrowingViewSet) == Some([IsAuthenticated])
    ensures DeclaredPermissionClasses(PaymentViewSet) == Some([IsAuthenticated])
    ensures GetPermissions("create") != [IsAuthenticated]
    ensures GetPermissions("return_book") != [IsAuthenticated]
    ensures !AllGrant(GetPermissions("create"), requester, false)
    ensures !AllGrant(GetPermissions("return_book"), requester, false)
  {
    assert GetPermissions("create")[0] == IsAdminUser;
    assert "return_book" !in WriteActions;
    assert GetPermissions("return_book")[0] == IsAdminOrIfAuthenticatedReadOnly;
  }

  /** A view set's declared classes win; the others get the base rule. */
  function IntendedPermissions(v: ViewSet, action: string): (r: seq<PermissionClass>)
    ensures DeclaredPermissionClasses(v).Some? ==> r == DeclaredPermissionClasses(v).value
    ensures DeclaredPermissionClasses(v).None? ==> r == GetPermissions(action)
  {
    match DeclaredPermissionClasses(v)
    case Some(ps) => ps
    case None => GetPermissions(action)
  }

  /** With the declared classes in force, any authenticated user may borrow, return and pay. */
  lemma AuthenticatedUserMayBorrow(requester: Requester, action: string, safeMethod: bool)
    ensures AllGrant(IntendedPermissions(BorrowingViewSet, action), requester, safeMethod)
    ensures AllGrant(IntendedPermissions(PaymentViewSet, action), requester, safeMethod)
  {
  }

  // ---------------------------------------------------------------------
  // The `is_active` query parameter

  function LowerChar(c: char): char
  {
    if 'A' <= c <= 'Z' then (c as int + 32) as char else c
  }

  /** `str.lower()` on ASCII letters, which is all that can turn into "true" or "false". */
  function Lower(s: string): (r: string)
    ensures |r| == |s| && forall i :: 0 <= i < |s| ==> r[i] == LowerChar(s[i])
  {
    seq(|s|, i requires 0 <= i < |s| => LowerChar(s[i]))
  }

  datatype ActiveFilter = OnlyActive | OnlyReturned | NoFilter

  /** "true" and "false", in any case, select; an absent or other value does not filter. */
  function ParseActiveFilter(param: Option<string>): (f: ActiveFilter)
    ensures f == OnlyActive <==> param.Some? && Lower(param.value) == "true"
    ensures f == OnlyReturned <==> param.Some? && Lower(param.value) == "false"
    ensures f == NoFilter <==> param.None? || (Lower(param.value) != "true" && Lower(param.value) != "false")
  {
    match param
    case None => NoFilter
    case Some(v) =>
      if Lower(v) == "true" then OnlyActive
      else if Lower(v) == "false" then OnlyReturned
      else NoFilter
  }

  lemma ActiveFilterExamples()
    ensures ParseActiveFilter(Some("True")) == OnlyActive
    ensures ParseActiveFilter(Some("FALSE")) == OnlyReturned
    ensures ParseActiveFilter(Some("yes")) == NoFilter
  {
    assert Lower("True") == "true";
    assert Lower("FALSE") == "false";
    assert Lower("yes") == "yes";
  }

  predicate Matches(f: ActiveFilter, b: Borrowing)
  {
    match f
    case OnlyActive => b.IsActive()
    case OnlyReturned => !b.IsActive()
    case NoFilter => true
  }

  // ---------------------------------------------------------------------
  // Ordering by borrow date

  predicate SortedByBorrowDate(s: seq<Borrowing>)
  {
    forall i, j :: 0 <= i < j < |s| ==> s[i].borrowDate <= s[j].borrowDate
  }

  function InsertByBorrowDate(x: Borrowing, s: seq<Borrowing>): (r: seq<Borrowing>)
    ensures multiset(r) == multiset(s) + multiset{x}
    ensures |r| == |s| + 1
  {
    if s == [] then [x]
    else if x.borrowDate <= s[0].borrowDate then [x] + s
    else
      assert s == [s[0]] + s[1..];
      [s[0]] + InsertByBorrowDate(x, s[1..])
  }

  /** A borrowing no later than the head of a sorted sequence can go in front of it. */
  lemma ConsSortedByBorrowDate(y: Borrowing, t: seq<Borrowing>)
    requires SortedByBorrowDate(t)
    requires |t| > 0 ==> y.borrowDate <= t[0].borrowDate
    ensures SortedByBorrowDate([y] + t)
  {
    var r := [y] + t;
    forall i, j | 0 <= i < j < |r| ensures r[i].borrowDate <= r[j].borrowDate {
      assert r[j] == t[j - 1];
      if i > 0 {
        assert r[i] == t[i - 1];
      } else if j > 1 {
        assert t[0].borrowDate <= t[j - 1].borrowDate;
      }
    }
  }

  /** Inserting into a sorted sequence keeps it sorted; the first element is the new one or the old first. */
  lemma {:induction false} InsertByBorrowDateSorted(x: Borrowing, s: seq<Borrowing>)
    requires SortedByBorrowDate(s)
    ensures SortedByBorrowDate(InsertByBorrowDate(x, s))
    ensures InsertByBorrowDate(x, s)[0] == x || (|s| > 0 && InsertByBorrowDate(x, s)[0] == s[0])
  {
    if s == [] {
    } else if x.borrowDate <= s[0].borrowDate {
      ConsSortedByBorrowDate(x, s);
    } else {
      var tail := s[1..];
      assert SortedByBorrowDate(tail) by {
        forall i, j | 0 <= i < j < |tail| ensures tail[i].borrowDate <= tail[j].borrowDate {
          assert tail[i] == s[i + 1] && tail[j] == s[j + 1];
        }
      }
      InsertByBorrowDateSorted(x, tail);
      var rest := InsertByBorrowDate(x, tail);
      assert |tail| > 0 ==> s[0].borrowDate <= tail[0].borrowDate by {
        if |tail| > 0 {
          assert tail[0] == s[1];
        }
      }
      ConsSortedByBorrowDate(s[0], rest);
    }
  }

  /** `order_by("borrow_date")`: the same rows, earliest borrow date first. */
  function SortByBorrowDate(s: seq<Borrowing>): (r: seq<Borrowing>)
    ensures SortedByBorrowDate(r)
    ensures multiset(r) == multiset(s)
  {
    if s == [] then []
    else
      assert s == [s[0]] + s[1..];
      InsertByBorrowDateSorted(s[0], SortByBorrowDate(s[1..]));
      InsertByBorrowDate(s[0], SortByBorrowDate(s[1..]))
  }

  // ---------------------------------------------------------------------
  // BorrowingViewSet.get_queryset

  predicate Listed(requester: Requester, f: ActiveFilter, b: Borrowing)
  {
    MayAccess(requester, b) && Matches(f, b)
  }

  /**
   * Staff see every borrowing, other users their own; the `is_active`
   * parameter narrows to unreturned or returned rows; the result is ordered
   * by borrow date.
   */
  function BorrowingQuery(bs: seq<Borrowing>, requester: Requester, isActive: Option<string>): (r: seq<Borrowing>)
    ensures SortedByBorrowDate(r)
    ensures forall b :: b in r <==> b in bs && MayAccess(requester, b) && Matches(ParseActiveFilter(isActive), b)
    ensures multiset(r) <= multiset(bs)
  {
    var f := ParseActiveFilter(isActive);
    var kept := Filter(bs, b => Listed(requester, f, b));
    FilterMultiset(bs, b => Listed(requester, f, b));
    forall b ensures b in kept <==> b in bs && Listed(requester, f, b) {
      FilterMembership(bs, b => Listed(requester, f, b), b);
    }
    var r := SortByBorrowDate(kept);
    forall b ensures b in r <==> b in bs && Listed(requester, f, b) {
      assert b in r <==> b in multiset(r);
      assert b in kept <==> b in multiset(kept);
    }
    r
  }

  /** Without the parameter a user who is not staff sees exactly their own borrowings. */
  lemma OwnBorrowingsOnly(bs: seq<Borrowing>, requester: Requester)
    requires !requester.isStaff
    ensures forall b :: b in BorrowingQuery(bs, requester, None) <==> b in bs && b.userId == requester.userId
  {
  }

  // ---------------------------------------------------------------------
  // PaymentViewSet.get_queryset and the `pending` action

  /** The payment belongs to a borrowing of `user`. */
  predicate OwnedBy(bs: seq<Borrowing>, p: Payment, user: UserId)
  {
    var b := BorrowingOf(bs, p);
    b.Some? && b.value.userId == user
  }

  predicate PaymentVisible(bs: seq<Borrowing>, requester: Requester, p: Payment)
  {
    requester.isStaff || OwnedBy(bs, p, requester.userId)
  }

  /** Staff see every payment, other users the payments of their own borrowings. */
  function PaymentQuery(ps: seq<Payment>, bs: seq<Borrowing>, requester: Requester): (r: seq<Payment>)
    ensures forall p :: p in r <==> p in ps && PaymentVisible(bs, requester, p)
    ensures |r| <= |ps|
  {
    forall p ensures p in Filter(ps, p => PaymentVisible(bs, requester, p)) <==> p in ps && PaymentVisible(bs, requester, p) {
      FilterMembership(ps, p => PaymentVisible(bs, requester, p), p);
    }
    Filter(ps, p => PaymentVisible(bs, requester, p))
  }

  /** The `pending` action: the requester's own PENDING payments, staff included. */
  function PendingPayments(ps: seq<Payment>, bs: seq<Borrowing>, requester: Requester): (r: seq<Payment>)
    ensures forall p :: p in r <==> p in ps && OwnedBy(bs, p, requester.userId) && p.status == Pending
  {
    var visible := PaymentQuery(ps, bs, requester);
    forall p ensures p in Filter(visible, p => OwnedBy(bs, p, requester.userId) && p.status == Pending)
                 <==> p in visible && OwnedBy(bs, p, requester.userId) && p.status == Pending {
      FilterMembership(visible, p => OwnedBy(bs, p, requester.userId) && p.status == Pending, p);
    }
    Filter(visible, p => OwnedBy(bs, p, requester.userId) && p.status == Pending)
  }

  // ---------------------------------------------------------------------
  // BookViewSet.destroy

  /**
   * A missing book is a 404; a book with active borrowings is refused with
   * their number; otherwise it may be deleted.
   */
  function DestroyCheck(books: map<BookId, Book>, bs: seq<Borrowing>, id: BookId): (r: Result<(), Error>)
    ensures r.Ok? <==> id in books && !exists i :: 0 <= i < |bs| && ActiveOf(bs[i], id)
    ensures id !in books ==> r == Err(BookNotFound)
    ensures id in books && r.Err? ==> r.error.ActiveBorrowingsExist? && r.error.count == ActiveCount(bs, id) > 0
  {
    ActiveCountPositive(bs, id);
    if id !in books then Err(BookNotFound)
    else if exists i | 0 <= i < |bs| :: ActiveOf(bs[i], id) then Err(ActiveBorrowingsExist(ActiveCount(bs, id)))
    else Ok(())
  }
}
