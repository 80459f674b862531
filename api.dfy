/**
 * What every request brings to the core: the authenticated requester, and
 * the refusals the serializers and views raise.
 */
module Api {
  import opened Models

  /** The authenticated user behind a request; staff users are privileged. */
  datatype Requester = Requester(userId: UserId, isStaff: bool)

  /** A borrowing is visible to its owner and to every staff user. */
  predicate MayAccess(requester: Requester, b: Borrowing)
  {
    requester.isStaff || b.userId == requester.userId
  }

  datatype Error =
    // a primary key that matches no visible row (a 404, or "invalid pk")
    | BookNotFound
    | BorrowingNotFound
    // borrowing creation
    | ReturnDateInPast
    | DuplicateActiveBorrowing
    | OutOfStock
    // borrowing return
    | AlreadyReturned
    | UnpaidBalance
    // payment creation
    | NotOwner
    | DuplicatePendingPayment
    | PendingForBorrowing
    // the payment gateway
    | NoPaymentsProvided
    | GatewayError
    // book writes
    | InvalidTitle
    | InvalidInventory
    | InvalidDailyFee
    | UnknownAuthor
    | RequiredFieldMissing
    | ActiveBorrowingsExist(count: nat)
}
