/**
 * The payment-session bridge (library/stripe_system.py): the checkout
 * request built for a group of payments, the metadata that names them,
 * and the session handle stamped back onto the rows. The payment
 * processor itself is a parameter: a function from the request it is sent
 * to its reply.
 */
module Stripe {
  import opened Wrappers
  import opened Models
  import opened Api
  import opened Ledger

  // ---------------------------------------------------------------------
  // Decimal text of keys, `str(id)`

  predicate IsDigit(c: char)
  {
    '0' <= c <= '9'
  }

  predicate IsDigits(s: string)
  {
    |s| > 0 && forall i :: 0 <= i < |s| ==> IsDigit(s[i])
  }

  function DecimalString(n: nat): (s: string)
    ensures IsDigits(s)
  {
    var last := (('0' as int) + n % 10) as char;
    if n < 10 then [last] else DecimalString(n / 10) + [last]
  }

  function ParseDecimal(s: string): nat
    requires forall i :: 0 <= i < |s| ==> IsDigit(s[i])
  {
    if s == [] then 0
    else
      var c := s[|s| - 1];
      assert IsDigit(c);
      ParseDecimal(s[..|s| - 1]) * 10 + (c as int - '0' as int)
  }

  lemma {:induction false} DecimalRoundTrip(n: nat)
    ensures ParseDecimal(DecimalString(n)) == n
  {
    var s := DecimalString(n);
    if n >= 10 {
      DecimalRoundTrip(n / 10);
      assert s[..|s| - 1] == DecimalString(n / 10);
    }
  }

  // ---------------------------------------------------------------------
  // `",".join(parts)` and its inverse, `s.split(",")`

  function Join(parts: seq<string>): string
  {
    if parts == [] then ""
    else if |parts| == 1 then parts[0]
    else parts[0] + "," + Join(parts[1..])
  }

  function Split(s: string): (r: seq<string>)
    ensures |r| >= 1
  {
    if s == [] then [""]
    else if s[0] == ',' then [""] + Split(s[1..])
    else
      var rest := Split(s[1..]);
      [[s[0]] + rest[0]] + rest[1..]
  }

  lemma {:induction false} SplitWithoutComma(a: string)
    requires ',' !in a
    ensures Split(a) == [a]
  {
    if a != [] {
      SplitWithoutComma(a[1..]);
      assert [a[0]] + a[1..] == a;
    }
  }

  lemma {:induction false} SplitAfterPart(a: string, rest: string)
    requires ',' !in a
    ensures Split(a + "," + rest) == [a] + Split(rest)
  {
    var s := a + "," + rest;
    if a == [] {
      assert s[0] == ',' && s[1..] == rest;
    } else {
      assert s[0] == a[0] && s[1..] == a[1..] + "," + rest;
      SplitAfterPart(a[1..], rest);
      assert [a[0]] + a[1..] == a;
    }
  }

  /** Splitting a join of comma-free parts gives the parts back. */
  lemma {:induction false} SplitJoin(parts: seq<string>)
    requires |parts| >= 1
    requires forall i :: 0 <= i < |parts| ==> ',' !in parts[i]
    ensures Split(Join(parts)) == parts
  {
    if |parts| == 1 {
      SplitWithoutComma(parts[0]);
    } else {
      SplitJoin(parts[1..]);
      SplitAfterPart(parts[0], Join(parts[1..]));
      assert [parts[0]] + parts[1..] == parts;
    }
  }

  // ---------------------------------------------------------------------
  // The `payment_ids` metadata

  function IdStrings(ids: seq<nat>): (r: seq<string>)
    ensures |r| == |ids|
  {
    seq(|ids|, i requires 0 <= i < |ids| => DecimalString(ids[i]))
  }

  /** Reads a `payment_ids` value back into keys. */
  function ParseIdList(s: string): Option<seq<nat>>
  {
    var parts := Split(s);
    if forall i :: 0 <= i < |parts| ==> IsDigits(parts[i]) then
      Some(seq(|parts|, i requires 0 <= i < |parts| => ParseDecimal(parts[i])))
    else
      None
  }

  /** The comma-joined keys name exactly the payments, in their order. */
  lemma IdListRoundTrip(ids: seq<nat>)
    requires |ids| >= 1
    ensures ParseIdList(Join(IdStrings(ids))) == Some(ids)
  {
    var parts := IdStrings(ids);
    forall i | 0 <= i < |parts| ensures ',' !in parts[i] {
      assert IsDigits(parts[i]);
      assert forall k :: 0 <= k < |parts[i]| ==> parts[i][k] != ',';
    }
    SplitJoin(parts);
    assert forall i :: 0 <= i < |parts| ==> IsDigits(parts[i]);
    var values := seq(|parts|, i requires 0 <= i < |parts| => ParseDecimal(parts[i]));
    forall i | 0 <= i < |ids| ensures values[i] == ids[i] {
      DecimalRoundTrip(ids[i]);
    }
    assert values == ids;
  }

  // ---------------------------------------------------------------------
  // The checkout request

  datatype LineItem = LineItem(currency: string, unitAmount: Cents, name: string, description: string, quantity: nat)
  datatype Metadata = Metadata(paymentIds: string, borrowingId: string)
  datatype SessionRequest = SessionRequest(
    paymentMethodTypes: seq<string>,
    lineItems: seq<LineItem>,
    mode: string,
    successUrl: string,
    cancelUrl: string,
    metadata: Metadata)

  /** A payment to be charged, with the title of its borrowing's book. */
  datatype CheckoutEntry = CheckoutEntry(payment: Payment, bookTitle: string)

  /** What the processor answers when asked to create a session. */
  datatype GatewayReply = Created(sessionId: string, url: string) | Failed

  datatype SessionHandle = SessionHandle(sessionId: string, sessionUrl: string)

  /**
   * The line item of one payment: its amount in cents (`int(money_to_pay * 100)`
   * is exact on a two-decimal amount), charged once.
   */
  function LineItemFor(e: CheckoutEntry): (item: LineItem)
    ensures item.unitAmount == e.payment.moneyToPay && item.quantity == 1 && item.currency == "usd"
  {
    LineItem("usd", e.payment.moneyToPay,
             TypeLabel(e.payment.paymentType) + " for borrowing #" + DecimalString(e.payment.borrowingId),
             "Book: " + e.bookTitle, 1)
  }

  function PaymentIdsOf(entries: seq<CheckoutEntry>): (ids: seq<nat>)
    ensures |ids| == |entries|
  {
    seq(|entries|, i requires 0 <= i < |entries| => entries[i].payment.id)
  }

  /**
   * The request for one session covering `entries`: a line item per payment
   * in the given order, and metadata naming every payment and the first
   * payment's borrowing.
   */
  function SessionRequestFor(entries: seq<CheckoutEntry>, successUrl: string, cancelUrl: string): (r: SessionRequest)
    requires |entries| > 0
    ensures |r.lineItems| == |entries|
    ensures forall i :: 0 <= i < |entries| ==> r.lineItems[i] == LineItemFor(entries[i])
    ensures ParseIdList(r.metadata.paymentIds) == Some(PaymentIdsOf(entries))
    ensures r.metadata.borrowingId == DecimalString(entries[0].payment.borrowingId)
    ensures r.successUrl == successUrl && r.cancelUrl == cancelUrl
  {
    IdListRoundTrip(PaymentIdsOf(entries));
    SessionRequest(
      ["card"],
      seq(|entries|, i requires 0 <= i < |entries| => LineItemFor(entries[i])),
      "payment",
      successUrl,
      cancelUrl,
      Metadata(Join(IdStrings(PaymentIdsOf(entries))), DecimalString(entries[0].payment.borrowingId)))
  }

  /** `create_checkout_session` up to the processor call: refuses an empty group, else builds the request. */
  method BuildSessionRequest(entries: seq<CheckoutEntry>, successUrl: string, cancelUrl: string)
    returns (r: Result<SessionRequest, Error>)
    ensures |entries| == 0 ==> r == Err(NoPaymentsProvided)
    ensures |entries| > 0 ==> r == Ok(SessionRequestFor(entries, successUrl, cancelUrl))
  {
    if |entries| == 0 {
      return Err(NoPaymentsProvided);
    }
    var lineItems: seq<LineItem> := [];
    var paymentIds: seq<string> := [];
    for i := 0 to |entries|
      invariant |lineItems| == i && |paymentIds| == i
      invariant forall k :: 0 <= k < i ==> lineItems[k] == LineItemFor(entries[k])
      invariant forall k :: 0 <= k < i ==> paymentIds[k] == DecimalString(entries[k].payment.id)
    {
      paymentIds := paymentIds + [DecimalString(entries[i].payment.id)];
      lineItems := lineItems + [LineItemFor(entries[i])];
    }
    var expected := SessionRequestFor(entries, successUrl, cancelUrl);
    assert lineItems == expected.lineItems;
    assert paymentIds == IdStrings(PaymentIdsOf(entries));
    r := Ok(SessionRequest(["card"], lineItems, "payment", successUrl, cancelUrl,
                           Metadata(Join(paymentIds), DecimalString(entries[0].payment.borrowingId))));
  }

  function HandleOf(reply: GatewayReply): (r: Result<SessionHandle, Error>)
    ensures r.Ok? <==> reply.Created?
    ensures r.Ok? ==> r.value == SessionHandle(reply.sessionId, reply.url)
  {
    match reply
    case Created(id, url) => Ok(SessionHandle(id, url))
    case Failed => Err(GatewayError)
  }

  /**
   * `create_checkout_session`: an empty group is refused before the processor
   * is asked; otherwise the processor's reply becomes the session handle, and
   * its error is raised.
   */
  method CreateCheckoutSession(entries: seq<CheckoutEntry>, successUrl: string, cancelUrl: string,
                               processor: SessionRequest -> GatewayReply)
    returns (r: Result<SessionHandle, Error>)
    ensures |entries| == 0 ==> r == Err(NoPaymentsProvided)
    ensures |entries| > 0 ==> r == HandleOf(processor(SessionRequestFor(entries, successUrl, cancelUrl)))
  {
    var request := BuildSessionRequest(entries, successUrl, cancelUrl);
    if request.Err? {
      return Err(request.error);
    }
    var reply := processor(request.value);
    r := HandleOf(reply);
  }

  // ---------------------------------------------------------------------
  // `_get_urls`

  datatype Urls = Urls(successUrl: string, cancelUrl: string)

  const SuccessPath := "/api/payments/success/"
  const SessionPlaceholder := "?session_id={CHECKOUT_SESSION_ID}"
  const CancelPath := "/api/payments/cancel/"

  /** `request.build_absolute_uri(path)`: the request's origin followed by the path. */
  function AbsoluteUri(origin: string, path: string): string
  {
    origin + path
  }

  function GetUrls(origin: string): (u: Urls)
    ensures |u.successUrl| >= |origin| && |u.cancelUrl| >= |origin|
    ensures u.successUrl[..|origin|] == origin && u.cancelUrl[..|origin|] == origin
    ensures u.successUrl[|origin|..] == SuccessPath + SessionPlaceholder
    ensures u.cancelUrl[|origin|..] == CancelPath
  {
    Urls(AbsoluteUri(origin, SuccessPath) + SessionPlaceholder, AbsoluteUri(origin, CancelPath))
  }

  // ---------------------------------------------------------------------
  // `is_session_paid`

  /** What the processor answers when asked for a session. */
  datatype RetrieveReply = Retrieved(paymentStatus: string) | RetrieveFailed

  /** Paid exactly when the processor reports the status "paid"; a failed lookup reads as unpaid. */
  function IsSessionPaid(sessionId: string, retrieve: string -> RetrieveReply): (paid: bool)
    ensures paid <==> retrieve(sessionId) == Retrieved("paid")
    ensures retrieve(sessionId) == RetrieveFailed ==> !paid
  {
    match retrieve(sessionId)
    case Retrieved(status) => status == "paid"
    case RetrieveFailed => false
  }

  // ---------------------------------------------------------------------
  // Stamping the session onto the rows

  /** The rows to charge, each with its book's title. */
  function EntriesOf(pending: seq<Payment>, bookTitle: string): (es: seq<CheckoutEntry>)
    ensures |es| == |pending|
    ensures forall i :: 0 <= i < |es| ==> es[i].payment == pending[i] && es[i].bookTitle == bookTitle
  {
    seq(|pending|, i requires 0 <= i < |pending| => CheckoutEntry(pending[i], bookTitle))
  }

  /** The request `get_or_create_session_for_borrowing` sends for the pending rows. */
  function CheckoutRequest(pending: seq<Payment>, bookTitle: string, origin: string): (r: SessionRequest)
    requires |pending| > 0
    ensures |r.lineItems| == |pending|
    ensures r.successUrl == GetUrls(origin).successUrl && r.cancelUrl == GetUrls(origin).cancelUrl
  {
    var urls := GetUrls(origin);
    SessionRequestFor(EntriesOf(pending, bookTitle), urls.successUrl, urls.cancelUrl)
  }

  /**
   * The request charges each pending payment's amount, in order, and its
   * metadata names exactly the pending payments' keys.
   */
  lemma CheckoutRequestCharges(pending: seq<Payment>, bookTitle: string, origin: string)
    requires |pending| > 0
    ensures forall i :: 0 <= i < |pending| ==>
      CheckoutRequest(pending, bookTitle, origin).lineItems[i].unitAmount == pending[i].moneyToPay
    ensures var ids := PaymentIdsOf(EntriesOf(pending, bookTitle));
      && ParseIdList(CheckoutRequest(pending, bookTitle, origin).metadata.paymentIds) == Some(ids)
      && forall i :: 0 <= i < |pending| ==> ids[i] == pending[i].id
  {
    var es := EntriesOf(pending, bookTitle);
    var urls := GetUrls(origin);
    assert CheckoutRequest(pending, bookTitle, origin) == SessionRequestFor(es, urls.successUrl, urls.cancelUrl);
  }

  function Stamp(p: Payment, h: SessionHandle): Payment
  {
    p.(sessionUrl := Some(h.sessionUrl), sessionId := Some(h.sessionId))
  }

  /** `pending_payments.update(session_url=..., session_id=...)`. */
  function StampPending(ps: seq<Payment>, borrowing: BorrowingId, h: SessionHandle): (r: seq<Payment>)
    ensures |r| == |ps|
  {
    seq(|ps|, i requires 0 <= i < |ps| => if IsPendingOf(ps[i], borrowing) then Stamp(ps[i], h) else ps[i])
  }

  /**
   * After stamping, every PENDING row of the borrowing carries the one
   * session; PAID rows and rows of other borrowings are untouched; no row
   * changes anything but its session fields.
   */
  lemma StampPendingEffect(ps: seq<Payment>, borrowing: BorrowingId, h: SessionHandle)
    ensures forall i :: 0 <= i < |ps| && IsPendingOf(ps[i], borrowing) ==>
      StampPending(ps, borrowing, h)[i].sessionUrl == Some(h.sessionUrl)
      && StampPending(ps, borrowing, h)[i].sessionId == Some(h.sessionId)
    ensures forall i :: 0 <= i < |ps| && !IsPendingOf(ps[i], borrowing) ==> StampPending(ps, borrowing, h)[i] == ps[i]
    ensures forall i :: 0 <= i < |ps| ==>
      StampPending(ps, borrowing, h)[i] == ps[i].(sessionUrl := StampPending(ps, borrowing, h)[i].sessionUrl,
                                                 sessionId := StampPending(ps, borrowing, h)[i].sessionId)
  {
  }

  /** Stamping keeps every payment rule: keys, owners, types, statuses and amounts stay. */
  lemma StampPendingWellFormed(bs: seq<Borrowing>, ps: seq<Payment>, next: nat, borrowing: BorrowingId, h: SessionHandle)
    requires PaymentsWellFormed(bs, ps, next)
    ensures PaymentsWellFormed(bs, StampPending(ps, borrowing, h), next)
  {
    var r := StampPending(ps, borrowing, h);
    assert forall i :: 0 <= i < |ps| ==>
      r[i].id == ps[i].id && r[i].borrowingId == ps[i].borrowingId && r[i].status == ps[i].status
      && r[i].paymentType == ps[i].paymentType && r[i].moneyToPay == ps[i].moneyToPay;
  }

  /** Stamping leaves the set of PENDING rows of each borrowing as it was. */
  lemma StampPendingKeepsPending(ps: seq<Payment>, borrowing: BorrowingId, h: SessionHandle, other: BorrowingId)
    ensures HasPending(StampPending(ps, borrowing, h), other) == HasPending(ps, other)
    ensures HasPayment(StampPending(ps, borrowing, h), other) == HasPayment(ps, other)
  {
    var r := StampPending(ps, borrowing, h);
    assert forall i :: 0 <= i < |ps| ==> IsPendingOf(r[i], other) == IsPendingOf(ps[i], other);
    assert forall i :: 0 <= i < |ps| ==> r[i].borrowingId == ps[i].borrowingId;
  }
}
