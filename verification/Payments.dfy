/** The payments service: one purchase, its state machine, and the fact each change records. */
module PaymentDomain {
  import opened Prelude
  import opened WalletDomain

  datatype PaymentStatus = Pending | Confirmed | Failed | Refunded

  datatype PaymentError = CannotConfirm | CannotFail | CannotRefund

  datatype PaymentRecord = PaymentRecord(
    id: Uuid, user: Uuid, orderId: string, amount: int, credits: int,
    status: PaymentStatus, providerKey: Option<string>, confirmedAt: Option<int>, refundedAt: Option<int>)

  predicate IsHex(c: char) { '0' <= c <= '9' || 'a' <= c <= 'f' }

  /** The canonical text of a UUID. */
  predicate IsUuid(t: string) {
    && |t| == 36
    && forall i :: 0 <= i < 36 ==> if i in {8, 13, 18, 23} then t[i] == '-' else IsHex(t[i])
  }

  /** What the model's field constraints and the column types guarantee of every payment. */
  predicate WellFormed(p: PaymentRecord) {
    IsUuid(p.id) && IsUuid(p.user) && 1 <= |p.orderId| <= 64 && p.amount > 0 && p.credits > 0
  }

  // ------------------------------------------------------------------ state machine

  function ConfirmPayment(p: PaymentRecord, providerKey: string, now: int): Result<PaymentRecord, PaymentError> {
    if p.status.Confirmed? then Ok(p)
    else if !p.status.Pending? then Err(CannotConfirm)
    else Ok(p.(status := Confirmed, providerKey := Some(providerKey), confirmedAt := Some(now)))
  }

  function FailPayment(p: PaymentRecord): Result<PaymentRecord, PaymentError> {
    if !p.status.Pending? then Err(CannotFail) else Ok(p.(status := Failed))
  }

  function RefundPayment(p: PaymentRecord, now: int): Result<PaymentRecord, PaymentError> {
    if p.status.Refunded? then Ok(p)
    else if !p.status.Confirmed? then Err(CannotRefund)
    else Ok(p.(status := Refunded, refundedAt := Some(now)))
  }

  /** The mutable object the service works on; an error leaves it as it was. */
  class Payment {
    const id: Uuid
    const user: Uuid
    const orderId: string
    const amount: int
    const credits: int
    var status: PaymentStatus
    var providerKey: Option<string>
    var confirmedAt: Option<int>
    var refundedAt: Option<int>

    function View(): PaymentRecord
      reads this
    {
      PaymentRecord(id, user, orderId, amount, credits, status, providerKey, confirmedAt, refundedAt)
    }

    constructor (p: PaymentRecord)
      ensures View() == p
    {
      id, user, orderId, amount, credits := p.id, p.user, p.orderId, p.amount, p.credits;
      status, providerKey, confirmedAt, refundedAt := p.status, p.providerKey, p.confirmedAt, p.refundedAt;
    }

    method ConfirmWith(key: string, now: int) returns (error: Option<PaymentError>)
      modifies this
      ensures match ConfirmPayment(old(View()), key, now)
              case Ok(p) => error.None? && View() == p
              case Err(e) => error == Some(e) && View() == old(View())
    {
      if status.Confirmed? {
        return None;
      }
      if !status.Pending? {
        return Some(CannotConfirm);
      }
      status := Confirmed;
      providerKey := Some(key);
      confirmedAt := Some(now);
      return None;
    }

    method FailNow() returns (error: Option<PaymentError>)
      modifies this
      ensures match FailPayment(old(View()))
              case Ok(p) => error.None? && View() == p
              case Err(e) => error == Some(e) && View() == old(View())
    {
      if !status.Pending? {
        return Some(CannotFail);
      }
      status := Failed;
      return None;
    }

    method RefundNow(now: int) returns (error: Option<PaymentError>)
      modifies this
      ensures match RefundPayment(old(View()), now)
              case Ok(p) => error.None? && View() == p
              case Err(e) => error == Some(e) && View() == old(View())
    {
      if status.Refunded? {
        return None;
      }
      if !status.Confirmed? {
        return Some(CannotRefund);
      }
      status := Refunded;
      refundedAt := Some(now);
      return None;
    }
  }

  datatype Op = ConfirmOp(key: string, at: int) | FailOp | RefundOp(at: int)

  function Perform(p: PaymentRecord, op: Op): PaymentRecord {
    var r := match op
      case ConfirmOp(key, at) => ConfirmPayment(p, key, at)
      case FailOp => FailPayment(p)
      case RefundOp(at) => RefundPayment(p, at);
    if r.Ok? then r.value else p
  }

  function PerformAll(p: PaymentRecord, ops: seq<Op>): PaymentRecord {
    if ops == [] then p else Perform(PerformAll(p, ops[..|ops| - 1]), ops[|ops| - 1])
  }

  /** On one object, any calls in any order: FAILED and REFUNDED are final, a confirmation is never
      taken back except by a refund, and its provider key and time are written once. */
  lemma {:induction false} CallsOnOneObjectOnlyMoveForward(p: PaymentRecord, ops: seq<Op>)
    ensures var q := PerformAll(p, ops);
            && (p.status.Failed? || p.status.Refunded? ==> q == p)
            && (p.status.Confirmed? ==> q.status.Confirmed? || q.status.Refunded?)
            && (!p.status.Pending? ==> q.providerKey == p.providerKey && q.confirmedAt == p.confirmedAt)
            && (p.status.Pending? && q.status.Failed? ==> q.providerKey == p.providerKey)
            && (p.status.Pending? && (q.status.Confirmed? || q.status.Refunded?) ==>
                  q.providerKey.Some? && q.confirmedAt.Some? &&
                  exists i :: 0 <= i < |ops| && ops[i] == ConfirmOp(q.providerKey.value, q.confirmedAt.value))
            && (p.status.Pending? && q.status.Pending? ==> q == p)
  {
    if ops != [] {
      var front := ops[..|ops| - 1];
      CallsOnOneObjectOnlyMoveForward(p, front);
      var m, q := PerformAll(p, front), PerformAll(p, ops);
      if p.status.Pending? && (m.status.Confirmed? || m.status.Refunded?) {
        var i :| 0 <= i < |front| && front[i] == ConfirmOp(m.providerKey.value, m.confirmedAt.value);
        assert ops[i] == front[i];
      } else if p.status.Pending? && q.status.Confirmed? {
        assert ops[|ops| - 1] == ConfirmOp(q.providerKey.value, q.confirmedAt.value);
      }
    }
  }

  // ------------------------------------------------------------------ idempotency keys

  const PREFIX := "payment:"

  function PurchaseKey(paymentId: Uuid): string { PREFIX + paymentId + ":purchase" }

  function RefundKey(paymentId: Uuid): string { PREFIX + paymentId + ":refund" }

  predicate IsPaymentKey(key: string) { PREFIX <= key }

  /** Each payment has its own two keys: they repeat for the same payment and the same direction only,
      and fit the column. */
  lemma {:induction false} KeysNameOneEvent(p: Uuid, q: Uuid)
    ensures PurchaseKey(p) == PurchaseKey(q) <==> p == q
    ensures RefundKey(p) == RefundKey(q) <==> p == q
    ensures PurchaseKey(p) != RefundKey(q)
    ensures IsPaymentKey(PurchaseKey(p)) && IsPaymentKey(RefundKey(p))
    ensures IsUuid(p) ==> |PurchaseKey(p)| <= MAX_TEXT && |RefundKey(p)| <= MAX_TEXT
  {
    var n := |PREFIX|;
    assert PurchaseKey(p)[n..n + |p|] == p && PurchaseKey(q)[n..n + |q|] == q;
    assert RefundKey(p)[n..n + |p|] == p && RefundKey(q)[n..n + |q|] == q;
    assert PurchaseKey(p)[|PurchaseKey(p)| - 1] == 'e';
    assert RefundKey(q)[|RefundKey(q)| - 1] == 'd';
    assert |PurchaseKey(p)| == n + |p| + 9 && |PurchaseKey(q)| == n + |q| + 9;
    assert |RefundKey(p)| == n + |p| + 7 && |RefundKey(q)| == n + |q| + 7;
  }

  // ------------------------------------------------------------------ messages

  datatype Topic = PurchaseConfirmed | CreditRefunded

  /** The JSON object on the wire; a field may be missing. */
  datatype Payload = Payload(
    v: Option<int>, paymentId: Option<string>, user: Option<string>, credits: Option<int>,
    key: Option<string>, at: Option<int>)

  datatype Message = Message(topic: Topic, partitionKey: string, payload: Payload)

  const PAYLOAD_VERSION := 1

  function PurchaseMessage(p: PaymentRecord, at: int): Message {
    Message(PurchaseConfirmed, p.user,
            Payload(Some(PAYLOAD_VERSION), Some(p.id), Some(p.user), Some(p.credits), Some(PurchaseKey(p.id)), Some(at)))
  }

  function RefundMessage(p: PaymentRecord, at: int): Message {
    Message(CreditRefunded, p.user,
            Payload(Some(PAYLOAD_VERSION), Some(p.id), Some(p.user), Some(p.credits), Some(RefundKey(p.id)), Some(at)))
  }
}

/** `PaymentService` over the one-commit repository. Each use case is split at its gateway call. */
module PaymentSaga {
  import opened Prelude
  import opened WalletDomain
  import opened PaymentDomain

  datatype GatewayReply = Approved(providerKey: string, amount: int) | Refused

  datatype ServiceError =
    | NotFound | Invalid | OrderTaken | GatewayFailed | AmountMismatch | NotApproved | Rejected(error: PaymentError)

  function Stamp(at: Option<int>, now: int): int { if at.Some? then at.value else now }

  /** `confirm` after its gateway call: what is saved, if anything. */
  function ConfirmResult(loaded: PaymentRecord, reply: GatewayReply, now: int)
    : Result<(PaymentRecord, Message), ServiceError>
  {
    if reply.Refused? then Err(GatewayFailed)
    else if reply.amount != loaded.amount then Err(AmountMismatch)
    else match ConfirmPayment(loaded, reply.providerKey, now)
         case Err(e) => Err(Rejected(e))
         case Ok(p) => Ok((p, PurchaseMessage(p, Stamp(p.confirmedAt, now))))
  }

  /** `refund` after its gateway call. */
  function RefundResult(loaded: PaymentRecord, cancelled: bool, now: int)
    : Result<(PaymentRecord, Message), ServiceError>
  {
    if !cancelled then Err(GatewayFailed)
    else match RefundPayment(loaded, now)
         case Err(e) => Err(Rejected(e))
         case Ok(p) => Ok((p, RefundMessage(p, Stamp(p.refundedAt, now))))
  }

  /** `confirm` goes through exactly for an approval of the recorded amount on a payment that is waiting
      or already confirmed; a repeat then records the same payment and the very same fact. */
  lemma {:induction false} RepeatedConfirmRecordsTheSameFact(
    loaded: PaymentRecord, reply: GatewayReply, now: int, again: GatewayReply, later: int)
    requires loaded.status.Confirmed? ==> loaded.confirmedAt.Some?
    ensures var r := ConfirmResult(loaded, reply, now);
            && (r.Ok? <==> reply.Approved? && reply.amount == loaded.amount
                           && (loaded.status.Pending? || loaded.status.Confirmed?))
            && (r.Err? ==> r.error == if reply.Refused? then GatewayFailed
                                      else if reply.amount != loaded.amount then AmountMismatch
                                      else Rejected(CannotConfirm))
            && (r.Ok? ==>
                  var (p, m) := r.value;
                  && p.status.Confirmed? && m.payload.at == p.confirmedAt
                  && (loaded.status.Pending? ==> p.confirmedAt == Some(now))
                  && (again.Approved? && again.amount == p.amount ==> ConfirmResult(p, again, later) == Ok((p, m))))
  {
  }

  /** `refund` goes through exactly when the gateway cancels and the payment is confirmed or already
      refunded; a repeat records the very same fact. */
  lemma {:induction false} RepeatedRefundRecordsTheSameFact(loaded: PaymentRecord, cancelled: bool, now: int, later: int)
    requires loaded.status.Refunded? ==> loaded.refundedAt.Some?
    ensures var r := RefundResult(loaded, cancelled, now);
            && (r.Ok? <==> cancelled && (loaded.status.Confirmed? || loaded.status.Refunded?))
            && (r.Err? ==> r.error == if cancelled then Rejected(CannotRefund) else GatewayFailed)
            && (r.Ok? ==>
                  var (p, m) := r.value;
                  && p.status.Refunded? && m.payload.at == p.refundedAt
                  && (loaded.status.Confirmed? ==> p.refundedAt == Some(now))
                  && RefundResult(p, true, later) == Ok((p, m)))
  {
  }

  /** The four columns `save_with_outbox` overwrites. */
  function Overwritten(row: PaymentRecord, p: PaymentRecord): PaymentRecord {
    row.(status := p.status, providerKey := p.providerKey, confirmedAt := p.confirmedAt, refundedAt := p.refundedAt)
  }

  /** A save takes status, provider key and times from the object, and identity, owner and price from the
      row. */
  lemma {:induction false} SaveTakesFourColumns(row: PaymentRecord, p: PaymentRecord)
    ensures var saved := Overwritten(row, p);
            && saved.id == row.id && saved.user == row.user && saved.orderId == row.orderId
            && saved.amount == row.amount && saved.credits == row.credits
            && saved.status == p.status && saved.providerKey == p.providerKey
            && saved.confirmedAt == p.confirmedAt && saved.refundedAt == p.refundedAt
  {
  }

  class PaymentService {
    var rows: map<string, PaymentRecord>
    var outbox: seq<Message>

    constructor ()
      ensures rows == map[] && outbox == []
    {
      rows, outbox := map[], [];
    }

    method Prepare(id: Uuid, user: Uuid, orderId: string, amount: int, credits: int)
      returns (r: Result<PaymentRecord, ServiceError>)
      modifies this
      ensures outbox == old(outbox)
      ensures var p := PaymentRecord(id, user, orderId, amount, credits, Pending, None, None, None);
              if !WellFormed(p) then r == Err(Invalid) && rows == old(rows)
              else if orderId in old(rows) then r == Err(OrderTaken) && rows == old(rows)
              else r == Ok(p) && rows == old(rows)[orderId := p]
    {
      var p := PaymentRecord(id, user, orderId, amount, credits, Pending, None, None, None);
      if !WellFormed(p) {
        return Err(Invalid);
      }
      if orderId in rows {
        return Err(OrderTaken);
      }
      rows := rows[orderId := p];
      return Ok(p);
    }

    /** The read before the gateway call. */
    method Load(orderId: string) returns (r: Result<PaymentRecord, ServiceError>)
      ensures r == if orderId in rows then Ok(rows[orderId]) else Err(NotFound)
    {
      if orderId !in rows {
        return Err(NotFound);
      }
      return Ok(rows[orderId]);
    }

    method LoadForRefund(orderId: string) returns (r: Result<PaymentRecord, ServiceError>)
      ensures r == if orderId !in rows then Err(NotFound)
                   else if rows[orderId].providerKey.None? then Err(NotApproved)
                   else Ok(rows[orderId])
    {
      r := Load(orderId);
      if r.Ok? && r.value.providerKey.None? {
        r := Err(NotApproved);
      }
    }

    /** One commit: the payment row and the outbox row, or neither. */
    method SaveWithOutbox(p: PaymentRecord, m: Message) returns (error: Option<ServiceError>)
      modifies this
      ensures if p.orderId in old(rows)
              then error.None? && rows == old(rows)[p.orderId := Overwritten(old(rows)[p.orderId], p)]
                   && outbox == old(outbox) + [m]
              else error == Some(NotFound) && rows == old(rows) && outbox == old(outbox)
    {
      if p.orderId !in rows {
        return Some(NotFound);
      }
      rows := rows[p.orderId := Overwritten(rows[p.orderId], p)];
      outbox := outbox + [m];
      return None;
    }

    /** The rest of `confirm`, on the copy read before the gateway call. */
    method FinishConfirm(loaded: PaymentRecord, reply: GatewayReply, now: int)
      returns (error: Option<ServiceError>)
      requires loaded.orderId in rows
      modifies this
      ensures match ConfirmResult(loaded, reply, now)
              case Err(e) => error == Some(e) && rows == old(rows) && outbox == old(outbox)
              case Ok((p, m)) => error.None? && outbox == old(outbox) + [m]
                                 && rows == old(rows)[loaded.orderId := Overwritten(old(rows)[loaded.orderId], p)]
    {
      if reply.Refused? {
        return Some(GatewayFailed);
      }
      if reply.amount != loaded.amount {
        return Some(AmountMismatch);
      }
      var payment := new Payment(loaded);
      var refused := payment.ConfirmWith(reply.providerKey, now);
      if refused.Some? {
        return Some(Rejected(refused.value));
      }
      error := SaveWithOutbox(payment.View(), PurchaseMessage(payment.View(), Stamp(payment.confirmedAt, now)));
    }

    /** The rest of `refund`. */
    method FinishRefund(loaded: PaymentRecord, cancelled: bool, now: int) returns (error: Option<ServiceError>)
      requires loaded.orderId in rows
      modifies this
      ensures match RefundResult(loaded, cancelled, now)
              case Err(e) => error == Some(e) && rows == old(rows) && outbox == old(outbox)
              case Ok((p, m)) => error.None? && outbox == old(outbox) + [m]
                                 && rows == old(rows)[loaded.orderId := Overwritten(old(rows)[loaded.orderId], p)]
    {
      if !cancelled {
        return Some(GatewayFailed);
      }
      var payment := new Payment(loaded);
      var refused := payment.RefundNow(now);
      if refused.Some? {
        return Some(Rejected(refused.value));
      }
      error := SaveWithOutbox(payment.View(), RefundMessage(payment.View(), Stamp(payment.refundedAt, now)));
    }
  }
}

/** The wallet side of the contract: decode a payload, choose the sign by topic, apply or dead-letter. */
module CreditEvents {
  import opened Prelude
  import opened WalletDomain
  import opened WalletLedger
  import opened PaymentDomain

  datatype DecodeError = UnknownVersion | MissingField | BadCredits | BadUuid

  datatype CreditEvent = CreditEvent(paymentId: Uuid, user: Uuid, credits: int, key: string)

  function Decode(p: Payload): Result<CreditEvent, DecodeError> {
    if p.v.Some? && p.v.value != 1 then Err(UnknownVersion)
    else if p.credits.None? then Err(MissingField)
    else if p.credits.value <= 0 then Err(BadCredits)
    else if p.paymentId.None? || p.user.None? || p.key.None? then Err(MissingField)
    else if !IsUuid(p.paymentId.value) || !IsUuid(p.user.value) then Err(BadUuid)
    else Ok(CreditEvent(p.paymentId.value, p.user.value, p.credits.value, p.key.value))
  }

  /** `purchase_confirmed` grants the credits, `refunded` takes them back. */
  function RequestFor(topic: Topic, e: CreditEvent): Result<Request, DomainError> {
    match topic
    case PurchaseConfirmed => GrantRequest(e.user, e.credits, Purchase, Some(e.paymentId), Some(e.key))
    case CreditRefunded => GrantRequest(e.user, -e.credits, Refund, Some(e.paymentId), Some(e.key))
  }

  /** The request a message asks for, when it can be read. */
  function Asks(m: Message): Option<Request> {
    match Decode(m.payload)
    case Err(_) => None
    case Ok(e) => match RequestFor(m.topic, e)
                  case Err(_) => None
                  case Ok(r) => Some(r)
  }

  /** An infrastructure failure around the ledger call: before anything, between the wallet row's own
      commit and the ledger's, or after both. */
  datatype Fault = NoFault | BeforeWallet | BeforeCommit | AfterCommit

  function BooksAfter(b: Books, m: Message, fault: Fault): Books {
    var r := Asks(m);
    if r.None? || fault.BeforeWallet? then b
    else if fault.BeforeCommit? then WithWallet(b, r.value.entry.user)
    else Apply(b, r.value)
  }

  /** Whether the consumer gives the message to the dead-letter topic. */
  predicate DeadLettered(b: Books, m: Message, fault: Fault) {
    var r := Asks(m);
    r.None? || !fault.NoFault? || Decide(b, r.value).Insufficient?
  }

  /** What makes a message of no use, field by field. A missing version counts as 1. */
  predicate Unreadable(p: Payload) {
    || (p.v.Some? && p.v.value != 1)
    || p.credits.None? || p.credits.value <= 0
    || p.paymentId.None? || !IsUuid(p.paymentId.value)
    || p.user.None? || !IsUuid(p.user.value)
    || p.key.None? || |p.key.value| > 64
  }

  /** Which messages cannot be used, over decoding and the ledger model's own checks. */
  lemma {:induction false} UnreadableExactlyWhen(m: Message)
    ensures Asks(m).None? <==> Unreadable(m.payload)
  {
  }

  /** A delivery ends in a dead letter exactly when the message is of no use, something failed around the
      ledger call, or it is a refund that is new and not covered. */
  lemma {:induction false} DeadLetteredExactlyWhen(b: Books, m: Message, fault: Fault)
    ensures DeadLettered(b, m, fault) <==>
              || Unreadable(m.payload)
              || !fault.NoFault?
              || (m.topic.CreditRefunded? && !KeyTaken(b.lines, m.payload.key)
                  && Balance(b, m.payload.user.value) < m.payload.credits.value)
  {
    UnreadableExactlyWhen(m);
  }

  lemma {:induction false} DeliveredKeyIsTaken(b: Books, m: Message, fault: Fault)
    ensures !DeadLettered(b, m, fault) ==> KeyTaken(BooksAfter(b, m, fault).lines, m.payload.key)
  {
    if !DeadLettered(b, m, fault) && Decide(b, Asks(m).value).Applied? {
      assert BooksAfter(b, m, fault).lines[|b.lines|].key == m.payload.key;
    }
  }

  /** What an acknowledged delivery of a usable message leaves on the ledger. */
  lemma {:induction false} AppliedExactlyWhen(b: Books, m: Message, fault: Fault)
    requires !Unreadable(m.payload)
    ensures var credits := if m.topic.PurchaseConfirmed? then m.payload.credits.value else -m.payload.credits.value;
            var kind := if m.topic.PurchaseConfirmed? then Purchase else Refund;
            var line := CreditTransaction(m.payload.user.value, credits, kind, m.payload.paymentId, m.payload.key);
            var reached := fault.NoFault? || fault.AfterCommit?;
            BooksAfter(b, m, fault).lines ==
              (if reached && !KeyTaken(b.lines, m.payload.key) && (credits > 0 || Balance(b, line.user) >= -credits)
               then b.lines + [line] else b.lines)
            && (forall user :: user in BooksAfter(b, m, fault).balances <==>
                  user in b.balances || (user == line.user && !fault.BeforeWallet?))
  {
    UnreadableExactlyWhen(m);
  }

  class CreditEventConsumer {
    const wallet: WalletRepository
    var dlq: seq<Message>
    var dropped: seq<Message>

    constructor (wallet: WalletRepository)
      ensures this.wallet == wallet && dlq == [] && dropped == []
    {
      this.wallet := wallet;
      dlq, dropped := [], [];
    }

    /** A dead letter that cannot be published is logged and gone. */
    method ToDlq(m: Message, dlqUp: bool)
      modifies this
      ensures if dlqUp then dlq == old(dlq) + [m] && dropped == old(dropped)
              else dlq == old(dlq) && dropped == old(dropped) + [m]
    {
      if dlqUp {
        dlq := dlq + [m];
      } else {
        dropped := dropped + [m];
      }
    }

    /** A message that returns is acknowledged; a consumer that dies after its ledger call leaves no
        letter and no acknowledgement. */
    method Consume(m: Message, fault: Fault, dlqUp: bool, dies: bool) returns (acknowledged: bool)
      requires wallet.work == wallet.committed
      modifies this, wallet
      ensures acknowledged == !dies
      ensures wallet.work == wallet.committed == BooksAfter(old(wallet.committed), m, fault)
      ensures var dead := DeadLettered(old(wallet.committed), m, fault) && !dies;
              && dlq == old(dlq) + (if dead && dlqUp then [m] else [])
              && dropped == old(dropped) + (if dead && !dlqUp then [m] else [])
      ensures Unreadable(m.payload) ==> wallet.committed == old(wallet.committed)
      ensures acknowledged && Unreadable(m.payload) ==>
                if dlqUp then dlq == old(dlq) + [m] && dropped == old(dropped)
                else dlq == old(dlq) && dropped == old(dropped) + [m]
      ensures acknowledged ==>
                || KeyTaken(wallet.committed.lines, m.payload.key)
                || (dlq == old(dlq) + [m] && dropped == old(dropped))
                || (dlq == old(dlq) && dropped == old(dropped) + [m])
      ensures acknowledged && fault.NoFault? && !Unreadable(m.payload) && m.topic.PurchaseConfirmed? ==>
                dlq == old(dlq) && dropped == old(dropped)
    {
      UnreadableExactlyWhen(m);
      DeadLetteredExactlyWhen(wallet.committed, m, fault);
      DeliveredKeyIsTaken(wallet.committed, m, fault);
      var event := Decode(m.payload);
      var failed := true;
      if event.Ok? {
        var request := RequestFor(m.topic, event.value);
        if request.Ok? && fault.BeforeCommit? {
          wallet.EnsureWallet(request.value.entry.user);
        } else if request.Ok? && !fault.BeforeWallet? {
          var outcome, balance := wallet.ApplyRequest(request.value);
          failed := outcome.Insufficient? || fault.AfterCommit?;
        }
      }
      if dies {
        return false;
      }
      if failed {
        ToDlq(m, dlqUp);
      }
      return true;
    }
  }

  /** The two sides agree on the contract: every message payments records for a well-formed payment is
      readable, and asks for exactly that payment's credits under that payment's key; both kinds go to
      the user's partition. */
  lemma {:induction false} RecordedMessagesAreReadable(p: PaymentRecord, at: int)
    requires WellFormed(p)
    ensures Asks(PurchaseMessage(p, at)) == Some(Request(
              CreditTransaction(p.user, p.credits, Purchase, Some(p.id), Some(PurchaseKey(p.id))), None))
    ensures Asks(RefundMessage(p, at)) == Some(Request(
              CreditTransaction(p.user, -p.credits, Refund, Some(p.id), Some(RefundKey(p.id))), None))
    ensures PurchaseMessage(p, at).partitionKey == RefundMessage(p, at).partitionKey == p.user
  {
    KeysNameOneEvent(p.id, p.id);
  }

  /** Whatever a message says, a request it leads to is a purchase or a refund the books can carry. */
  lemma {:induction false} ConsumedRequestsAreLegal(m: Message)
    ensures Asks(m).Some? ==>
              var r := Asks(m).value;
              && Legal(r) && r.donation.None? && r.entry.key == m.payload.key
              && (m.topic.PurchaseConfirmed? <==> r.entry.delta > 0)
              && r.entry.kind == if m.topic.PurchaseConfirmed? then Purchase else Refund
  {
  }
}
