/** The credit pipeline as one system: payments and its outbox, the relay, two topics delivered in any
    order and any number of times, the consumer, the ledger and the dead-letter topic. */
module CreditPipeline {
  import opened Prelude
  import opened WalletDomain
  import opened WalletLedger
  import opened PaymentDomain
  import opened PaymentSaga
  import opened CreditEvents
  import Relay = OutboxRelay

  /** A use case waiting for the gateway, holding the payment it read before the call. */
  datatype Call = ConfirmCall(loaded: PaymentRecord) | RefundCall(loaded: PaymentRecord) | Returned

  datatype Sys = Sys(
    rows: map<string, PaymentRecord>,
    calls: seq<Call>,
    relay: Relay.Sys<Message>,
    handled: set<nat>,                 // positions of the broker log whose delivery was acknowledged
    books: Books,
    dlq: seq<Message>,
    dropped: seq<Message>,             // dead letters that could not be published
    approved: set<(string, int)>,      // what the gateway approved: order and amount
    cancelled: set<string>)            // orders whose approval the gateway cancelled

  /** How a delivery ends: acknowledged, not acknowledged, or with the consumer dead after its ledger call
      and before any dead letter. */
  datatype Ending = Acked | Unacked | Died

  datatype Step =
    | Prepare(payment: PaymentRecord)
    | BeginConfirm(orderId: string)
    | BeginRefund(orderId: string)
    | ConfirmReply(call: nat, reply: GatewayReply, now: int)
    | RefundReply(call: nat, cancels: bool, now: int)
    | CallDies(call: nat, approves: Option<int>, cancels: bool)  // after the gateway may have acted
    | RelayStep(step: Relay.Step<Message>)
    | Deliver(pos: nat, fault: Fault, dlqUp: bool, ending: Ending)
    | OtherWriter(request: Request)

  function Init(): Sys {
    Sys(map[], [], Relay.Start(), {}, EMPTY, [], [], {}, {})
  }

  function Outgoing(s: Sys): seq<Relay.Row<Message>> { s.relay.outbox.rows }

  function Log(s: Sys): seq<nat> { s.relay.outbox.log }

  predicate NewPayment(s: Sys, p: PaymentRecord) {
    && WellFormed(p) && p.orderId !in s.rows
    && p.status.Pending? && p.providerKey.None? && p.confirmedAt.None? && p.refundedAt.None?
    && forall o | o in s.rows :: s.rows[o].id != p.id
  }

  /** Admin grants and donations, under any key: a viewer chooses the key of a donation. */
  predicate FromElsewhere(s: Sys, r: Request) {
    && Legal(r) && (r.entry.kind.Grant? || r.entry.kind.Donated?)
    && (r.donation.Some? ==> forall i :: 0 <= i < |s.books.donations| ==> s.books.donations[i].id != r.donation.value.id)
  }

  /** The commit of `save_with_outbox`: the row and the new outbox row together. */
  function Saved(s: Sys, orderId: string, result: Result<(PaymentRecord, Message), ServiceError>): Sys
    requires orderId in s.rows
  {
    match result
    case Err(_) => s
    case Ok((p, m)) =>
      s.(rows := s.rows[orderId := Overwritten(s.rows[orderId], p)],
         relay := Relay.Next(s.relay, Relay.Append(m)))
  }

  function Closed(s: Sys, call: nat): Sys
    requires call < |s.calls|
  {
    s.(calls := s.calls[call := Returned])
  }

  /** The rest of `confirm` once the gateway has answered. */
  function AfterConfirm(s: Sys, c: nat, reply: GatewayReply, now: int): Sys
    requires c < |s.calls| && s.calls[c].ConfirmCall? && s.calls[c].loaded.orderId in s.rows
  {
    var loaded := s.calls[c].loaded;
    var t := if reply.Approved? then s.(approved := s.approved + {(loaded.orderId, reply.amount)}) else s;
    Closed(Saved(t, loaded.orderId, ConfirmResult(loaded, reply, now)), c)
  }

  /** The rest of `refund` once the gateway has answered. */
  function AfterRefund(s: Sys, c: nat, cancels: bool, now: int): Sys
    requires c < |s.calls| && s.calls[c].RefundCall? && s.calls[c].loaded.orderId in s.rows
  {
    var loaded := s.calls[c].loaded;
    var t := if cancels then s.(cancelled := s.cancelled + {loaded.orderId}) else s;
    Closed(Saved(t, loaded.orderId, RefundResult(loaded, cancels, now)), c)
  }

  /** One run of the consumer: the ledger, or the dead-letter topic, or nowhere. */
  function Consumed(s: Sys, m: Message, fault: Fault, dlqUp: bool): Sys {
    var dead := DeadLettered(s.books, m, fault);
    s.(books := BooksAfter(s.books, m, fault),
       dlq := if dead && dlqUp then s.dlq + [m] else s.dlq,
       dropped := if dead && !dlqUp then s.dropped + [m] else s.dropped)
  }

  function Acknowledged(s: Sys, pos: nat, acked: bool): Sys {
    if acked then s.(handled := s.handled + {pos}) else s
  }

  function AfterDelivery(s: Sys, pos: nat, fault: Fault, dlqUp: bool, ending: Ending): Sys
    requires pos < |Log(s)| && Log(s)[pos] < |Outgoing(s)|
  {
    var m := Outgoing(s)[Log(s)[pos]].message;
    if ending.Died? then s.(books := BooksAfter(s.books, m, fault))
    else Acknowledged(Consumed(s, m, fault, dlqUp), pos, ending.Acked?)
  }

  /** A step that is not possible leaves the system alone. */
  function Next(s: Sys, step: Step): Sys {
    match step
    case Prepare(p) => if NewPayment(s, p) then s.(rows := s.rows[p.orderId := p]) else s
    case BeginConfirm(o) => if o in s.rows then s.(calls := s.calls + [ConfirmCall(s.rows[o])]) else s
    case BeginRefund(o) =>
      if o in s.rows && s.rows[o].providerKey.Some? then s.(calls := s.calls + [RefundCall(s.rows[o])]) else s
    case ConfirmReply(c, reply, now) =>
      if c < |s.calls| && s.calls[c].ConfirmCall? && s.calls[c].loaded.orderId in s.rows
      then AfterConfirm(s, c, reply, now) else s
    case RefundReply(c, cancels, now) =>
      if c < |s.calls| && s.calls[c].RefundCall? && s.calls[c].loaded.orderId in s.rows
      then AfterRefund(s, c, cancels, now) else s
    case CallDies(c, approves, cancels) =>
      if c >= |s.calls| then s
      else if s.calls[c].ConfirmCall? && approves.Some? then
        Closed(s.(approved := s.approved + {(s.calls[c].loaded.orderId, approves.value)}), c)
      else if s.calls[c].RefundCall? && cancels then
        Closed(s.(cancelled := s.cancelled + {s.calls[c].loaded.orderId}), c)
      else Closed(s, c)
    case RelayStep(r) => if r.Append? then s else s.(relay := Relay.Next(s.relay, r))
    case Deliver(pos, fault, dlqUp, ending) =>
      if pos < |Log(s)| && Log(s)[pos] < |Outgoing(s)| then AfterDelivery(s, pos, fault, dlqUp, ending) else s
    case OtherWriter(r) => if FromElsewhere(s, r) then s.(books := Apply(s.books, r)) else s
  }

  function After(steps: seq<Step>): Sys {
    if steps == [] then Init() else Next(After(steps[..|steps| - 1]), steps[|steps| - 1])
  }

  // ------------------------------------------------------------------ invariant

  /** A payment's identity, owner and price never change. */
  ghost predicate SamePurchase(p: PaymentRecord, q: PaymentRecord) {
    p.id == q.id && p.user == q.user && p.orderId == q.orderId && p.amount == q.amount && p.credits == q.credits
  }

  /** A status past PENDING, and a provider key, are backed by what the gateway did. */
  ghost predicate Backed(s: Sys, p: PaymentRecord) {
    && (p.providerKey.Some? || p.status.Confirmed? || p.status.Refunded? ==> (p.orderId, p.amount) in s.approved)
    && (p.status.Refunded? ==> p.orderId in s.cancelled)
  }

  ghost predicate RowOk(s: Sys, o: string)
    requires o in s.rows
  {
    s.rows[o].orderId == o && WellFormed(s.rows[o]) && Backed(s, s.rows[o])
  }

  ghost predicate RowsOk(s: Sys) {
    && (forall o :: o in s.rows ==> RowOk(s, o))
    && (forall o, q :: o in s.rows && q in s.rows && s.rows[o].id == s.rows[q].id ==> o == q)
  }

  ghost predicate CallOk(s: Sys, c: Call) {
    c.Returned? || (c.loaded.orderId in s.rows && SamePurchase(c.loaded, s.rows[c.loaded.orderId]) && Backed(s, c.loaded))
  }

  /** The purchase message of order `o`, approved for its recorded amount, or its refund message, cancelled
      after such an approval. */
  ghost predicate MessageOf(s: Sys, m: Message, o: string)
    requires o in s.rows
  {
    && m.payload.at.Some?
    && (o, s.rows[o].amount) in s.approved
    && (m == PurchaseMessage(s.rows[o], m.payload.at.value)
        || (m == RefundMessage(s.rows[o], m.payload.at.value) && o in s.cancelled))
  }

  ghost predicate Genuine(s: Sys, m: Message) {
    exists o :: o in s.rows && MessageOf(s, m, o)
  }

  ghost predicate FromOutbox(out: seq<Relay.Row<Message>>, l: CreditTransaction) {
    exists i :: 0 <= i < |out| && Asks(out[i].message) == Some(Request(l, None))
  }

  /** Only the event consumer writes purchases and refunds. */
  predicate PaymentLine(l: CreditTransaction) {
    l.kind.Purchase? || l.kind.Refund?
  }

  ghost predicate LineOk(s: Sys, l: CreditTransaction) {
    PaymentLine(l) ==> FromOutbox(Outgoing(s), l)
  }

  /** The message's key is on the ledger, or a copy waits for a person, or the dead letter was lost. */
  ghost predicate Settled(s: Sys, m: Message) {
    KeyTaken(s.books.lines, m.payload.key) || m in s.dlq || m in s.dropped
  }

  ghost predicate HandledOk(s: Sys, pos: nat) {
    pos < |Log(s)| && Log(s)[pos] < |Outgoing(s)| && Settled(s, Outgoing(s)[Log(s)[pos]].message)
  }

  ghost predicate RelayOk(r: Relay.Sys<Message>) {
    exists m, k :: Relay.Inv(r, m, k)
  }

  ghost predicate Inv(s: Sys) {
    && RowsOk(s)
    && (forall i :: 0 <= i < |s.calls| ==> CallOk(s, s.calls[i]))
    && (forall i :: 0 <= i < |Outgoing(s)| ==> Genuine(s, Outgoing(s)[i].message))
    && RelayOk(s.relay)
    && UniqueKeys(s.books.lines)
    && (forall i :: 0 <= i < |s.books.lines| ==> LineOk(s, s.books.lines[i]))
    && (forall pos :: pos in s.handled ==> HandledOk(s, pos))
  }

  // ------------------------------------------------------------------ growth

  /** Everything the invariant refers to only grows. */
  ghost predicate Grows(s: Sys, t: Sys) {
    && (forall o :: o in s.rows ==> o in t.rows && SamePurchase(s.rows[o], t.rows[o]))
    && s.approved <= t.approved && s.cancelled <= t.cancelled
    && |Outgoing(s)| <= |Outgoing(t)|
    && (forall i :: 0 <= i < |Outgoing(s)| ==> Outgoing(s)[i].message == Outgoing(t)[i].message)
    && Log(s) <= Log(t)
    && s.books.lines <= t.books.lines
    && s.dlq <= t.dlq && s.dropped <= t.dropped
  }

  lemma {:induction false} GenuineStays(s: Sys, t: Sys, m: Message)
    requires Grows(s, t) && Genuine(s, m)
    ensures Genuine(t, m)
  {
    var o :| o in s.rows && MessageOf(s, m, o);
    assert MessageOf(t, m, o);
  }

  lemma {:induction false} CallStays(s: Sys, t: Sys, c: Call)
    requires Grows(s, t) && CallOk(s, c)
    ensures CallOk(t, c)
  {
  }

  lemma {:induction false} LineStays(s: Sys, t: Sys, l: CreditTransaction)
    requires Grows(s, t) && LineOk(s, l)
    ensures LineOk(t, l)
  {
    if PaymentLine(l) {
      var i :| 0 <= i < |Outgoing(s)| && Asks(Outgoing(s)[i].message) == Some(Request(l, None));
      assert Asks(Outgoing(t)[i].message) == Some(Request(l, None));
    }
  }

  lemma {:induction false} HandledStays(s: Sys, t: Sys, pos: nat)
    requires Grows(s, t) && HandledOk(s, pos)
    ensures HandledOk(t, pos)
  {
    var m := Outgoing(s)[Log(s)[pos]].message;
    if KeyTaken(s.books.lines, m.payload.key) {
      var i :| 0 <= i < |s.books.lines| && s.books.lines[i].key == m.payload.key;
      assert t.books.lines[i].key == m.payload.key;
    } else {
      PrefixKeeps(s.dlq, t.dlq, m);
      PrefixKeeps(s.dropped, t.dropped, m);
    }
  }

  lemma {:induction false} PrefixKeeps<T>(xs: seq<T>, ys: seq<T>, x: T)
    requires xs <= ys
    ensures x in xs ==> x in ys
  {
    if x in xs {
      var i :| 0 <= i < |xs| && xs[i] == x;
      assert ys[i] == x;
    }
  }

  /** What is left to check after a step that only grows the system. */
  lemma {:induction false} GrowthKeeps(s: Sys, t: Sys)
    requires Inv(s) && Grows(s, t)
    requires RowsOk(t) && RelayOk(t.relay) && UniqueKeys(t.books.lines)
    requires forall i :: 0 <= i < |t.calls| ==> t.calls[i] in s.calls || CallOk(t, t.calls[i])
    requires forall i :: |Outgoing(s)| <= i < |Outgoing(t)| ==> Genuine(t, Outgoing(t)[i].message)
    requires forall i :: |s.books.lines| <= i < |t.books.lines| ==> LineOk(t, t.books.lines[i])
    requires forall pos :: pos in t.handled ==> pos in s.handled || HandledOk(t, pos)
    ensures Inv(t)
  {
    forall i | 0 <= i < |t.calls| ensures CallOk(t, t.calls[i]) {
      if t.calls[i] in s.calls {
        CallStays(s, t, t.calls[i]);
      }
    }
    forall i | 0 <= i < |Outgoing(t)| ensures Genuine(t, Outgoing(t)[i].message) {
      if i < |Outgoing(s)| {
        GenuineStays(s, t, Outgoing(s)[i].message);
      }
    }
    forall i | 0 <= i < |t.books.lines| ensures LineOk(t, t.books.lines[i]) {
      if i < |s.books.lines| {
        LineStays(s, t, s.books.lines[i]);
      }
    }
    forall pos | pos in t.handled ensures HandledOk(t, pos) {
      if pos in s.handled {
        HandledStays(s, t, pos);
      }
    }
  }

  lemma {:induction false} RowStays(s: Sys, t: Sys, o: string)
    requires o in s.rows && RowOk(s, o) && o in t.rows && t.rows[o] == s.rows[o]
    requires s.approved <= t.approved && s.cancelled <= t.cancelled
    ensures RowOk(t, o)
  {
  }

  // ------------------------------------------------------------------ every step keeps it

  lemma {:induction false} PrepareKeeps(s: Sys, p: PaymentRecord)
    requires Inv(s) && NewPayment(s, p)
    ensures Inv(Next(s, Prepare(p)))
  {
    var t := Next(s, Prepare(p));
    forall o | o in t.rows ensures RowOk(t, o) {
      if o != p.orderId {
        RowStays(s, t, o);
      }
    }
    GrowthKeeps(s, t);
  }

  lemma {:induction false} BeginKeeps(s: Sys, o: string)
    requires Inv(s) && o in s.rows
    ensures Inv(s.(calls := s.calls + [ConfirmCall(s.rows[o])]))
    ensures Inv(s.(calls := s.calls + [RefundCall(s.rows[o])]))
  {
    assert RowOk(s, o);
    CallsChangeKeeps(s, s.calls + [ConfirmCall(s.rows[o])]);
    CallsChangeKeeps(s, s.calls + [RefundCall(s.rows[o])]);
  }

  lemma {:induction false} CallsChangeKeeps(s: Sys, calls: seq<Call>)
    requires Inv(s)
    requires forall i :: 0 <= i < |calls| ==> calls[i] in s.calls || CallOk(s, calls[i])
    ensures Inv(s.(calls := calls))
  {
    var t := s.(calls := calls);
    forall o | o in t.rows ensures RowOk(t, o) {
      RowStays(s, t, o);
    }
    forall i | 0 <= i < |calls| ensures calls[i] in s.calls || CallOk(t, calls[i]) {
      if calls[i] !in s.calls {
        CallStays(s, t, calls[i]);
      }
    }
    GrowthKeeps(s, t);
  }

  /** The gateway may act at any time; facts it adds break nothing. */
  lemma {:induction false} GatewayKeeps(s: Sys, approved: set<(string, int)>, cancelled: set<string>)
    requires Inv(s)
    ensures Inv(s.(approved := s.approved + approved, cancelled := s.cancelled + cancelled))
  {
    var t := s.(approved := s.approved + approved, cancelled := s.cancelled + cancelled);
    forall o | o in t.rows ensures RowOk(t, o) {
      RowStays(s, t, o);
    }
    GrowthKeeps(s, t);
  }

  lemma {:induction false} CloseKeeps(s: Sys, c: nat)
    requires Inv(s) && c < |s.calls|
    ensures Inv(Closed(s, c))
  {
    CallsChangeKeeps(s, s.calls[c := Returned]);
  }

  lemma {:induction false} AppendKeepsRelay(r: Relay.Sys<Message>, step: Relay.Step<Message>)
    requires RelayOk(r)
    ensures RelayOk(Relay.Next(r, step))
  {
    var m, k :| Relay.Inv(r, m, k);
    var m', k' := Relay.NextKeeps(r, step, m, k);
  }

  /** A payment and its message that the gateway's facts allow. */
  ghost predicate MaySave(s: Sys, p: PaymentRecord, m: Message) {
    && Backed(s, p) && m.payload.at.Some? && (p.orderId, p.amount) in s.approved
    && (m == PurchaseMessage(p, m.payload.at.value)
        || (m == RefundMessage(p, m.payload.at.value) && p.orderId in s.cancelled))
  }

  lemma {:induction false} ConfirmIsBacked(s: Sys, loaded: PaymentRecord, reply: GatewayReply, now: int)
    requires Backed(s, loaded) && (reply.Approved? ==> (loaded.orderId, reply.amount) in s.approved)
    ensures var r := ConfirmResult(loaded, reply, now);
            r.Ok? ==> SamePurchase(loaded, r.value.0) && MaySave(s, r.value.0, r.value.1)
  {
  }

  lemma {:induction false} RefundIsBacked(s: Sys, loaded: PaymentRecord, cancels: bool, now: int)
    requires Backed(s, loaded) && (cancels ==> loaded.orderId in s.cancelled)
    ensures var r := RefundResult(loaded, cancels, now);
            r.Ok? ==> SamePurchase(loaded, r.value.0) && MaySave(s, r.value.0, r.value.1)
  {
  }

  /** Saving a result that the gateway backs, together with its message. */
  lemma {:induction false} SaveKeeps(s: Sys, loaded: PaymentRecord, p: PaymentRecord, m: Message)
    requires Inv(s) && CallOk(s, ConfirmCall(loaded))
    requires SamePurchase(loaded, p) && MaySave(s, p, m)
    ensures Inv(Saved(s, loaded.orderId, Ok((p, m))))
  {
    var o := loaded.orderId;
    var t := Saved(s, o, Ok((p, m)));
    assert SamePurchase(p, t.rows[o]);
    forall q | q in t.rows ensures RowOk(t, q) {
      assert RowOk(s, q);
      if q != o {
        RowStays(s, t, q);
      }
    }
    AppendKeepsRelay(s.relay, Relay.Append(m));
    assert MessageOf(t, m, o);
    GrowthKeeps(s, t);
  }

  lemma {:induction false} ConfirmReplyKeeps(s: Sys, c: nat, reply: GatewayReply, now: int)
    requires Inv(s) && c < |s.calls| && s.calls[c].ConfirmCall? && s.calls[c].loaded.orderId in s.rows
    ensures Inv(AfterConfirm(s, c, reply, now))
  {
    var loaded := s.calls[c].loaded;
    assert CallOk(s, s.calls[c]);
    var facts: set<(string, int)> := if reply.Approved? then {(loaded.orderId, reply.amount)} else {};
    GatewayKeeps(s, facts, {});
    var t := s.(approved := s.approved + facts, cancelled := s.cancelled + {});
    assert t == if reply.Approved? then s.(approved := s.approved + {(loaded.orderId, reply.amount)}) else s;
    var result := ConfirmResult(loaded, reply, now);
    if result.Ok? {
      ConfirmIsBacked(t, loaded, reply, now);
      SaveKeeps(t, loaded, result.value.0, result.value.1);
    }
    CloseKeeps(Saved(t, loaded.orderId, result), c);
  }

  lemma {:induction false} RefundReplyKeeps(s: Sys, c: nat, cancels: bool, now: int)
    requires Inv(s) && c < |s.calls| && s.calls[c].RefundCall? && s.calls[c].loaded.orderId in s.rows
    ensures Inv(AfterRefund(s, c, cancels, now))
  {
    var loaded := s.calls[c].loaded;
    assert CallOk(s, s.calls[c]);
    var facts: set<string> := if cancels then {loaded.orderId} else {};
    GatewayKeeps(s, {}, facts);
    var t := s.(approved := s.approved + {}, cancelled := s.cancelled + facts);
    assert t == if cancels then s.(cancelled := s.cancelled + {loaded.orderId}) else s;
    var result := RefundResult(loaded, cancels, now);
    if result.Ok? {
      RefundIsBacked(t, loaded, cancels, now);
      SaveKeeps(t, loaded, result.value.0, result.value.1);
    }
    CloseKeeps(Saved(t, loaded.orderId, result), c);
  }

  lemma {:induction false} CallDiesKeeps(s: Sys, c: nat, approves: Option<int>, cancels: bool)
    requires Inv(s) && c < |s.calls|
    ensures Inv(Next(s, CallDies(c, approves, cancels)))
  {
    CloseKeeps(s, c);
    if s.calls[c].ConfirmCall? && approves.Some? {
      var facts := {(s.calls[c].loaded.orderId, approves.value)};
      GatewayKeeps(s, facts, {});
      assert s.(approved := s.approved + facts, cancelled := s.cancelled + {}) == s.(approved := s.approved + facts);
      CloseKeeps(s.(approved := s.approved + facts), c);
    } else if s.calls[c].RefundCall? && cancels {
      var facts := {s.calls[c].loaded.orderId};
      GatewayKeeps(s, {}, facts);
      assert s.(approved := s.approved + {}, cancelled := s.cancelled + facts) == s.(cancelled := s.cancelled + facts);
      CloseKeeps(s.(cancelled := s.cancelled + facts), c);
    }
  }

  lemma {:induction false} RelayKeeps(s: Sys, r: Relay.Step<Message>)
    requires Inv(s) && !r.Append?
    ensures Inv(Next(s, RelayStep(r)))
  {
    var t := Next(s, RelayStep(r));
    AppendKeepsRelay(s.relay, r);
    Relay.OnlyMarksAndSends(s.relay, r);
    forall o | o in t.rows ensures RowOk(t, o) {
      RowStays(s, t, o);
    }
    GrowthKeeps(s, t);
  }

  lemma {:induction false} GenuineAsks(s: Sys, m: Message)
    requires RowsOk(s) && Genuine(s, m)
    ensures Asks(m).Some? && m.payload.key.Some? && IsPaymentKey(m.payload.key.value)
  {
    var o :| o in s.rows && MessageOf(s, m, o);
    assert RowOk(s, o);
    RecordedMessagesAreReadable(s.rows[o], m.payload.at.value);
    KeysNameOneEvent(s.rows[o].id, s.rows[o].id);
  }

  lemma {:induction false} ConsumedKeeps(s: Sys, pos: nat, fault: Fault, dlqUp: bool)
    requires Inv(s) && pos < |Log(s)| && Log(s)[pos] < |Outgoing(s)|
    ensures var t := Consumed(s, Outgoing(s)[Log(s)[pos]].message, fault, dlqUp);
            Inv(t) && HandledOk(t, pos)
  {
    var i := Log(s)[pos];
    var m := Outgoing(s)[i].message;
    var t := Consumed(s, m, fault, dlqUp);
    DeliveredLineOk(s, i);
    DeliveryGrowsBooks(s.books, m, fault);
    LedgerChangeKeeps(s, t.books, t.dlq, t.dropped, Asks(m).value.entry);
    GenuineAsks(s, m);
    ConsumedRequestsAreLegal(m);
    DeliverySettles(s, m, fault, dlqUp, t);
  }

  lemma {:induction false} DeadConsumerKeeps(s: Sys, pos: nat, fault: Fault)
    requires Inv(s) && pos < |Log(s)| && Log(s)[pos] < |Outgoing(s)|
    ensures Inv(s.(books := BooksAfter(s.books, Outgoing(s)[Log(s)[pos]].message, fault)))
  {
    var m := Outgoing(s)[Log(s)[pos]].message;
    DeliveredLineOk(s, Log(s)[pos]);
    DeliveryGrowsBooks(s.books, m, fault);
    LedgerChangeKeeps(s, BooksAfter(s.books, m, fault), s.dlq, s.dropped, Asks(m).value.entry);
  }

  lemma {:induction false} DeliverKeeps(s: Sys, pos: nat, fault: Fault, dlqUp: bool, ending: Ending)
    requires Inv(s) && pos < |Log(s)| && Log(s)[pos] < |Outgoing(s)|
    ensures Inv(AfterDelivery(s, pos, fault, dlqUp, ending))
  {
    if ending.Died? {
      DeadConsumerKeeps(s, pos, fault);
    } else {
      ConsumedKeeps(s, pos, fault, dlqUp);
      AcknowledgeKeeps(Consumed(s, Outgoing(s)[Log(s)[pos]].message, fault, dlqUp), pos, ending.Acked?);
    }
  }

  /** At most one new line, of an allowed kind, and more dead letters. */
  lemma {:induction false} LedgerChangeKeeps(s: Sys, books: Books, dlq: seq<Message>, dropped: seq<Message>, l: CreditTransaction)
    requires Inv(s) && LineOk(s, l)
    requires books.lines == s.books.lines || (books.lines == s.books.lines + [l] && !KeyTaken(s.books.lines, l.key))
    requires s.dlq <= dlq && s.dropped <= dropped
    ensures Inv(s.(books := books, dlq := dlq, dropped := dropped))
  {
    var t := s.(books := books, dlq := dlq, dropped := dropped);
    forall o | o in t.rows ensures RowOk(t, o) {
      RowStays(s, t, o);
    }
    LineStays(s, t, l);
    if books.lines != s.books.lines {
      NewKeyStaysUnique(s.books.lines, l);
    }
    GrowthKeeps(s, t);
  }

  lemma {:induction false} NewKeyStaysUnique(lines: seq<CreditTransaction>, l: CreditTransaction)
    requires UniqueKeys(lines) && !KeyTaken(lines, l.key)
    ensures UniqueKeys(lines + [l])
  {
  }

  lemma {:induction false} AcknowledgeKeeps(s: Sys, pos: nat, acked: bool)
    requires Inv(s) && HandledOk(s, pos)
    ensures Inv(Acknowledged(s, pos, acked))
  {
    var t := s.(handled := s.handled + {pos});
    forall o | o in t.rows ensures RowOk(t, o) {
      RowStays(s, t, o);
    }
    HandledStays(s, t, pos);
    GrowthKeeps(s, t);
  }

  lemma {:induction false} DeliveryGrowsBooks(b: Books, m: Message, fault: Fault)
    requires Asks(m).Some?
    ensures var c, e := BooksAfter(b, m, fault), Asks(m).value.entry;
            c.lines == b.lines || (c.lines == b.lines + [e] && !KeyTaken(b.lines, e.key))
  {
  }

  lemma {:induction false} DeliveredLineOk(t: Sys, i: nat)
    requires RowsOk(t) && i < |Outgoing(t)| && Genuine(t, Outgoing(t)[i].message)
    ensures var r := Asks(Outgoing(t)[i].message);
            r.Some? && LineOk(t, r.value.entry)
  {
    var m := Outgoing(t)[i].message;
    GenuineAsks(t, m);
    ConsumedRequestsAreLegal(m);
    assert Asks(Outgoing(t)[i].message) == Some(Request(Asks(m).value.entry, None));
  }

  /** Whatever goes wrong in one delivery, the message ends settled. */
  lemma {:induction false} DeliverySettles(s: Sys, m: Message, fault: Fault, dlqUp: bool, t: Sys)
    requires Asks(m).Some? && Asks(m).value.entry.key == m.payload.key && m.payload.key.Some?
    requires t.books == BooksAfter(s.books, m, fault)
    requires var dead := DeadLettered(s.books, m, fault);
             && t.dlq == (if dead && dlqUp then s.dlq + [m] else s.dlq)
             && t.dropped == (if dead && !dlqUp then s.dropped + [m] else s.dropped)
    ensures Settled(t, m)
  {
    var r := Asks(m).value;
    if !DeadLettered(s.books, m, fault) {
      if Decide(s.books, r).Applied? {
        assert t.books.lines[|s.books.lines|].key == m.payload.key;
      } else {
        assert KeyTaken(s.books.lines, m.payload.key);
        assert t.books.lines == s.books.lines;
      }
    }
  }

  lemma {:induction false} OtherWriterKeeps(s: Sys, r: Request)
    requires Inv(s) && FromElsewhere(s, r)
    ensures Inv(Next(s, OtherWriter(r)))
  {
    LedgerChangeKeeps(s, Apply(s.books, r), s.dlq, s.dropped, r.entry);
  }

  lemma {:induction false} PaymentStepKeeps(s: Sys, step: Step)
    requires Inv(s) && (step.Prepare? || step.BeginConfirm? || step.BeginRefund? || step.CallDies?)
    ensures Inv(Next(s, step))
  {
    match step
    case Prepare(p) => if NewPayment(s, p) { PrepareKeeps(s, p); }
    case BeginConfirm(o) => if o in s.rows { BeginKeeps(s, o); }
    case BeginRefund(o) => if o in s.rows { BeginKeeps(s, o); }
    case CallDies(c, approves, cancels) => if c < |s.calls| { CallDiesKeeps(s, c, approves, cancels); }
  }

  lemma {:induction false} ReplyStepKeeps(s: Sys, step: Step)
    requires Inv(s) && (step.ConfirmReply? || step.RefundReply?)
    ensures Inv(Next(s, step))
  {
    match step
    case ConfirmReply(c, reply, now) =>
      if c < |s.calls| && s.calls[c].ConfirmCall? && s.calls[c].loaded.orderId in s.rows {
        ConfirmReplyKeeps(s, c, reply, now);
      }
    case RefundReply(c, cancels, now) =>
      if c < |s.calls| && s.calls[c].RefundCall? && s.calls[c].loaded.orderId in s.rows {
        RefundReplyKeeps(s, c, cancels, now);
      }
  }

  lemma {:induction false} DeliverStepKeeps(s: Sys, step: Step)
    requires Inv(s) && step.Deliver?
    ensures Inv(Next(s, step))
  {
    if step.pos < |Log(s)| && Log(s)[step.pos] < |Outgoing(s)| {
      DeliverKeeps(s, step.pos, step.fault, step.dlqUp, step.ending);
    }
  }

  lemma {:induction false} RelayOrWriterStepKeeps(s: Sys, step: Step)
    requires Inv(s) && (step.RelayStep? || step.OtherWriter?)
    ensures Inv(Next(s, step))
  {
    match step
    case RelayStep(r) => if !r.Append? { RelayKeeps(s, r); }
    case OtherWriter(r) => if FromElsewhere(s, r) { OtherWriterKeeps(s, r); }
  }

  lemma {:induction false} NextKeeps(s: Sys, step: Step)
    requires Inv(s)
    ensures Inv(Next(s, step))
  {
    match step
    case ConfirmReply(_, _, _) => ReplyStepKeeps(s, step);
    case RefundReply(_, _, _) => ReplyStepKeeps(s, step);
    case RelayStep(_) => RelayOrWriterStepKeeps(s, step);
    case Deliver(_, _, _, _) => DeliverStepKeeps(s, step);
    case OtherWriter(_) => RelayOrWriterStepKeeps(s, step);
    case _ => PaymentStepKeeps(s, step);
  }

  lemma {:induction false} InitHolds()
    ensures Inv(Init())
  {
    var r: Relay.Sys<Message> := Relay.Start();
    assert Relay.Inv(r, 0, 0);
  }

  lemma {:induction false} AlwaysInv(steps: seq<Step>)
    ensures Inv(After(steps))
  {
    if steps == [] {
      InitHolds();
    } else {
      AlwaysInv(steps[..|steps| - 1]);
      NextKeeps(After(steps[..|steps| - 1]), steps[|steps| - 1]);
    }
  }

  // ------------------------------------------------------------------ main results

  lemma {:induction false} DeliveryKeepsSound(b: Books, m: Message, fault: Fault)
    requires Sound(b)
    ensures Sound(BooksAfter(b, m, fault))
  {
    ConsumedRequestsAreLegal(m);
    if Asks(m).Some? {
      NewWalletKeepsSound(b, Asks(m).value.entry.user);
      ApplyKeepsSound(b, Asks(m).value);
    }
  }

  /** What a step does to the books. */
  function BooksNext(s: Sys, step: Step): Books {
    match step
    case Deliver(pos, fault, _, _) =>
      if pos < |Log(s)| && Log(s)[pos] < |Outgoing(s)|
      then BooksAfter(s.books, Outgoing(s)[Log(s)[pos]].message, fault) else s.books
    case OtherWriter(r) => if FromElsewhere(s, r) then Apply(s.books, r) else s.books
    case _ => s.books
  }

  lemma {:induction false} OnlyDeliveriesWrite(s: Sys, step: Step)
    ensures Next(s, step).books == BooksNext(s, step)
  {
  }

  lemma {:induction false} BooksNextIsSound(s: Sys, step: Step)
    requires Sound(s.books)
    ensures Sound(BooksNext(s, step))
  {
    match step
    case Deliver(pos, fault, _, _) =>
      if pos < |Log(s)| && Log(s)[pos] < |Outgoing(s)| {
        DeliveryKeepsSound(s.books, Outgoing(s)[Log(s)[pos]].message, fault);
      }
    case OtherWriter(r) => if FromElsewhere(s, r) { ApplyKeepsSound(s.books, r); }
    case _ =>
  }

  /** Through the whole pipeline the books stay sound: each balance is the sum of its ledger lines and
      never negative. */
  lemma {:induction false} BooksStaySound(steps: seq<Step>)
    ensures Sound(After(steps).books)
  {
    if steps != [] {
      var s, step := After(steps[..|steps| - 1]), steps[|steps| - 1];
      BooksStaySound(steps[..|steps| - 1]);
      BooksNextIsSound(s, step);
      OnlyDeliveriesWrite(s, step);
    }
  }

  /** The purchase of order `o`, made once the gateway approved it for exactly its amount. */
  ghost predicate IsPurchaseOf(s: Sys, l: CreditTransaction, o: string)
    requires o in s.rows
  {
    var p := s.rows[o];
    && l == CreditTransaction(p.user, p.credits, Purchase, Some(p.id), Some(PurchaseKey(p.id)))
    && (o, p.amount) in s.approved
  }

  /** The refund of order `o`, made once the gateway also cancelled it. */
  ghost predicate IsRefundOf(s: Sys, l: CreditTransaction, o: string)
    requires o in s.rows
  {
    var p := s.rows[o];
    && l == CreditTransaction(p.user, -p.credits, Refund, Some(p.id), Some(RefundKey(p.id)))
    && (o, p.amount) in s.approved && o in s.cancelled
  }

  /** Exactly-once effect. In every run, whatever keys other writers use: every purchase line is +credits
      for the owner of a payment the gateway approved for exactly its recorded amount, every refund line
      -credits for the owner of one it also cancelled, and no payment has two of either. */
  lemma {:induction false} ExactlyOnceEffect(steps: seq<Step>)
    ensures var s := After(steps);
            && (forall l :: l in s.books.lines && l.kind.Purchase? ==> exists o :: o in s.rows && IsPurchaseOf(s, l, o))
            && (forall l :: l in s.books.lines && l.kind.Refund? ==> exists o :: o in s.rows && IsRefundOf(s, l, o))
            && (forall i, j, o :: 0 <= i < j < |s.books.lines| && o in s.rows ==>
                  !(IsPurchaseOf(s, s.books.lines[i], o) && IsPurchaseOf(s, s.books.lines[j], o))
                  && !(IsRefundOf(s, s.books.lines[i], o) && IsRefundOf(s, s.books.lines[j], o)))
  {
    var s := After(steps);
    AlwaysInv(steps);
    forall l | l in s.books.lines && PaymentLine(l)
      ensures exists o :: o in s.rows && if l.kind.Purchase? then IsPurchaseOf(s, l, o) else IsRefundOf(s, l, o)
    {
      var o := LineOwner(s, l);
    }
  }

  /** What stands under a payment's key: the payment's own line, or a line of another writer. */
  lemma {:induction false} KeyDecidesLine(s: Sys, l: CreditTransaction, o: string)
    requires Inv(s) && l in s.books.lines && o in s.rows
    ensures l.key == Some(PurchaseKey(s.rows[o].id)) ==> IsPurchaseOf(s, l, o) || !PaymentLine(l)
    ensures l.key == Some(RefundKey(s.rows[o].id)) ==> IsRefundOf(s, l, o) || !PaymentLine(l)
  {
    if PaymentLine(l) {
      var q := LineOwner(s, l);
      KeysNameOneEvent(s.rows[o].id, s.rows[q].id);
      KeysNameOneEvent(s.rows[q].id, s.rows[o].id);
    }
  }

  /** The order a payment line belongs to. */
  lemma {:induction false} LineOwner(s: Sys, l: CreditTransaction) returns (o: string)
    requires Inv(s) && l in s.books.lines && PaymentLine(l)
    ensures o in s.rows && (IsPurchaseOf(s, l, o) || IsRefundOf(s, l, o))
  {
    var n :| 0 <= n < |s.books.lines| && s.books.lines[n] == l;
    assert LineOk(s, s.books.lines[n]);
    var i :| 0 <= i < |Outgoing(s)| && Asks(Outgoing(s)[i].message) == Some(Request(l, None));
    var m := Outgoing(s)[i].message;
    assert Genuine(s, m);
    o :| o in s.rows && MessageOf(s, m, o);
    assert RowOk(s, o);
    RecordedMessagesAreReadable(s.rows[o], m.payload.at.value);
  }

  // ------------------------------------------------------------------ the gateway and the broker

  /** Waiting refunds hold a provider key, and only approved orders have been cancelled. */
  ghost predicate OnlyApprovedAreCancelled(s: Sys) {
    && (forall i :: 0 <= i < |s.calls| && s.calls[i].RefundCall? ==> s.calls[i].loaded.providerKey.Some?)
    && (forall o :: o in s.cancelled ==> o in s.rows && (o, s.rows[o].amount) in s.approved)
  }

  lemma {:induction false} ConfirmReplyCancels(s: Sys, c: nat, reply: GatewayReply, now: int)
    requires Inv(s) && OnlyApprovedAreCancelled(s)
    requires c < |s.calls| && s.calls[c].ConfirmCall? && s.calls[c].loaded.orderId in s.rows
    ensures OnlyApprovedAreCancelled(AfterConfirm(s, c, reply, now))
  {
    assert CallOk(s, s.calls[c]);
  }

  lemma {:induction false} RefundReplyCancels(s: Sys, c: nat, cancels: bool, now: int)
    requires Inv(s) && OnlyApprovedAreCancelled(s)
    requires c < |s.calls| && s.calls[c].RefundCall? && s.calls[c].loaded.orderId in s.rows
    ensures OnlyApprovedAreCancelled(AfterRefund(s, c, cancels, now))
  {
    assert CallOk(s, s.calls[c]);
  }

  lemma {:induction false} DyingCallCancels(s: Sys, c: nat, step: Step)
    requires Inv(s) && OnlyApprovedAreCancelled(s)
    requires c < |s.calls| && step.CallDies? && step.call == c
    ensures OnlyApprovedAreCancelled(Next(s, step))
  {
    assert CallOk(s, s.calls[c]);
  }

  lemma {:induction false} CancelStep(s: Sys, step: Step)
    requires Inv(s) && OnlyApprovedAreCancelled(s)
    ensures OnlyApprovedAreCancelled(Next(s, step))
  {
    match step
    case ConfirmReply(c, reply, now) =>
      if c < |s.calls| && s.calls[c].ConfirmCall? && s.calls[c].loaded.orderId in s.rows {
        ConfirmReplyCancels(s, c, reply, now);
      }
    case RefundReply(c, cancels, now) =>
      if c < |s.calls| && s.calls[c].RefundCall? && s.calls[c].loaded.orderId in s.rows {
        RefundReplyCancels(s, c, cancels, now);
      }
    case CallDies(c, _, _) =>
      if c < |s.calls| {
        DyingCallCancels(s, c, step);
      }
    case Deliver(pos, fault, dlqUp, ending) =>
      if pos < |Log(s)| && Log(s)[pos] < |Outgoing(s)| {
        var t := AfterDelivery(s, pos, fault, dlqUp, ending);
        assert t.calls == s.calls && t.rows == s.rows && t.approved == s.approved && t.cancelled == s.cancelled;
      }
    case _ =>
  }

  /** The gateway is asked to cancel only orders that it approved for their recorded amount. */
  lemma {:induction false} CancelledWereApproved(steps: seq<Step>)
    ensures OnlyApprovedAreCancelled(After(steps))
  {
    if steps != [] {
      var n := |steps| - 1;
      CancelledWereApproved(steps[..n]);
      AlwaysInv(steps[..n]);
      CancelStep(After(steps[..n]), steps[n]);
    }
  }

  /** A call can die after the gateway has acted and before anything is written. */
  lemma {:induction false} DyingCallsMayHaveActed(s: Sys, c: nat, amount: int)
    requires c < |s.calls| && !s.calls[c].Returned?
    ensures var t, o := Next(s, CallDies(c, Some(amount), true)), s.calls[c].loaded.orderId;
            && t.calls[c].Returned? && t.rows == s.rows && t.relay == s.relay
            && (s.calls[c].ConfirmCall? ==> (o, amount) in t.approved)
            && (s.calls[c].RefundCall? ==> o in t.cancelled)
  {
  }

  /** Step `k` of the run is an acknowledged delivery of the copy at `pos`. */
  predicate Acknowledges(steps: seq<Step>, k: nat, pos: nat)
    requires k < |steps|
  {
    var s, step := After(steps[..k]), steps[k];
    step.Deliver? && step.pos == pos && step.ending.Acked? && pos < |Log(s)| && Log(s)[pos] < |Outgoing(s)|
  }

  /** A copy in the broker counts as handled exactly when one of its deliveries was acknowledged; until then
      it can be delivered again. */
  lemma {:induction false} HandledExactlyWhen(steps: seq<Step>, pos: nat)
    ensures pos in After(steps).handled <==> exists k :: 0 <= k < |steps| && Acknowledges(steps, k, pos)
  {
    if steps != [] {
      var n := |steps| - 1;
      HandledExactlyWhen(steps[..n], pos);
      forall k | 0 <= k < n ensures Acknowledges(steps[..n], k, pos) <==> Acknowledges(steps, k, pos) {
        assert steps[..n][..k] == steps[..k];
      }
      HandledStep(After(steps[..n]), steps[n], pos);
      if Acknowledges(steps, n, pos) {
        assert pos in After(steps).handled;
      }
    }
  }

  lemma {:induction false} HandledStep(s: Sys, step: Step, pos: nat)
    ensures pos in Next(s, step).handled <==>
              || pos in s.handled
              || (step.Deliver? && step.pos == pos && step.ending.Acked? && pos < |Log(s)| && Log(s)[pos] < |Outgoing(s)|)
  {
  }

  // ------------------------------------------------------------------ stale copies

  /** A late `confirm` takes a refunded payment back exactly when the gateway approves the recorded amount
      and the copy it read before the call was not refunded yet. */
  lemma {:induction false} RefundedReopensExactlyWhen(s: Sys, c: nat, reply: GatewayReply, now: int)
    requires c < |s.calls| && s.calls[c].ConfirmCall? && s.calls[c].loaded.orderId in s.rows
    requires s.rows[s.calls[c].loaded.orderId].status.Refunded?
    ensures var loaded := s.calls[c].loaded;
            !Next(s, ConfirmReply(c, reply, now)).rows[loaded.orderId].status.Refunded? <==>
              && reply.Approved? && reply.amount == loaded.amount
              && (loaded.status.Pending? || loaded.status.Confirmed?)
  {
  }

  /** Calls on one order follow each other: a reply finds the row as its call read it. */
  predicate InTurn(s: Sys, step: Step) {
    var c := if step.ConfirmReply? || step.RefundReply? then step.call else |s.calls|;
    c < |s.calls| && !s.calls[c].Returned? && s.calls[c].loaded.orderId in s.rows ==>
      s.rows[s.calls[c].loaded.orderId] == s.calls[c].loaded
  }

  predicate InTurnAt(steps: seq<Step>, k: nat)
    requires k < |steps|
  {
    InTurn(After(steps[..k]), steps[k])
  }

  lemma {:induction false} RefundedStays(s: Sys, step: Step, o: string)
    requires RowsOk(s) && o in s.rows && s.rows[o].status.Refunded? && InTurn(s, step)
    ensures o in Next(s, step).rows && Next(s, step).rows[o] == s.rows[o]
  {
    assert RowOk(s, o);
  }

  /** When the calls on each order follow each other, REFUNDED is final: the row never changes again. */
  lemma {:induction false} RefundedIsFinalInTurn(steps: seq<Step>, o: string, j: nat)
    requires forall k :: 0 <= k < |steps| ==> InTurnAt(steps, k)
    requires j <= |steps| && o in After(steps[..j]).rows && After(steps[..j]).rows[o].status.Refunded?
    ensures o in After(steps).rows && After(steps).rows[o] == After(steps[..j]).rows[o]
  {
    assert steps[..|steps|] == steps;
    if j < |steps| {
      var n := |steps| - 1;
      assert steps[..n][..j] == steps[..j];
      forall k | 0 <= k < n ensures InTurnAt(steps[..n], k) {
        assert InTurnAt(steps, k) && steps[..n][..k] == steps[..k];
      }
      RefundedIsFinalInTurn(steps[..n], o, j);
      AlwaysInv(steps[..n]);
      assert InTurnAt(steps, n);
      RefundedStays(After(steps[..n]), steps[n], o);
    }
  }

  // ------------------------------------------------------------------ nothing is lost

  lemma {:induction false} CollapsedHasAll(log: seq<nat>, i: nat)
    ensures i in Relay.Collapsed(log) ==> i in log
  {
    if log != [] {
      CollapsedHasAll(log[..|log| - 1], i);
    }
  }

  /** A copy of row `i` is in the broker's log and no delivery of it has been acknowledged. */
  ghost predicate Undelivered(s: Sys, i: nat) {
    exists pos :: 0 <= pos < |Log(s)| && Log(s)[pos] == i && pos !in s.handled
  }

  /** The fact's own line is on the ledger. */
  ghost predicate OwnLine(s: Sys, m: Message) {
    exists l :: l in s.books.lines && Asks(m) == Some(Request(l, None))
  }

  /** Another writer's line stands under this key. */
  predicate TakenByOther(lines: seq<CreditTransaction>, key: Option<string>) {
    key.Some? && exists i :: 0 <= i < |lines| && lines[i].key == key && !PaymentLine(lines[i])
  }

  lemma {:induction false} SameKeySameRequest(s: Sys, m: Message, q: Message)
    requires RowsOk(s) && Genuine(s, m) && Genuine(s, q) && m.payload.key == q.payload.key
    ensures Asks(m) == Asks(q)
  {
    var a :| a in s.rows && MessageOf(s, m, a);
    var b :| b in s.rows && MessageOf(s, q, b);
    KeysNameOneEvent(s.rows[a].id, s.rows[b].id);
    KeysNameOneEvent(s.rows[b].id, s.rows[a].id);
    assert RowOk(s, a);
    RecordedMessagesAreReadable(s.rows[a], m.payload.at.value);
    RecordedMessagesAreReadable(s.rows[a], q.payload.at.value);
  }

  lemma {:induction false} PaymentLineIsOwn(s: Sys, m: Message, n: nat)
    requires Inv(s) && Genuine(s, m) && n < |s.books.lines|
    requires s.books.lines[n].key == m.payload.key && PaymentLine(s.books.lines[n])
    ensures Asks(m) == Some(Request(s.books.lines[n], None))
  {
    var l := s.books.lines[n];
    assert LineOk(s, l);
    var i :| 0 <= i < |Outgoing(s)| && Asks(Outgoing(s)[i].message) == Some(Request(l, None));
    var q := Outgoing(s)[i].message;
    assert Genuine(s, q);
    ConsumedRequestsAreLegal(q);
    SameKeySameRequest(s, m, q);
  }

  /** A fact whose key is taken has its own line exactly when no other writer took the key. */
  lemma {:induction false} OwnLineOrOther(s: Sys, m: Message)
    requires Inv(s) && Genuine(s, m)
    ensures KeyTaken(s.books.lines, m.payload.key) ==> (OwnLine(s, m) <==> !TakenByOther(s.books.lines, m.payload.key))
    ensures OwnLine(s, m) || TakenByOther(s.books.lines, m.payload.key) ==> KeyTaken(s.books.lines, m.payload.key)
  {
    var lines, key := s.books.lines, m.payload.key;
    ConsumedRequestsAreLegal(m);
    GenuineAsks(s, m);
    if OwnLine(s, m) {
      var l :| l in lines && Asks(m) == Some(Request(l, None));
      var n :| 0 <= n < |lines| && lines[n] == l;
      assert lines[n].key == key && PaymentLine(lines[n]);
      assert forall i :: 0 <= i < |lines| && lines[i].key == key ==> i == n;
    }
    if KeyTaken(lines, key) && !TakenByOther(lines, key) {
      var n :| 0 <= n < |lines| && lines[n].key == key;
      PaymentLineIsOwn(s, m, n);
    }
  }

  /** Published, every copy handled, and no dead letter. */
  ghost predicate Done(s: Sys, i: nat)
    requires i < |Outgoing(s)|
  {
    Outgoing(s)[i].published && !Undelivered(s, i) && Outgoing(s)[i].message !in s.dlq
  }

  lemma {:induction false} DoneIsSettled(s: Sys, i: nat)
    requires Inv(s) && i < |Outgoing(s)| && Done(s, i)
    ensures Settled(s, Outgoing(s)[i].message)
  {
    var m, k :| Relay.Inv(s.relay, m, k);
    assert Relay.From(0, k)[i] == i;
    assert i in Relay.Collapsed(Log(s));
    CollapsedHasAll(Log(s), i);
    var pos :| 0 <= pos < |Log(s)| && Log(s)[pos] == i;
    assert pos in s.handled && HandledOk(s, pos);
  }

  /** When a credit is lost for good. In every run, a recorded fact that is published, delivered and not
      dead-lettered lacks its own ledger line exactly when another writer's line stands under its key, or
      nothing does and its dead letter could not be published. */
  lemma {:induction false} LostExactlyWhen(steps: seq<Step>, i: nat)
    requires i < |Outgoing(After(steps))| && Done(After(steps), i)
    ensures var s, m := After(steps), Outgoing(After(steps))[i].message;
            !OwnLine(s, m) <==>
              || TakenByOther(s.books.lines, m.payload.key)
              || (m in s.dropped && !KeyTaken(s.books.lines, m.payload.key))
  {
    var s := After(steps);
    AlwaysInv(steps);
    assert Genuine(s, Outgoing(s)[i].message);
    DoneIsSettled(s, i);
    OwnLineOrOther(s, Outgoing(s)[i].message);
  }

  /** No credit vanishes: as long as the dead-letter topic works and no other writer uses the fact's key,
      in every reachable state each recorded fact has its own line on the ledger, or is not yet marked as
      published, or has a copy in the broker still to be delivered, or has a dead letter. */
  lemma {:induction false} NoCreditVanishes(steps: seq<Step>, i: nat)
    requires forall k :: 0 <= k < |steps| && steps[k].Deliver? ==> steps[k].dlqUp
    requires i < |Outgoing(After(steps))|
    requires !TakenByOther(After(steps).books.lines, Outgoing(After(steps))[i].message.payload.key)
    ensures var s, row := After(steps), Outgoing(After(steps))[i];
            OwnLine(s, row.message) || !row.published || Undelivered(s, i) || row.message in s.dlq
  {
    NothingDroppedWhileDlqIsUp(steps);
    if Done(After(steps), i) {
      LostExactlyWhen(steps, i);
    }
  }

  /** Letters are dropped only by a delivery whose dead-letter publish failed. */
  lemma {:induction false} NothingDroppedWhileDlqIsUp(steps: seq<Step>)
    requires forall i :: 0 <= i < |steps| && steps[i].Deliver? ==> steps[i].dlqUp
    ensures After(steps).dropped == []
  {
    if steps != [] {
      NothingDroppedWhileDlqIsUp(steps[..|steps| - 1]);
    }
  }

  // ------------------------------------------------------------------ conservation

  function Messages(rows: seq<Relay.Row<Message>>): seq<Message> {
    if rows == [] then [] else Messages(rows[..|rows| - 1]) + [rows[|rows| - 1].message]
  }

  predicate HasKey(ms: seq<Message>, key: Option<string>) {
    exists i :: 0 <= i < |ms| && ms[i].payload.key == key
  }

  /** The first message of each key. */
  function Distinct(ms: seq<Message>): seq<Message> {
    if ms == [] then []
    else
      var front, last := ms[..|ms| - 1], ms[|ms| - 1];
      Distinct(front) + (if HasKey(front, last.payload.key) then [] else [last])
  }

  /** Purchases promise credits, refunds take them back. */
  function Value(m: Message, user: Uuid): int {
    if m.payload.user != Some(user) || m.payload.credits.None? then 0
    else if m.topic.PurchaseConfirmed? then m.payload.credits.value
    else -m.payload.credits.value
  }

  function Promised(ms: seq<Message>, user: Uuid): int {
    if ms == [] then 0 else Promised(ms[..|ms| - 1], user) + Value(ms[|ms| - 1], user)
  }

  /** A purchase or refund line stands under the key. */
  predicate Paid(lines: seq<CreditTransaction>, key: Option<string>) {
    key.Some? && exists i :: 0 <= i < |lines| && lines[i].key == key && PaymentLine(lines[i])
  }

  /** The part of `Promised` that has no line of its own. */
  function Outstanding(ms: seq<Message>, lines: seq<CreditTransaction>, user: Uuid): int {
    if ms == [] then 0
    else Outstanding(ms[..|ms| - 1], lines, user)
         + (if Paid(lines, ms[|ms| - 1].payload.key) then 0 else Value(ms[|ms| - 1], user))
  }

  /** The part of that whose keys nobody has used, so that a delivery would still apply it. */
  function Waiting(ms: seq<Message>, lines: seq<CreditTransaction>, user: Uuid): int {
    if ms == [] then 0
    else Waiting(ms[..|ms| - 1], lines, user)
         + (if KeyTaken(lines, ms[|ms| - 1].payload.key) then 0 else Value(ms[|ms| - 1], user))
  }

  /** The part whose keys other writers have used, which no delivery will apply. */
  function Usurped(ms: seq<Message>, lines: seq<CreditTransaction>, user: Uuid): int {
    if ms == [] then 0
    else Usurped(ms[..|ms| - 1], lines, user)
         + (if TakenByOther(lines, ms[|ms| - 1].payload.key) then Value(ms[|ms| - 1], user) else 0)
  }

  /** Credits the ledger has moved for the user by purchases and refunds. */
  function AppliedCredits(lines: seq<CreditTransaction>, user: Uuid): int {
    if lines == [] then 0
    else
      var l := lines[|lines| - 1];
      AppliedCredits(lines[..|lines| - 1], user) + (if PaymentLine(l) && l.user == user then l.delta else 0)
  }

  lemma {:induction false} MessagesAre(rows: seq<Relay.Row<Message>>)
    ensures |Messages(rows)| == |rows|
    ensures forall i :: 0 <= i < |rows| ==> Messages(rows)[i] == rows[i].message
  {
    if rows != [] {
      MessagesAre(rows[..|rows| - 1]);
    }
  }

  ghost predicate KeysDiffer(ms: seq<Message>) {
    forall i, j :: 0 <= i < j < |ms| ==> ms[i].payload.key != ms[j].payload.key
  }

  lemma {:induction false} DistinctKeepsKeys(ms: seq<Message>)
    ensures KeysDiffer(Distinct(ms))
    ensures forall m :: m in Distinct(ms) ==> m in ms
    ensures forall m :: m in ms ==> HasKey(Distinct(ms), m.payload.key)
  {
    if ms != [] {
      var front, last, d := ms[..|ms| - 1], ms[|ms| - 1], Distinct(ms);
      DistinctKeepsKeys(front);
      forall m | m in ms ensures HasKey(d, m.payload.key) {
        if m in front {
          var i :| 0 <= i < |Distinct(front)| && Distinct(front)[i].payload.key == m.payload.key;
          assert d[i].payload.key == m.payload.key;
        } else if HasKey(front, last.payload.key) {
          var j :| 0 <= j < |front| && front[j].payload.key == last.payload.key;
          var i :| 0 <= i < |Distinct(front)| && Distinct(front)[i].payload.key == front[j].payload.key;
          assert d[i].payload.key == m.payload.key;
        } else {
          assert d[|Distinct(front)|].payload.key == m.payload.key;
        }
      }
      if !HasKey(front, last.payload.key) {
        forall i | 0 <= i < |Distinct(front)| ensures Distinct(front)[i].payload.key != last.payload.key {
          assert Distinct(front)[i] in front;
        }
      }
    }
  }

  /** A new payment line settles exactly the one message with its key. */
  lemma {:induction false} OneLineSettlesOneMessage(
    ms: seq<Message>, lines: seq<CreditTransaction>, l: CreditTransaction, i: nat, user: Uuid)
    requires KeysDiffer(ms) && i < |ms| && PaymentLine(l)
    requires ms[i].payload.key == l.key && l.key.Some? && !Paid(lines, l.key)
    ensures Outstanding(ms, lines + [l], user) == Outstanding(ms, lines, user) - Value(ms[i], user)
  {
    var n := |ms| - 1;
    PaidAfter(lines, l, ms[n].payload.key);
    if i == n {
      OtherKeysUnsettled(ms[..n], lines, l, user);
    } else {
      OneLineSettlesOneMessage(ms[..n], lines, l, i, user);
    }
  }

  lemma {:induction false} PaidAfter(lines: seq<CreditTransaction>, l: CreditTransaction, key: Option<string>)
    ensures Paid(lines + [l], key) <==> Paid(lines, key) || (key.Some? && l.key == key && PaymentLine(l))
  {
    if Paid(lines, key) {
      var i :| 0 <= i < |lines| && lines[i].key == key && PaymentLine(lines[i]);
      assert (lines + [l])[i] == lines[i];
    }
    if key.Some? && l.key == key && PaymentLine(l) {
      assert (lines + [l])[|lines|] == l;
    }
  }

  lemma {:induction false} OtherKeysUnsettled(
    ms: seq<Message>, lines: seq<CreditTransaction>, l: CreditTransaction, user: Uuid)
    requires !PaymentLine(l) || forall i :: 0 <= i < |ms| ==> ms[i].payload.key != l.key
    ensures Outstanding(ms, lines + [l], user) == Outstanding(ms, lines, user)
  {
    if ms != [] {
      PaidAfter(lines, l, ms[|ms| - 1].payload.key);
      OtherKeysUnsettled(ms[..|ms| - 1], lines, l, user);
    }
  }

  lemma {:induction false} NothingSettledYet(ms: seq<Message>, user: Uuid)
    ensures Outstanding(ms, [], user) == Promised(ms, user)
  {
    if ms != [] {
      NothingSettledYet(ms[..|ms| - 1], user);
    }
  }

  /** `l` carries the credits of the message at `i` of `ms`. */
  ghost predicate Settles(l: CreditTransaction, m: Message) {
    l.key.Some? && m.payload.key == l.key && forall user :: Value(m, user) == if l.user == user then l.delta else 0
  }

  lemma {:induction false} PromisedSplits(ms: seq<Message>, lines: seq<CreditTransaction>, user: Uuid)
    requires KeysDiffer(ms) && UniqueKeys(lines)
    requires forall n :: 0 <= n < |lines| && PaymentLine(lines[n]) ==>
               exists i :: 0 <= i < |ms| && Settles(lines[n], ms[i])
    ensures Promised(ms, user) == AppliedCredits(lines, user) + Outstanding(ms, lines, user)
  {
    if lines == [] {
      NothingSettledYet(ms, user);
    } else {
      var front, l := lines[..|lines| - 1], lines[|lines| - 1];
      PromisedSplits(ms, front, user);
      assert lines == front + [l];
      if PaymentLine(l) {
        var i :| 0 <= i < |ms| && Settles(l, ms[i]);
        assert !Paid(front, l.key);
        OneLineSettlesOneMessage(ms, front, l, i, user);
      } else {
        OtherKeysUnsettled(ms, front, l, user);
      }
    }
  }

  lemma {:induction false} LinesSettleMessages(s: Sys, n: nat)
    requires Inv(s) && n < |s.books.lines| && PaymentLine(s.books.lines[n])
    ensures var ms := Distinct(Messages(Outgoing(s)));
            exists i :: 0 <= i < |ms| && Settles(s.books.lines[n], ms[i])
  {
    var l := s.books.lines[n];
    assert LineOk(s, l);
    var j :| 0 <= j < |Outgoing(s)| && Asks(Outgoing(s)[j].message) == Some(Request(l, None));
    var m := Outgoing(s)[j].message;
    assert Genuine(s, m);
    var i := FirstOfItsKey(s, j);
    GenuineSettles(s, l, m);
    TwinSettles(s, l, m, Distinct(Messages(Outgoing(s)))[i]);
  }

  lemma {:induction false} TwinSettles(s: Sys, l: CreditTransaction, m: Message, q: Message)
    requires RowsOk(s) && Genuine(s, m) && Genuine(s, q) && m.payload.key == q.payload.key
    requires Settles(l, m)
    ensures Settles(l, q)
  {
    SameKeySameValue(s, q, m);
    forall user ensures Value(q, user) == if l.user == user then l.delta else 0 {
      assert Value(m, user) == if l.user == user then l.delta else 0;
    }
  }

  lemma {:induction false} GenuineSettles(s: Sys, l: CreditTransaction, m: Message)
    requires RowsOk(s) && Genuine(s, m) && Asks(m) == Some(Request(l, None))
    ensures Settles(l, m)
  {
    var o :| o in s.rows && MessageOf(s, m, o);
    assert RowOk(s, o);
    RecordedMessagesAreReadable(s.rows[o], m.payload.at.value);
  }

  /** The distinct fact that stands for row `j`. */
  lemma {:induction false} FirstOfItsKey(s: Sys, j: nat) returns (i: nat)
    requires Inv(s) && j < |Outgoing(s)|
    ensures var ms := Distinct(Messages(Outgoing(s)));
            i < |ms| && ms[i].payload.key == Outgoing(s)[j].message.payload.key && Genuine(s, ms[i])
  {
    i := DistinctStandsFor(Outgoing(s), j);
    var h := DistinctComesFrom(Outgoing(s), i);
    assert Genuine(s, Outgoing(s)[h].message);
  }

  lemma {:induction false} DistinctStandsFor(rows: seq<Relay.Row<Message>>, j: nat) returns (i: nat)
    requires j < |rows|
    ensures var ms := Distinct(Messages(rows)); i < |ms| && ms[i].payload.key == rows[j].message.payload.key
  {
    var all, ms := Messages(rows), Distinct(Messages(rows));
    MessagesAre(rows);
    DistinctKeepsKeys(all);
    assert all[j] in all;
    i :| 0 <= i < |ms| && ms[i].payload.key == all[j].payload.key;
  }

  lemma {:induction false} DistinctComesFrom(rows: seq<Relay.Row<Message>>, i: nat) returns (h: nat)
    requires i < |Distinct(Messages(rows))|
    ensures h < |rows| && rows[h].message == Distinct(Messages(rows))[i]
  {
    var all, ms := Messages(rows), Distinct(Messages(rows));
    MessagesAre(rows);
    DistinctKeepsKeys(all);
    assert ms[i] in ms;
    h :| 0 <= h < |all| && all[h] == ms[i];
  }

  /** Two genuine messages with the same key say the same thing. */
  lemma {:induction false} SameKeySameValue(s: Sys, m: Message, q: Message)
    requires RowsOk(s) && Genuine(s, m) && Genuine(s, q) && m.payload.key == q.payload.key
    ensures m.topic == q.topic && m.payload.user == q.payload.user && m.payload.credits == q.payload.credits
  {
    var a :| a in s.rows && MessageOf(s, m, a);
    var b :| b in s.rows && MessageOf(s, q, b);
    KeysNameOneEvent(s.rows[a].id, s.rows[b].id);
    KeysNameOneEvent(s.rows[b].id, s.rows[a].id);
  }

  lemma {:induction false} OutstandingSplits(s: Sys, ms: seq<Message>, user: Uuid)
    requires Inv(s) && forall i :: 0 <= i < |ms| ==> Genuine(s, ms[i])
    ensures var lines := s.books.lines;
            Outstanding(ms, lines, user) == Waiting(ms, lines, user) + Usurped(ms, lines, user)
  {
    if ms != [] {
      OutstandingSplits(s, ms[..|ms| - 1], user);
      assert Genuine(s, ms[|ms| - 1]);
      PaidOrOther(s, ms[|ms| - 1].payload.key);
    }
  }

  lemma {:induction false} PaidOrOther(s: Sys, key: Option<string>)
    requires UniqueKeys(s.books.lines)
    ensures KeyTaken(s.books.lines, key) <==> Paid(s.books.lines, key) || TakenByOther(s.books.lines, key)
    ensures !(Paid(s.books.lines, key) && TakenByOther(s.books.lines, key))
  {
  }

  lemma {:induction false} NothingUsurped(ms: seq<Message>, lines: seq<CreditTransaction>, user: Uuid)
    requires forall i :: 0 <= i < |ms| ==> !TakenByOther(lines, ms[i].payload.key)
    ensures Usurped(ms, lines, user) == 0
  {
    if ms != [] {
      NothingUsurped(ms[..|ms| - 1], lines, user);
    }
  }

  /** Conservation: per user, what the distinct recorded facts promise is what purchases and refunds have
      moved on the ledger, plus what a delivery would still apply, plus what other writers' lines stand in
      the way of; and that last part is nothing when they use no payment key. */
  lemma {:induction false} CreditsAreConserved(steps: seq<Step>, user: Uuid)
    ensures var s := After(steps);
            var facts, lines := Distinct(Messages(Outgoing(s))), s.books.lines;
            && Promised(facts, user) ==
                 AppliedCredits(lines, user) + Waiting(facts, lines, user) + Usurped(facts, lines, user)
            && ((forall n :: 0 <= n < |lines| && !PaymentLine(lines[n]) && lines[n].key.Some? ==>
                   !IsPaymentKey(lines[n].key.value)) ==> Usurped(facts, lines, user) == 0)
  {
    var s := After(steps);
    AlwaysInv(steps);
    var all, facts := Messages(Outgoing(s)), Distinct(Messages(Outgoing(s)));
    MessagesAre(Outgoing(s));
    DistinctKeepsKeys(all);
    forall i | 0 <= i < |facts| ensures Genuine(s, facts[i]) {
      var h := DistinctComesFrom(Outgoing(s), i);
      assert Genuine(s, Outgoing(s)[h].message);
    }
    forall n | 0 <= n < |s.books.lines| && PaymentLine(s.books.lines[n])
      ensures exists i :: 0 <= i < |facts| && Settles(s.books.lines[n], facts[i])
    {
      LinesSettleMessages(s, n);
    }
    PromisedSplits(facts, s.books.lines, user);
    OutstandingSplits(s, facts, user);
    forall i | 0 <= i < |facts| ensures facts[i].payload.key.Some? && IsPaymentKey(facts[i].payload.key.value) {
      GenuineAsks(s, facts[i]);
    }
    if forall n :: 0 <= n < |s.books.lines| && !PaymentLine(s.books.lines[n]) && s.books.lines[n].key.Some? ==>
         !IsPaymentKey(s.books.lines[n].key.value) {
      NothingUsurped(facts, s.books.lines, user);
    }
  }
}
