/** Runs of the credit pipeline in which a guarantee fails, each at the condition that its theorem names. */
module PipelineRuns {
  import opened Prelude
  import opened WalletDomain
  import opened WalletLedger
  import opened PaymentDomain
  import opened PaymentSaga
  import opened CreditEvents
  import opened CreditPipeline
  import Relay = OutboxRelay

  const PAYMENT: PaymentRecord := PaymentRecord(
    "00000000-0000-0000-0000-000000000001", "00000000-0000-0000-0000-000000000002",
    "order", 1000, 10, Pending, None, None, None)

  lemma {:induction false} PaymentIsNew()
    ensures NewPayment(Init(), PAYMENT)
  {
  }

  lemma {:induction false} Onwards(steps: seq<Step>, step: Step) returns (more: seq<Step>)
    ensures more == steps + [step] && After(more) == Next(After(steps), step)
  {
    more := steps + [step];
    assert more[..|steps|] == steps;
  }

  function Confirmed(p: PaymentRecord): PaymentRecord {
    p.(status := PaymentStatus.Confirmed, providerKey := Some("k"), confirmedAt := Some(1))
  }

  function Refunded(p: PaymentRecord): PaymentRecord {
    Confirmed(p).(status := PaymentStatus.Refunded, refundedAt := Some(2))
  }

  // ------------------------------------------------------------------ stale copies

  predicate Holding(s: Sys, row: PaymentRecord, calls: seq<Call>) {
    s.rows == map[row.orderId := row] && s.calls == calls
  }

  lemma {:induction false} ConfirmsFrom(s: Sys, row: PaymentRecord, calls: seq<Call>, c: nat, p: PaymentRecord)
    requires Holding(s, row, calls) && c < |calls| && calls[c] == ConfirmCall(p)
    requires p.status.Pending? && row.orderId == p.orderId
    ensures Holding(Next(s, ConfirmReply(c, Approved("k", p.amount), 1)),
                    Overwritten(row, Confirmed(p)), calls[c := Returned])
  {
  }

  lemma {:induction false} RefundsFrom(s: Sys, row: PaymentRecord, calls: seq<Call>, c: nat, p: PaymentRecord)
    requires Holding(s, row, calls) && c < |calls| && calls[c] == RefundCall(p)
    requires p.status.Confirmed? && row.orderId == p.orderId
    ensures Holding(Next(s, RefundReply(c, true, 2)),
                    Overwritten(row, p.(status := PaymentStatus.Refunded, refundedAt := Some(2))), calls[c := Returned])
  {
  }

  /** Two confirmations read the same waiting payment; one goes through, the payment is refunded, and then
      the other one goes through: a refunded payment is CONFIRMED again. */
  lemma {:induction false} RefundedPaymentCanReopen() returns (steps: seq<Step>, j: nat)
    ensures j < |steps|
    ensures After(steps[..j]).rows == map["order" := Refunded(PAYMENT)]
    ensures "order" in After(steps).rows && After(steps).rows["order"].status == PaymentStatus.Confirmed
  {
    var p := PAYMENT;
    PaymentIsNew();
    steps := Onwards([], Prepare(p));
    assert Holding(After(steps), p, []);
    steps := Onwards(steps, BeginConfirm("order"));
    assert Holding(After(steps), p, [ConfirmCall(p)]);
    steps := Onwards(steps, BeginConfirm("order"));
    assert Holding(After(steps), p, [ConfirmCall(p), ConfirmCall(p)]);
    ConfirmsFrom(After(steps), p, [ConfirmCall(p), ConfirmCall(p)], 0, p);
    steps := Onwards(steps, ConfirmReply(0, Approved("k", p.amount), 1));
    assert Holding(After(steps), Confirmed(p), [Returned, ConfirmCall(p)]);
    steps := Onwards(steps, BeginRefund("order"));
    var calls := [Returned, ConfirmCall(p), RefundCall(Confirmed(p))];
    assert Holding(After(steps), Confirmed(p), calls);
    RefundsFrom(After(steps), Confirmed(p), calls, 2, Confirmed(p));
    steps := Onwards(steps, RefundReply(2, true, 2));
    calls := calls[2 := Returned];
    assert Holding(After(steps), Refunded(p), calls);
    j := |steps|;
    ConfirmsFrom(After(steps), Refunded(p), calls, 1, p);
    ghost var before := steps;
    steps := Onwards(steps, ConfirmReply(1, Approved("k", p.amount), 1));
    assert steps[..j] == before;
  }

  // ------------------------------------------------------------------ up to the broker

  function PurchaseFact(): Message { PurchaseMessage(PAYMENT, 1) }

  function RefundFact(): Message { RefundMessage(PAYMENT, 2) }

  function Sent(m: Message): Relay.Row<Message> { Relay.Row(m, true) }

  function Idle(rows: seq<Relay.Row<Message>>, log: seq<nat>): Relay.Sys<Message> {
    Relay.Sys(Relay.Outbox(rows, log), [], false)
  }

  /** Fetch, publish and mark, of the one row that is not published yet. */
  lemma {:induction false} RelaySendsTheLast(rows: seq<Relay.Row<Message>>, log: seq<nat>, m: Message)
    requires forall i :: 0 <= i < |rows| ==> rows[i].published
    ensures var r := Idle(rows + [Relay.Row(m, false)], log);
            Relay.Next(Relay.Next(Relay.Next(r, Relay.Fetch(1)), Relay.Publish(Relay.Delivered)), Relay.Mark)
            == Idle(rows + [Sent(m)], log + [|rows|])
  {
    var all := rows + [Relay.Row(m, false)];
    Relay.UnpublishedIsTheRest(all, |rows|, 0);
    assert Relay.Fetched(all, 1) == [|rows|];
    assert Relay.Marked(all, |rows|) == rows + [Sent(m)];
    assert [|rows|][1..] == [];
  }

  lemma {:induction false} Relays(steps: seq<Step>, rows: seq<Relay.Row<Message>>, log: seq<nat>, m: Message)
    returns (more: seq<Step>)
    requires After(steps).relay == Idle(rows + [Relay.Row(m, false)], log)
    requires forall i :: 0 <= i < |rows| ==> rows[i].published
    ensures After(more) == After(steps).(relay := Idle(rows + [Sent(m)], log + [|rows|]))
  {
    RelaySendsTheLast(rows, log, m);
    var a := Onwards(steps, RelayStep(Relay.Fetch(1)));
    var b := Onwards(a, RelayStep(Relay.Publish(Relay.Delivered)));
    more := Onwards(b, RelayStep(Relay.Mark));
  }

  /** The purchase is confirmed, and its fact is in the broker. */
  function Published(): Sys {
    Init().(rows := map["order" := Confirmed(PAYMENT)], calls := [Returned],
            relay := Idle([Sent(PurchaseFact())], [0]), approved := {("order", 1000)})
  }

  lemma {:induction false} PurchaseIsPublished() returns (steps: seq<Step>)
    ensures After(steps) == Published()
  {
    var p := PAYMENT;
    PaymentIsNew();
    steps := Onwards([], Prepare(p));
    steps := Onwards(steps, BeginConfirm("order"));
    assert After(steps) == Init().(rows := map["order" := p], calls := [ConfirmCall(p)]);
    steps := Onwards(steps, ConfirmReply(0, Approved("k", 1000), 1));
    assert After(steps) == Published().(relay := Idle([] + [Relay.Row(PurchaseFact(), false)], []));
    steps := Relays(steps, [], [], PurchaseFact());
  }

  lemma {:induction false} PaymentIsWellFormed()
    ensures WellFormed(PAYMENT)
  {
    PaymentIsNew();
  }

  function PurchaseLine(): CreditTransaction {
    CreditTransaction(PAYMENT.user, 10, Purchase, Some(PAYMENT.id), Some(PurchaseKey(PAYMENT.id)))
  }

  // ------------------------------------------------------------------ a dropped letter

  /** The ledger is out of reach when the fact is delivered, and so is the dead-letter topic: an approved
      purchase leaves no trace that anybody will act on. */
  lemma {:induction false} DroppedLetterLosesThePurchase() returns (steps: seq<Step>)
    ensures var s := After(steps);
            && |Outgoing(s)| == 1 && Done(s, 0) && !OwnLine(s, Outgoing(s)[0].message)
            && s.approved == {("order", 1000)} && s.books.lines == [] && s.dlq == []
  {
    var m := PurchaseFact();
    steps := PurchaseIsPublished();
    PaymentIsWellFormed();
    RecordedMessagesAreReadable(PAYMENT, 1);
    steps := Onwards(steps, Deliver(0, BeforeWallet, false, Acked));
    assert After(steps) == Published().(dropped := [m], handled := {0});
  }

  // ------------------------------------------------------------------ a key used by somebody else

  /** A donation of one credit whose sender chose the key of the refund. */
  function Superchat(): Request {
    Request(CreditTransaction(PAYMENT.user, -1, Donated, Some("d"), Some(RefundKey(PAYMENT.id))),
            Some(Donation("d", "persona", Some(PAYMENT.user), 1, None, 0)))
  }

  function Bought(): Sys {
    Published().(books := Books(map[PAYMENT.user := 10], [PurchaseLine()], []), handled := {0})
  }

  lemma {:induction false} PurchaseFits()
    ensures Asks(PurchaseFact()) == Some(Request(PurchaseLine(), None))
    ensures Apply(EMPTY, Request(PurchaseLine(), None)) == Bought().books
  {
    PaymentIsWellFormed();
    RecordedMessagesAreReadable(PAYMENT, 1);
  }

  lemma {:induction false} PurchaseIsApplied() returns (steps: seq<Step>)
    ensures After(steps) == Bought()
  {
    steps := PurchaseIsPublished();
    PurchaseFits();
    steps := Onwards(steps, Deliver(0, NoFault, true, Acked));
  }

  function AfterSuperchat(): Books {
    Books(map[PAYMENT.user := 9], [PurchaseLine(), Superchat().entry], [Superchat().donation.value])
  }

  lemma {:induction false} SuperchatIsApplied() returns (steps: seq<Step>)
    ensures After(steps) == Bought().(books := AfterSuperchat())
  {
    steps := PurchaseIsApplied();
    KeysNameOneEvent(PAYMENT.id, PAYMENT.id);
    assert Apply(Bought().books, Superchat()) == AfterSuperchat();
    steps := Onwards(steps, OtherWriter(Superchat()));
  }

  function RefundPublished(): Sys {
    Bought().(books := AfterSuperchat(), rows := map["order" := Refunded(PAYMENT)], calls := [Returned, Returned],
              relay := Idle([Sent(PurchaseFact()), Sent(RefundFact())], [0, 1]), cancelled := {"order"})
  }

  lemma {:induction false} RefundIsPublished() returns (steps: seq<Step>)
    ensures After(steps) == RefundPublished()
  {
    steps := SuperchatIsApplied();
    var c := Confirmed(PAYMENT);
    steps := Onwards(steps, BeginRefund("order"));
    assert After(steps) == Bought().(books := AfterSuperchat(), calls := [Returned, RefundCall(c)]);
    steps := Onwards(steps, RefundReply(1, true, 2));
    var rows := [Sent(PurchaseFact())];
    assert After(steps) == RefundPublished().(relay := Idle(rows + [Relay.Row(RefundFact(), false)], [0]));
    steps := Relays(steps, rows, [0], RefundFact());
    assert rows + [Sent(RefundFact())] == [Sent(PurchaseFact()), Sent(RefundFact())];
  }

  /** The refund is cancelled at the gateway, recorded, published and delivered, nothing fails, and the
      credits stay: the ledger takes it for a repeat of the donation. */
  lemma {:induction false} UsedKeySwallowsTheRefund() returns (steps: seq<Step>)
    ensures var s := After(steps);
            && |Outgoing(s)| == 2 && Done(s, 1) && !OwnLine(s, Outgoing(s)[1].message)
            && TakenByOther(s.books.lines, Some(RefundKey(PAYMENT.id)))
            && "order" in s.cancelled && Balance(s.books, PAYMENT.user) == 9 && s.dlq == [] && s.dropped == []
  {
    steps := RefundIsPublished();
    PaymentIsWellFormed();
    RecordedMessagesAreReadable(PAYMENT, 2);
    var lines := AfterSuperchat().lines;
    assert lines[1].key == Some(RefundKey(PAYMENT.id)) && !PaymentLine(lines[1]);
    steps := Onwards(steps, Deliver(1, NoFault, true, Acked));
    assert After(steps) == RefundPublished().(handled := {0, 1});
  }
}
