/** The wallet domain: ledger lines, donations, and what the services hand to the repository. */
module WalletDomain {
  import opened Prelude

  /** A UUID in its canonical text form. */
  type Uuid = string

  datatype TransactionType = Purchase | Grant | Donated | Refund

  datatype CreditTransaction = CreditTransaction(
    user: Uuid, delta: int, kind: TransactionType, refId: Option<string>, key: Option<string>)

  /** `at` is the creation time the database stamps on the row. */
  datatype Donation = Donation(
    id: Uuid, persona: Uuid, donor: Option<Uuid>, amount: int, message: Option<string>, at: int)

  /** What one call of the repository's `apply` receives. */
  datatype Request = Request(entry: CreditTransaction, donation: Option<Donation>)

  datatype DomainError = InvalidEntry | InvalidDonation

  const MAX_TEXT := 64
  const MAX_MESSAGE := 200

  predicate TextFits(t: Option<string>) {
    t.Some? ==> |t.value| <= MAX_TEXT
  }

  predicate SignMatchesType(delta: int, kind: TransactionType) {
    && delta != 0
    && (kind.Purchase? || kind.Grant? ==> delta > 0)
    && (kind.Donated? || kind.Refund? ==> delta < 0)
  }

  function NewEntry(user: Uuid, delta: int, kind: TransactionType, refId: Option<string>, key: Option<string>)
    : Result<CreditTransaction, DomainError>
  {
    if TextFits(refId) && TextFits(key) && SignMatchesType(delta, kind)
    then Ok(CreditTransaction(user, delta, kind, refId, key))
    else Err(InvalidEntry)
  }

  /** `WalletService.grant`: no donation travels with the line. */
  function GrantRequest(user: Uuid, credits: int, kind: TransactionType, refId: Option<string>, key: Option<string>)
    : Result<Request, DomainError>
  {
    match NewEntry(user, credits, kind, refId, key)
    case Ok(entry) => Ok(Request(entry, None))
    case Err(e) => Err(e)
  }

  /** `DonationService.donate`: the donation is validated first, then its ledger line. */
  function DonateRequest(
    id: Uuid, donor: Uuid, persona: Uuid, amount: int, message: Option<string>, key: Option<string>, at: int)
    : Result<Request, DomainError>
  {
    if amount <= 0 || (message.Some? && |message.value| > MAX_MESSAGE) then Err(InvalidDonation) else
    match NewEntry(donor, -amount, Donated, Some(id), key)
    case Ok(entry) => Ok(Request(entry, Some(Donation(id, persona, Some(donor), amount, message, at))))
    case Err(e) => Err(e)
  }

  /** What the two services hand over, field by field. */
  lemma {:induction false} RequestsAreBuiltFromTheirInputs(
    user: Uuid, persona: Uuid, id: Uuid, credits: int, kind: TransactionType,
    refId: Option<string>, message: Option<string>, key: Option<string>, at: int)
    ensures var g := GrantRequest(user, credits, kind, refId, key);
            g.Ok? ==>
              && g.value.entry.user == user && g.value.entry.delta == credits && g.value.entry.kind == kind
              && g.value.entry.refId == refId && g.value.entry.key == key && g.value.donation.None?
    ensures var d := DonateRequest(id, user, persona, credits, message, key, at);
            d.Ok? ==>
              var line, gift := d.value.entry, d.value.donation;
              && line.user == user && line.delta == -credits && line.kind.Donated?
              && line.refId == Some(id) && line.key == key
              && gift.Some? && gift.value.id == id && gift.value.persona == persona && gift.value.donor == Some(user)
              && gift.value.amount == credits && gift.value.message == message && gift.value.at == at
  {
  }

  /** What every request built by the two services looks like. A grant of type DONATION is the one
      request `grant` would build that no caller of the repository makes. */
  predicate Legal(r: Request) {
    && SignMatchesType(r.entry.delta, r.entry.kind)
    && (r.entry.kind.Donated? <==> r.donation.Some?)
    && (r.donation.Some? ==>
          && r.entry.refId == Some(r.donation.value.id)
          && r.donation.value.donor == Some(r.entry.user)
          && r.donation.value.amount == -r.entry.delta)
  }

  /** Both services build only legal requests, and refuse exactly the inputs the models refuse. */
  lemma {:induction false} ServicesBuildLegalRequests(
    user: Uuid, persona: Uuid, id: Uuid, credits: int, kind: TransactionType,
    refId: Option<string>, message: Option<string>, key: Option<string>, at: int)
    ensures GrantRequest(user, credits, kind, refId, key).Ok? <==>
            && (refId.Some? ==> |refId.value| <= 64) && (key.Some? ==> |key.value| <= 64)
            && (if kind == Purchase || kind == Grant then credits > 0 else credits < 0)
    ensures var g := GrantRequest(user, credits, kind, refId, key);
            g.Ok? ==> (Legal(g.value) <==> !kind.Donated?)
    ensures DonateRequest(id, user, persona, credits, message, key, at).Ok? <==>
            && credits > 0 && (message.Some? ==> |message.value| <= 200)
            && |id| <= 64 && (key.Some? ==> |key.value| <= 64)
    ensures var d := DonateRequest(id, user, persona, credits, message, key, at);
            d.Ok? ==> Legal(d.value) && d.value.entry.delta == -credits && d.value.donation.value.message == message
  {
  }
}

/** The ledger, its materialised balances and the donation rows: `SqlModelWalletRepository`. */
module WalletLedger {
  import opened Prelude
  import opened WalletDomain

  datatype Books = Books(balances: map<Uuid, int>, lines: seq<CreditTransaction>, donations: seq<Donation>)

  datatype Outcome = Applied | Duplicate | Insufficient

  const EMPTY: Books := Books(map[], [], [])

  // ------------------------------------------------------------------ specification

  function Balance(b: Books, user: Uuid): int {
    if user in b.balances then b.balances[user] else 0
  }

  predicate KeyTaken(lines: seq<CreditTransaction>, key: Option<string>) {
    key.Some? && exists i :: 0 <= i < |lines| && lines[i].key == key
  }

  function WithWallet(b: Books, user: Uuid): Books {
    if user in b.balances then b else b.(balances := b.balances[user := 0])
  }

  /** Ledger line, balance and donation, written together. */
  function Posted(b: Books, r: Request): Books {
    Books(b.balances[r.entry.user := Balance(b, r.entry.user) + r.entry.delta],
          b.lines + [r.entry],
          if r.donation.Some? then b.donations + [r.donation.value] else b.donations)
  }

  function Decide(b: Books, r: Request): Outcome {
    if KeyTaken(b.lines, r.entry.key) then Duplicate
    else if r.entry.delta < 0 && Balance(b, r.entry.user) < -r.entry.delta then Insufficient
    else Applied
  }

  /** The atomic meaning of one `apply` call. */
  function Apply(b: Books, r: Request): Books {
    var w := WithWallet(b, r.entry.user);
    if Decide(b, r).Applied? then Posted(w, r) else w
  }

  function ApplyAll(b: Books, rs: seq<Request>): Books {
    if rs == [] then b else Apply(ApplyAll(b, rs[..|rs| - 1]), rs[|rs| - 1])
  }

  /** One call in full. The user has a wallet afterwards and nobody else's changes; a key that some line
      already has, or else a balance that is too small, leaves lines, donations and balances alone; and
      otherwise line and donation are the newest and the balance moves by the line. */
  lemma {:induction false} ApplyInFull(b: Books, r: Request)
    ensures var after, user := Apply(b, r), r.entry.user;
            var used := r.entry.key.Some? && exists i :: 0 <= i < |b.lines| && b.lines[i].key == r.entry.key;
            var short := r.entry.delta < 0 && (if user in b.balances then b.balances[user] else 0) + r.entry.delta < 0;
            && user in after.balances
            && (forall u :: u != user ==> (u in after.balances <==> u in b.balances))
            && (forall u :: u != user && u in b.balances ==> after.balances[u] == b.balances[u])
            && after.balances[user] == (if user in b.balances then b.balances[user] else 0)
                                       + (if used || short then 0 else r.entry.delta)
            && after.lines == (if used || short then b.lines else b.lines + [r.entry])
            && after.donations == (if used || short || r.donation.None? then b.donations
                                   else b.donations + [r.donation.value])
            && Decide(b, r) == (if used then Duplicate else if short then Insufficient else Applied)
  {
  }

  // ------------------------------------------------------------------ the repository

  /** `work` is what the session sees, `committed` what the database keeps. */
  class WalletRepository {
    var committed: Books
    var work: Books

    constructor ()
      ensures committed == EMPTY && work == EMPTY
    {
      committed, work := EMPTY, EMPTY;
    }

    method Commit()
      modifies this
      ensures committed == work == old(work)
    {
      committed := work;
    }

    method Rollback()
      modifies this
      ensures work == committed == old(committed)
    {
      work := committed;
    }

    method BalanceOf(user: Uuid) returns (balance: int)
      ensures balance == Balance(work, user)
    {
      if user in work.balances {
        balance := work.balances[user];
      } else {
        balance := 0;
      }
    }

    method EnsureWallet(user: Uuid)
      requires work == committed
      modifies this
      ensures committed == work == WithWallet(old(committed), user)
    {
      if user in work.balances {
        return;
      }
      work := work.(balances := work.balances[user := 0]);
      Commit();
    }

    /** INSERT of a ledger line; false is the unique-key violation. */
    method FlushLine(entry: CreditTransaction) returns (ok: bool)
      modifies this`work
      ensures ok <==> !KeyTaken(old(work).lines, entry.key)
      ensures work == if ok then old(work).(lines := old(work).lines + [entry]) else old(work)
    {
      ok := !KeyTaken(work.lines, entry.key);
      if ok {
        work := work.(lines := work.lines + [entry]);
      }
    }

    method Credit(user: Uuid, amount: int)
      requires user in work.balances
      modifies this`work
      ensures work == old(work).(balances := old(work).balances[user := old(work).balances[user] + amount])
    {
      work := work.(balances := work.balances[user := work.balances[user] + amount]);
    }

    /** The conditional UPDATE: zero rows touched is the only sign of a short balance. */
    method Debit(user: Uuid, amount: int) returns (ok: bool)
      requires user in work.balances
      modifies this`work
      ensures ok <==> amount <= old(work).balances[user]
      ensures work == if ok
                      then old(work).(balances := old(work).balances[user := old(work).balances[user] - amount])
                      else old(work)
    {
      ok := work.balances[user] >= amount;
      if ok {
        work := work.(balances := work.balances[user := work.balances[user] - amount]);
      }
    }

    /** The result is the balance after the call, or nothing when the credit is short. */
    method ApplyRequest(r: Request) returns (outcome: Outcome, balance: Option<int>)
      requires work == committed && r.entry.delta != 0
      modifies this
      ensures committed == work == Apply(old(committed), r)
      ensures outcome == Decide(old(committed), r)
      ensures balance == if outcome.Insufficient? then None else Some(Balance(committed, r.entry.user))
    {
      EnsureWallet(r.entry.user);
      var inserted := FlushLine(r.entry);
      if !inserted {
        Rollback();
        var now := BalanceOf(r.entry.user);
        return Duplicate, Some(now);
      }
      if r.entry.delta < 0 {
        var paid := Debit(r.entry.user, -r.entry.delta);
        if !paid {
          Rollback();
          return Insufficient, None;
        }
      }
      if r.entry.delta > 0 {
        Credit(r.entry.user, r.entry.delta);
      }
      if r.donation.Some? {
        work := work.(donations := work.donations + [r.donation.value]);
      }
      Commit();
      var now := BalanceOf(r.entry.user);
      return Applied, Some(now);
    }
  }

  // ------------------------------------------------------------------ soundness of the books

  function SumDeltas(lines: seq<CreditTransaction>, user: Uuid): int {
    if lines == [] then 0
    else SumDeltas(lines[..|lines| - 1], user)
         + (if lines[|lines| - 1].user == user then lines[|lines| - 1].delta else 0)
  }

  /** (ref_id, spender, amount) of the DONATION lines, in ledger order. */
  function Spent(lines: seq<CreditTransaction>): seq<(Option<string>, Uuid, int)> {
    if lines == [] then []
    else var l := lines[|lines| - 1];
         Spent(lines[..|lines| - 1]) + (if l.kind.Donated? then [(l.refId, l.user, -l.delta)] else [])
  }

  ghost predicate UniqueKeys(lines: seq<CreditTransaction>) {
    forall i, j :: 0 <= i < j < |lines| && lines[i].key.Some? ==> lines[i].key != lines[j].key
  }

  ghost predicate UniqueIds(ds: seq<Donation>) {
    forall i, j :: 0 <= i < j < |ds| ==> ds[i].id != ds[j].id
  }

  /** The i-th donation row is the i-th DONATION line: same reference, same spender, same amount. */
  ghost predicate Matched(lines: seq<CreditTransaction>, ds: seq<Donation>) {
    && |Spent(lines)| == |ds|
    && forall i :: 0 <= i < |ds| ==>
         ds[i].donor.Some? && Spent(lines)[i] == (Some(ds[i].id), ds[i].donor.value, ds[i].amount)
  }

  ghost predicate Sound(b: Books) {
    && (forall u :: Balance(b, u) == SumDeltas(b.lines, u))
    && (forall u :: Balance(b, u) >= 0)
    && (forall i :: 0 <= i < |b.lines| ==> b.lines[i].user in b.balances)
    && UniqueKeys(b.lines)
    && UniqueIds(b.donations)
    && Matched(b.lines, b.donations)
  }

  /** The donation id is a new UUID. */
  ghost predicate FreshDonation(b: Books, r: Request) {
    r.donation.Some? ==> forall i :: 0 <= i < |b.donations| ==> b.donations[i].id != r.donation.value.id
  }

  lemma {:induction false} SumAfter(lines: seq<CreditTransaction>, e: CreditTransaction, user: Uuid)
    ensures SumDeltas(lines + [e], user) == SumDeltas(lines, user) + (if e.user == user then e.delta else 0)
  {
    assert (lines + [e])[..|lines|] == lines;
  }

  lemma {:induction false} SpentAfter(lines: seq<CreditTransaction>, e: CreditTransaction)
    ensures Spent(lines + [e]) == Spent(lines) + (if e.kind.Donated? then [(e.refId, e.user, -e.delta)] else [])
  {
    assert (lines + [e])[..|lines|] == lines;
  }

  lemma {:induction false} PostedKeepsMatch(b: Books, r: Request)
    requires Matched(b.lines, b.donations) && UniqueIds(b.donations) && Legal(r) && FreshDonation(b, r)
    ensures Matched(Posted(b, r).lines, Posted(b, r).donations) && UniqueIds(Posted(b, r).donations)
  {
    SpentAfter(b.lines, r.entry);
    if r.donation.Some? {
      var ds := Posted(b, r).donations;
      forall i | 0 <= i < |ds| ensures
        ds[i].donor.Some? && Spent(Posted(b, r).lines)[i] == (Some(ds[i].id), ds[i].donor.value, ds[i].amount)
      {
      }
    }
  }

  lemma {:induction false} PostedKeepsSound(b: Books, r: Request)
    requires Sound(b) && Legal(r) && FreshDonation(b, r)
    requires !KeyTaken(b.lines, r.entry.key)
    requires Balance(b, r.entry.user) + r.entry.delta >= 0
    ensures Sound(Posted(b, r))
  {
    var p := Posted(b, r);
    PostedKeepsMatch(b, r);
    forall u ensures Balance(p, u) == SumDeltas(p.lines, u) && Balance(p, u) >= 0 {
      SumAfter(b.lines, r.entry, u);
      assert Balance(b, u) == SumDeltas(b.lines, u);
    }
    assert UniqueKeys(p.lines) by {
      forall i, j | 0 <= i < j < |p.lines| && p.lines[i].key.Some? ensures p.lines[i].key != p.lines[j].key {
        assert p.lines[i] == b.lines[i];
      }
    }
  }

  lemma {:induction false} NewWalletKeepsSound(b: Books, user: Uuid)
    requires Sound(b)
    ensures Sound(WithWallet(b, user))
    ensures forall u :: Balance(WithWallet(b, user), u) == Balance(b, u)
  {
    assert forall u :: Balance(WithWallet(b, user), u) == Balance(b, u);
  }

  /** Every `apply` call keeps the books sound. */
  lemma {:induction false} ApplyKeepsSound(b: Books, r: Request)
    requires Sound(b) && Legal(r) && FreshDonation(b, r)
    ensures Sound(Apply(b, r))
  {
    var w := WithWallet(b, r.entry.user);
    NewWalletKeepsSound(b, r.entry.user);
    if Decide(b, r).Applied? {
      assert Balance(w, r.entry.user) >= 0;
      PostedKeepsSound(w, r);
    }
  }

  ghost predicate LegalLog(rs: seq<Request>) {
    && (forall i :: 0 <= i < |rs| ==> Legal(rs[i]))
    && (forall i, j :: 0 <= i < j < |rs| && rs[i].donation.Some? && rs[j].donation.Some? ==>
          rs[i].donation.value.id != rs[j].donation.value.id)
  }

  lemma {:induction false} DonationsComeFromLog(rs: seq<Request>, d: Donation)
    requires d in ApplyAll(EMPTY, rs).donations
    ensures exists i :: 0 <= i < |rs| && rs[i].donation == Some(d)
  {
    if rs != [] {
      var before := rs[..|rs| - 1];
      if d in ApplyAll(EMPTY, before).donations {
        DonationsComeFromLog(before, d);
        var i :| 0 <= i < |before| && before[i].donation == Some(d);
        assert rs[i].donation == Some(d);
      } else {
        assert rs[|rs| - 1].donation == Some(d);
      }
    }
  }

  /** After any run of grants, purchases, refunds and donations, in any order and with any failures,
      the books are sound. */
  lemma {:induction false} RunsAreSound(rs: seq<Request>)
    requires LegalLog(rs)
    ensures Sound(ApplyAll(EMPTY, rs))
  {
    if rs != [] {
      var before, r := rs[..|rs| - 1], rs[|rs| - 1];
      RunsAreSound(before);
      var b := ApplyAll(EMPTY, before);
      assert FreshDonation(b, r) by {
        if r.donation.Some? {
          forall i | 0 <= i < |b.donations| ensures b.donations[i].id != r.donation.value.id {
            DonationsComeFromLog(before, b.donations[i]);
            var j :| 0 <= j < |before| && before[j].donation == Some(b.donations[i]);
            assert rs[j].donation == before[j].donation;
          }
        }
      }
      ApplyKeepsSound(b, r);
    }
  }

  lemma {:induction false} SpentEntry(lines: seq<CreditTransaction>, l: CreditTransaction)
    requires l in lines && l.kind.Donated?
    ensures (l.refId, l.user, -l.delta) in Spent(lines)
  {
    var last := lines[|lines| - 1];
    if l != last {
      SpentEntry(lines[..|lines| - 1], l);
    }
  }

  lemma {:induction false} SpentOrigin(lines: seq<CreditTransaction>, i: nat) returns (l: CreditTransaction)
    requires i < |Spent(lines)|
    ensures l in lines && l.kind.Donated? && Spent(lines)[i] == (l.refId, l.user, -l.delta)
  {
    var front := lines[..|lines| - 1];
    if i < |Spent(front)| {
      l := SpentOrigin(front, i);
    } else {
      l := lines[|lines| - 1];
    }
  }

  /** The line took from the donor exactly what the donation row records. */
  predicate Pays(l: CreditTransaction, d: Donation) {
    l.kind.Donated? && l.refId == Some(d.id) && d.amount == -l.delta && d.donor == Some(l.user)
  }

  lemma {:induction false} LineHasDonation(b: Books, l: CreditTransaction) returns (d: Donation)
    requires Matched(b.lines, b.donations) && l in b.lines && l.kind.Donated?
    ensures d in b.donations && Pays(l, d)
  {
    SpentEntry(b.lines, l);
    var i :| 0 <= i < |Spent(b.lines)| && Spent(b.lines)[i] == (l.refId, l.user, -l.delta);
    d := b.donations[i];
  }

  lemma {:induction false} DonationHasLine(b: Books, d: Donation) returns (l: CreditTransaction)
    requires Matched(b.lines, b.donations) && d in b.donations
    ensures l in b.lines && Pays(l, d)
  {
    var i :| 0 <= i < |b.donations| && b.donations[i] == d;
    l := SpentOrigin(b.lines, i);
  }

  lemma {:induction false} SameIdSameDonation(ds: seq<Donation>, d: Donation, e: Donation)
    requires UniqueIds(ds) && d in ds && e in ds && d.id == e.id
    ensures d == e
  {
  }

  /** The references of two DONATION lines differ. */
  lemma {:induction false} LinesDiffer(lines: seq<CreditTransaction>, ds: seq<Donation>, i: nat, j: nat)
    requires Matched(lines, ds) && UniqueIds(ds) && i < j < |lines|
    ensures lines[i].kind.Donated? && lines[j].kind.Donated? ==> lines[i].refId != lines[j].refId
  {
    var front, last := lines[..|lines| - 1], lines[|lines| - 1];
    if j < |lines| - 1 {
      var n := |Spent(front)|;
      assert Spent(front) == Spent(lines)[..n];
      LinesDiffer(front, ds[..n], i, j);
    } else if lines[i].kind.Donated? && last.kind.Donated? {
      assert front[i] in front;
      SpentEntry(front, front[i]);
      var k :| 0 <= k < |Spent(front)| && Spent(front)[k] == (front[i].refId, front[i].user, -front[i].delta);
      assert Spent(lines)[k] == Spent(front)[k] && Spent(lines)[|ds| - 1].0 == last.refId;
      assert ds[k].id != ds[|ds| - 1].id;
    }
  }

  /** One to one: each DONATION line has exactly one donation row with its reference, which carries the
      amount taken from its donor; each donation row has its line; and no two lines share a row. */
  lemma {:induction false} LinesAndDonationsPair(b: Books)
    requires Sound(b)
    ensures forall l :: l in b.lines && l.kind.Donated? ==> exists d :: d in b.donations && Pays(l, d)
    ensures forall d, e :: d in b.donations && e in b.donations && d.id == e.id ==> d == e
    ensures forall d :: d in b.donations ==> exists l :: l in b.lines && Pays(l, d)
    ensures forall i, j, d :: 0 <= i < j < |b.lines| && d in b.donations ==>
              !(Pays(b.lines[i], d) && Pays(b.lines[j], d))
  {
    forall i, j, d | 0 <= i < j < |b.lines| && d in b.donations ensures !(Pays(b.lines[i], d) && Pays(b.lines[j], d)) {
      LinesDiffer(b.lines, b.donations, i, j);
    }
    forall d, e | d in b.donations && e in b.donations && d.id == e.id ensures d == e {
      SameIdSameDonation(b.donations, d, e);
    }
    forall l | l in b.lines && l.kind.Donated? ensures exists d :: d in b.donations && Pays(l, d) {
      var d := LineHasDonation(b, l);
    }
    forall d | d in b.donations ensures exists l :: l in b.lines && Pays(l, d) {
      var l := DonationHasLine(b, d);
    }
  }

  // ------------------------------------------------------------------ what `donate` returns

  /** `donate` returns the donation it built unless credit is short. That donation was stored exactly when
      the key was still free. */
  lemma {:induction false} ReturnedDonationIsStoredExactlyWhen(b: Books, r: Request)
    requires Legal(r) && r.donation.Some? && FreshDonation(b, r) && !Decide(b, r).Insufficient?
    ensures r.donation.value in Apply(b, r).donations <==> !KeyTaken(b.lines, r.entry.key)
  {
    if KeyTaken(b.lines, r.entry.key) {
      assert r.donation.value !in b.donations;
    }
  }

  /** Two donations with one key: the second call returns a donation that is not stored. */
  lemma {:induction false} RepeatedDonateReturnsAnUnstoredDonation() returns (first: Request, again: Request)
    ensures DonateRequest("d1", "u", "p", 1, None, Some("k"), 0) == Ok(first)
    ensures DonateRequest("d2", "u", "p", 1, None, Some("k"), 1) == Ok(again)
    ensures var b := Apply(Books(map["u" := 5], [], []), first);
            Decide(b, again).Duplicate? && again.donation.value !in Apply(b, again).donations
  {
    first := DonateRequest("d1", "u", "p", 1, None, Some("k"), 0).value;
    again := DonateRequest("d2", "u", "p", 1, None, Some("k"), 1).value;
    var b := Apply(Books(map["u" := 5], [], []), first);
    assert b.lines == [first.entry] && b.donations == [first.donation.value];
    assert b.lines[0].key == again.entry.key;
  }

  // ------------------------------------------------------------------ idempotence

  lemma {:induction false} KeysStay(b: Books, rs: seq<Request>, key: Option<string>)
    requires KeyTaken(b.lines, key)
    ensures KeyTaken(ApplyAll(b, rs).lines, key)
    ensures b.lines <= ApplyAll(b, rs).lines
  {
    if rs != [] {
      KeysStay(b, rs[..|rs| - 1], key);
      var c := ApplyAll(b, rs[..|rs| - 1]);
      var i :| 0 <= i < |c.lines| && c.lines[i].key == key;
      assert ApplyAll(b, rs).lines[i].key == key;
    }
  }

  lemma {:induction false} ApplyAllSplit(b: Books, xs: seq<Request>, ys: seq<Request>)
    ensures ApplyAll(b, xs + ys) == ApplyAll(ApplyAll(b, xs), ys)
  {
    if ys == [] {
      assert xs + ys == xs;
    } else {
      assert (xs + ys)[..|xs + ys| - 1] == xs + ys[..|ys| - 1];
      ApplyAllSplit(b, xs, ys[..|ys| - 1]);
    }
  }

  lemma {:induction false} WalletsStay(b: Books, rs: seq<Request>, user: Uuid)
    requires user in b.balances
    ensures user in ApplyAll(b, rs).balances
  {
    if rs != [] {
      WalletsStay(b, rs[..|rs| - 1], user);
    }
  }

  /** Once a keyed request has been applied, a redelivery inserted at any later place in the log
      changes nothing about the final books. */
  lemma {:induction false} RedeliveryChangesNothing(b: Books, r: Request, between: seq<Request>, after: seq<Request>)
    requires r.entry.key.Some? && Decide(b, r).Applied?
    ensures ApplyAll(b, [r] + between + [r] + after) == ApplyAll(b, [r] + between + after)
  {
    var c := ApplyAll(b, [r] + between);
    ApplyAllSplit(b, [r], between);
    assert [r][..0] == [];
    assert ApplyAll(b, [r]) == Apply(b, r);
    assert Apply(b, r).lines[|b.lines|].key == r.entry.key;
    KeysStay(Apply(b, r), between, r.entry.key);
    WalletsStay(Apply(b, r), between, r.entry.user);
    assert Apply(c, r) == c;
    assert ([r] + between + [r])[..|[r] + between|] == [r] + between;
    assert ApplyAll(b, [r] + between + [r]) == c;
    ApplyAllSplit(b, [r] + between + [r], after);
    ApplyAllSplit(b, [r] + between, after);
  }

  /** A refused debit leaves lines, donations and every balance as they were, and the same request
      succeeds later exactly when the balance has grown enough. */
  lemma {:induction false} RefusedDebitLeavesNoTrace(b: Books, r: Request, between: seq<Request>)
    requires Decide(b, r).Insufficient?
    requires forall i :: 0 <= i < |between| ==> between[i].entry.key != r.entry.key || r.entry.key.None?
    ensures Apply(b, r).lines == b.lines && Apply(b, r).donations == b.donations
    ensures forall u :: Balance(Apply(b, r), u) == Balance(b, u)
    ensures var c := ApplyAll(Apply(b, r), between);
            !KeyTaken(c.lines, r.entry.key) &&
            (Decide(c, r).Applied? <==> Balance(c, r.entry.user) >= -r.entry.delta)
  {
    KeyStaysFree(Apply(b, r), between, r.entry.key);
  }

  lemma {:induction false} KeyStaysFree(b: Books, rs: seq<Request>, key: Option<string>)
    requires !KeyTaken(b.lines, key)
    requires forall i :: 0 <= i < |rs| ==> rs[i].entry.key != key || key.None?
    ensures !KeyTaken(ApplyAll(b, rs).lines, key)
  {
    if rs != [] {
      KeyStaysFree(b, rs[..|rs| - 1], key);
    }
  }
}
