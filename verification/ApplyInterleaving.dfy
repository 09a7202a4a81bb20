/** Many `apply` calls at once, against one database with READ COMMITTED transactions.

    The database gives: a unique index that makes a second writer of a key wait for the first one to
    commit or roll back, a row lock taken by UPDATE, and a WHERE clause evaluated on a committed row. */
module ApplyInterleaving {
  import opened Prelude
  import opened WalletDomain
  import opened WalletLedger

  datatype Phase =
    | Looking                  // reads the wallet row
    | Creating                 // found none: inserts one in a commit of its own
    | Inserting                // inserts the ledger line
    | Updating                 // line inserted, key reserved; updates the balance
    | Posting(balance: int)    // wallet row locked with this new balance; commits
    | Finished(outcome: Outcome)
    | Crashed                  // connection lost: the database rolled back

  datatype Tx = Tx(request: Request, phase: Phase)

  /** A completed call, recorded at the moment that decided it. */
  datatype Done = Done(tx: nat, request: Request, outcome: Outcome)

  datatype State = State(db: Books, txs: seq<Tx>, history: seq<Done>)

  datatype Step = Start(request: Request) | Advance(tx: nat) | Crash(tx: nat)

  const INIT: State := State(EMPTY, [], [])

  // ------------------------------------------------------------------ the system

  predicate Ended(p: Phase) { p.Finished? || p.Crashed? }

  predicate Reserves(t: Tx, key: Option<string>) {
    (t.phase.Updating? || t.phase.Posting?) && key.Some? && t.request.entry.key == key
  }

  predicate Locks(t: Tx, user: Uuid) {
    t.phase.Posting? && t.request.entry.user == user
  }

  predicate Covers(b: Books, r: Request) {
    r.entry.delta < 0 ==> Balance(b, r.entry.user) >= -r.entry.delta
  }

  /** `i` cannot move until `j` commits or rolls back. A balance that is already short is seen without
      the row lock. */
  predicate WaitsFor(s: State, i: nat, j: nat)
    requires i < |s.txs| && j < |s.txs|
  {
    var t := s.txs[i];
    && i != j
    && ((t.phase.Inserting? && !KeyTaken(s.db.lines, t.request.entry.key) && Reserves(s.txs[j], t.request.entry.key))
        || (t.phase.Updating? && Covers(s.db, t.request) && Locks(s.txs[j], t.request.entry.user)))
  }

  predicate Blocked(s: State, i: nat)
    requires i < |s.txs|
  {
    exists j :: 0 <= j < |s.txs| && WaitsFor(s, i, j)
  }

  predicate CanAdvance(s: State, i: nat) {
    i < |s.txs| && !Ended(s.txs[i].phase) && !Blocked(s, i)
  }

  predicate FreshRequest(s: State, r: Request) {
    r.donation.Some? ==> forall i :: 0 <= i < |s.txs| && s.txs[i].request.donation.Some? ==>
                           s.txs[i].request.donation.value.id != r.donation.value.id
  }

  function Moved(s: State, i: nat, p: Phase): State
    requires i < |s.txs|
  {
    s.(txs := s.txs[i := s.txs[i].(phase := p)])
  }

  function Completed(s: State, i: nat, o: Outcome): State
    requires i < |s.txs|
  {
    Moved(s, i, Finished(o)).(history := s.history + [Done(i, s.txs[i].request, o)])
  }

  function Advanced(s: State, i: nat): State
    requires i < |s.txs|
  {
    var r := s.txs[i].request;
    match s.txs[i].phase
    case Looking => Moved(s, i, if r.entry.user in s.db.balances then Inserting else Creating)
    case Creating => Moved(s, i, Inserting).(db := WithWallet(s.db, r.entry.user))
    case Inserting => if KeyTaken(s.db.lines, r.entry.key) then Completed(s, i, Duplicate) else Moved(s, i, Updating)
    case Updating =>
      if Covers(s.db, r) then Moved(s, i, Posting(Balance(s.db, r.entry.user) + r.entry.delta))
      else Completed(s, i, Insufficient)
    case Posting(balance) =>
      Completed(s, i, Applied).(db := Books(
        s.db.balances[r.entry.user := balance],
        s.db.lines + [r.entry],
        if r.donation.Some? then s.db.donations + [r.donation.value] else s.db.donations))
    case _ => s
  }

  /** A step that is not possible leaves the state alone. */
  function Next(s: State, step: Step): State {
    match step
    case Start(r) =>
      if Legal(r) && FreshRequest(s, r) then s.(txs := s.txs + [Tx(r, Looking)]) else s
    case Advance(i) => if CanAdvance(s, i) then Advanced(s, i) else s
    case Crash(i) => if i < |s.txs| && !Ended(s.txs[i].phase) then Moved(s, i, Crashed) else s
  }

  function After(steps: seq<Step>): State {
    if steps == [] then INIT else Next(After(steps[..|steps| - 1]), steps[|steps| - 1])
  }

  // ------------------------------------------------------------------ the serial explanation

  function Requests(h: seq<Done>): seq<Request> {
    if h == [] then [] else Requests(h[..|h| - 1]) + [h[|h| - 1].request]
  }

  /** The books the completed calls give when run one after another. */
  function Serial(h: seq<Done>): Books {
    ApplyAll(EMPTY, Requests(h))
  }

  ghost predicate Agrees(a: Books, b: Books) {
    && a.lines == b.lines
    && a.donations == b.donations
    && forall u :: Balance(a, u) == Balance(b, u)
  }

  /** What the system owes one call: a wallet once it is past creating one, a free key while it holds
      the reservation, an up-to-date staged balance while it holds the row. */
  ghost predicate TxOk(b: Books, t: Tx) {
    && Legal(t.request)
    && (2 <= Rank(t.phase) <= 4 ==> t.request.entry.user in b.balances)
    && (3 <= Rank(t.phase) <= 4 ==> !KeyTaken(b.lines, t.request.entry.key))
    && (t.phase.Posting? ==>
          && t.phase.balance == Balance(b, t.request.entry.user) + t.request.entry.delta
          && Covers(b, t.request))
  }

  /** What two calls owe each other: no shared key reservation, row lock or donation id. */
  ghost predicate PairOk(t: Tx, u: Tx) {
    && !(Reserves(t, t.request.entry.key) && Reserves(u, t.request.entry.key))
    && !(t.phase.Posting? && Locks(u, t.request.entry.user))
    && (t.request.donation.Some? && u.request.donation.Some? ==>
          t.request.donation.value.id != u.request.donation.value.id)
  }

  ghost predicate TxsOk(b: Books, txs: seq<Tx>) {
    && (forall i :: 0 <= i < |txs| ==> TxOk(b, txs[i]))
    && (forall i, j :: 0 <= i < |txs| && 0 <= j < |txs| && i != j ==> PairOk(txs[i], txs[j]))
  }

  ghost predicate LinesHaveWallets(b: Books) {
    forall i :: 0 <= i < |b.lines| ==> b.lines[i].user in b.balances
  }

  ghost predicate RecordedOk(txs: seq<Tx>, d: Done) {
    d.tx < |txs| && txs[d.tx] == Tx(d.request, Finished(d.outcome))
  }

  ghost predicate HistoryOk(txs: seq<Tx>, h: seq<Done>) {
    && (forall k :: 0 <= k < |h| ==> RecordedOk(txs, h[k]))
    && OncePerCall(h)
    && (forall i :: 0 <= i < |txs| && txs[i].phase.Finished? ==> Listed(h, i))
  }

  ghost predicate OncePerCall(h: seq<Done>) {
    forall k, m :: 0 <= k < m < |h| ==> h[k].tx != h[m].tx
  }

  ghost predicate Listed(h: seq<Done>, i: nat) {
    exists k :: 0 <= k < |h| && h[k].tx == i
  }

  ghost predicate OutcomesSerial(h: seq<Done>) {
    forall k :: 0 <= k < |h| ==> OutcomeSerial(h, k)
  }

  ghost predicate OutcomeSerial(h: seq<Done>, k: nat)
    requires k < |h|
  {
    h[k].outcome == Decide(Serial(h[..k]), h[k].request)
  }

  ghost predicate Inv(s: State) {
    && TxsOk(s.db, s.txs)
    && LinesHaveWallets(s.db)
    && HistoryOk(s.txs, s.history)
    && OutcomesSerial(s.history)
    && Agrees(s.db, Serial(s.history))
  }

  function Rank(p: Phase): nat {
    match p
    case Looking => 0
    case Creating => 1
    case Inserting => 2
    case Updating => 3
    case Posting(_) => 4
    case _ => 5
  }

  // ------------------------------------------------------------------ every step keeps it

  lemma {:induction false} SerialAfter(h: seq<Done>, d: Done)
    ensures Serial(h + [d]) == Apply(Serial(h), d.request)
  {
    assert (h + [d])[..|h|] == h;
    var rs := Requests(h + [d]);
    assert rs[..|rs| - 1] == Requests(h);
  }

  lemma {:induction false} ApplyRespectsAgreement(b: Books, c: Books, r: Request)
    requires Agrees(b, c)
    ensures Decide(b, r) == Decide(c, r)
    ensures Agrees(Apply(b, r), Apply(c, r))
  {
    assert Balance(b, r.entry.user) == Balance(c, r.entry.user);
    forall u ensures Balance(Apply(b, r), u) == Balance(Apply(c, r), u) {
      assert Balance(b, u) == Balance(c, u);
    }
  }

  /** Recording a call whose outcome is what the database decides, together with its atomic effect. */
  lemma {:induction false} RecordKeepsSerial(b: Books, h: seq<Done>, d: Done)
    requires OutcomesSerial(h) && Agrees(b, Serial(h))
    requires d.outcome == Decide(b, d.request)
    ensures OutcomesSerial(h + [d]) && Agrees(Apply(b, d.request), Serial(h + [d]))
  {
    ApplyRespectsAgreement(b, Serial(h), d.request);
    SerialAfter(h, d);
    forall k | 0 <= k < |h + [d]| ensures OutcomeSerial(h + [d], k) {
      assert (h + [d])[..k] == h[..k];
      assert h[..|h|] == h;
      assert k < |h| ==> OutcomeSerial(h, k);
    }
  }

  /** Replacing one unfinished call and the database keeps the call part of the invariant when the new
      call fits with the others and the others are untouched by the change. */
  lemma {:induction false} ReplaceKeeps(b: Books, txs: seq<Tx>, i: nat, t: Tx, b': Books)
    requires TxsOk(b, txs) && i < |txs|
    requires TxOk(b', t)
    requires forall j :: 0 <= j < |txs| && j != i ==> TxOk(b', txs[j]) && PairOk(t, txs[j]) && PairOk(txs[j], t)
    ensures TxsOk(b', txs[i := t])
  {
  }

  lemma {:induction false} HistorySurvives(txs: seq<Tx>, h: seq<Done>, i: nat, t: Tx)
    requires HistoryOk(txs, h) && i < |txs| && !Ended(txs[i].phase)
    ensures !t.phase.Finished? ==> HistoryOk(txs[i := t], h)
    ensures forall k :: 0 <= k < |h| ==> RecordedOk(txs[i := t], h[k])
    ensures forall k :: 0 <= k < |h| ==> h[k].tx != i
  {
    forall k | 0 <= k < |h| ensures h[k].tx != i && RecordedOk(txs[i := t], h[k]) {
      assert RecordedOk(txs, h[k]);
    }
  }

  lemma {:induction false} StartKeeps(s: State, r: Request)
    requires Inv(s) && Legal(r) && FreshRequest(s, r)
    ensures Inv(Next(s, Start(r)))
  {
    var txs := s.txs + [Tx(r, Looking)];
    assert TxsOk(s.db, txs);
    forall k | 0 <= k < |s.history| ensures RecordedOk(txs, s.history[k]) {
      assert RecordedOk(s.txs, s.history[k]);
    }
  }

  /** A move to a phase that neither reserves nor locks anything. */
  lemma {:induction false} QuietMoveKeeps(s: State, i: nat, p: Phase)
    requires Inv(s) && i < |s.txs| && !Ended(s.txs[i].phase)
    requires p.Creating? || p.Crashed? || (p.Inserting? && s.txs[i].request.entry.user in s.db.balances)
    ensures Inv(Moved(s, i, p))
  {
    var t := s.txs[i].(phase := p);
    forall j | 0 <= j < |s.txs| && j != i ensures PairOk(t, s.txs[j]) && PairOk(s.txs[j], t) {
      assert PairOk(s.txs[i], s.txs[j]) && PairOk(s.txs[j], s.txs[i]);
    }
    assert TxOk(s.db, s.txs[i]);
    ReplaceKeeps(s.db, s.txs, i, t, s.db);
    HistorySurvives(s.txs, s.history, i, t);
  }

  lemma {:induction false} CreateKeeps(s: State, i: nat)
    requires Inv(s) && CanAdvance(s, i) && s.txs[i].phase.Creating?
    ensures Inv(Advanced(s, i))
  {
    var grown := s.(db := WithWallet(s.db, s.txs[i].request.entry.user));
    forall u ensures Balance(grown.db, u) == Balance(s.db, u) == Balance(Serial(s.history), u) {
    }
    forall j | 0 <= j < |s.txs| ensures TxOk(grown.db, s.txs[j]) {
      assert TxOk(s.db, s.txs[j]);
    }
    QuietMoveKeeps(grown, i, Inserting);
  }

  lemma {:induction false} ReserveKeeps(s: State, i: nat)
    requires Inv(s) && CanAdvance(s, i) && s.txs[i].phase.Inserting?
    requires !KeyTaken(s.db.lines, s.txs[i].request.entry.key)
    ensures Inv(Moved(s, i, Updating))
  {
    var t := s.txs[i].(phase := Updating);
    forall j | 0 <= j < |s.txs| && j != i ensures PairOk(t, s.txs[j]) && PairOk(s.txs[j], t) {
      assert !WaitsFor(s, i, j);
      assert PairOk(s.txs[i], s.txs[j]) && PairOk(s.txs[j], s.txs[i]);
    }
    assert TxOk(s.db, s.txs[i]);
    ReplaceKeeps(s.db, s.txs, i, t, s.db);
    HistorySurvives(s.txs, s.history, i, t);
  }

  lemma {:induction false} LockKeeps(s: State, i: nat)
    requires Inv(s) && CanAdvance(s, i) && s.txs[i].phase.Updating? && Covers(s.db, s.txs[i].request)
    ensures Inv(Advanced(s, i))
  {
    var r := s.txs[i].request;
    var t := s.txs[i].(phase := Posting(Balance(s.db, r.entry.user) + r.entry.delta));
    forall j | 0 <= j < |s.txs| && j != i ensures PairOk(t, s.txs[j]) && PairOk(s.txs[j], t) {
      assert !WaitsFor(s, i, j);
      assert PairOk(s.txs[i], s.txs[j]) && PairOk(s.txs[j], s.txs[i]);
    }
    assert TxOk(s.db, s.txs[i]);
    ReplaceKeeps(s.db, s.txs, i, t, s.db);
    HistorySurvives(s.txs, s.history, i, t);
  }

  lemma {:induction false} ListKeeps(txs: seq<Tx>, h: seq<Done>, i: nat, t: Tx, d: Done)
    requires HistoryOk(txs, h) && i < |txs| && !Ended(txs[i].phase)
    requires d.tx == i && t == Tx(d.request, Finished(d.outcome))
    ensures HistoryOk(txs[i := t], h + [d])
  {
    HistorySurvives(txs, h, i, t);
    var h' := h + [d];
    forall j | 0 <= j < |txs| && txs[i := t][j].phase.Finished? ensures Listed(h', j) {
      if j == i {
        assert h'[|h|].tx == i;
      } else {
        assert Listed(h, j);
        var k :| 0 <= k < |h| && h[k].tx == j;
        assert h'[k].tx == j;
      }
    }
  }

  /** A finished call neither reserves nor locks; recording it keeps the rest. */
  lemma {:induction false} CompleteKeeps(s: State, i: nat, o: Outcome, b': Books)
    requires Inv(s) && i < |s.txs| && !Ended(s.txs[i].phase)
    requires o == Decide(s.db, s.txs[i].request) && b' == Apply(s.db, s.txs[i].request)
    requires LinesHaveWallets(b')
    requires forall j :: 0 <= j < |s.txs| && j != i ==> TxOk(b', s.txs[j])
    ensures Inv(Completed(s, i, o).(db := b'))
  {
    var t := s.txs[i].(phase := Finished(o));
    forall j | 0 <= j < |s.txs| && j != i ensures PairOk(t, s.txs[j]) && PairOk(s.txs[j], t) {
      assert PairOk(s.txs[i], s.txs[j]) && PairOk(s.txs[j], s.txs[i]);
    }
    assert TxOk(s.db, s.txs[i]);
    ReplaceKeeps(s.db, s.txs, i, t, b');
    HistorySurvives(s.txs, s.history, i, t);
    var d := Done(i, s.txs[i].request, o);
    RecordKeepsSerial(s.db, s.history, d);
    ListKeeps(s.txs, s.history, i, t, d);
  }

  lemma {:induction false} RefusalKeeps(s: State, i: nat, o: Outcome)
    requires Inv(s) && i < |s.txs| && 2 <= Rank(s.txs[i].phase) <= 4
    requires o == Decide(s.db, s.txs[i].request) && !o.Applied?
    ensures Inv(Completed(s, i, o))
  {
    assert TxOk(s.db, s.txs[i]);
    assert Apply(s.db, s.txs[i].request) == s.db;
    CompleteKeeps(s, i, o, s.db);
  }

  lemma {:induction false} CommitKeeps(s: State, i: nat)
    requires Inv(s) && i < |s.txs| && s.txs[i].phase.Posting?
    ensures Inv(Completed(s, i, Applied).(db := Posted(s.db, s.txs[i].request)))
  {
    var r := s.txs[i].request;
    assert TxOk(s.db, s.txs[i]);
    var b' := Posted(s.db, r);
    assert WithWallet(s.db, r.entry.user) == s.db;
    assert Apply(s.db, r) == b';
    forall j | 0 <= j < |s.txs| && j != i ensures TxOk(b', s.txs[j]) {
      assert PairOk(s.txs[i], s.txs[j]);
      OthersSeeNothing(s.db, s.txs[i], s.txs[j]);
    }
    CompleteKeeps(s, i, Applied, b');
  }

  /** The balance staged under the row lock is still the right one. */
  lemma {:induction false} PostingKeeps(s: State, i: nat)
    requires Inv(s) && i < |s.txs| && s.txs[i].phase.Posting?
    ensures Inv(Advanced(s, i))
  {
    assert TxOk(s.db, s.txs[i]);
    CommitKeeps(s, i);
    assert Advanced(s, i) == Completed(s, i, Applied).(db := Posted(s.db, s.txs[i].request));
  }

  /** Committing touches one key and one balance, and the other call holds neither. */
  lemma {:induction false} OthersSeeNothing(b: Books, t: Tx, u: Tx)
    requires TxOk(b, t) && TxOk(b, u) && PairOk(t, u) && t.phase.Posting?
    ensures TxOk(Posted(b, t.request), u)
  {
    var b' := Posted(b, t.request);
    if 3 <= Rank(u.phase) <= 4 {
      var key := u.request.entry.key;
      assert Reserves(u, key) || key.None?;
      assert forall i :: 0 <= i < |b.lines| ==> b'.lines[i] == b.lines[i];
      assert !KeyTaken(b'.lines, key);
    }
  }

  lemma {:induction false} NextKeeps(s: State, step: Step)
    requires Inv(s)
    ensures Inv(Next(s, step))
  {
    match step
    case Start(r) =>
      if Legal(r) && FreshRequest(s, r) {
        StartKeeps(s, r);
      }
    case Crash(i) =>
      if i < |s.txs| && !Ended(s.txs[i].phase) {
        QuietMoveKeeps(s, i, Crashed);
      }
    case Advance(i) =>
      if CanAdvance(s, i) {
        AdvanceKeeps(s, i);
      }
  }

  lemma {:induction false} AdvanceKeeps(s: State, i: nat)
    requires Inv(s) && CanAdvance(s, i)
    ensures Inv(Advanced(s, i))
  {
    var r := s.txs[i].request;
    assert TxOk(s.db, s.txs[i]);
    match s.txs[i].phase
    case Looking => QuietMoveKeeps(s, i, if r.entry.user in s.db.balances then Inserting else Creating);
    case Creating => CreateKeeps(s, i);
    case Inserting =>
      if KeyTaken(s.db.lines, r.entry.key) {
        RefusalKeeps(s, i, Duplicate);
      } else {
        ReserveKeeps(s, i);
      }
    case Updating =>
      if Covers(s.db, r) {
        LockKeeps(s, i);
      } else {
        RefusalKeeps(s, i, Insufficient);
      }
    case Posting(_) => PostingKeeps(s, i);
  }

  lemma {:induction false} AlwaysInv(steps: seq<Step>)
    ensures Inv(After(steps))
  {
    if steps != [] {
      AlwaysInv(steps[..|steps| - 1]);
      NextKeeps(After(steps[..|steps| - 1]), steps[|steps| - 1]);
    }
  }

  // ------------------------------------------------------------------ main results

  /** Every interleaving, with crashes anywhere, leaves the lines, donations and balances that running
      the completed calls one by one in the order they were decided leaves, and each call had the
      outcome it has in that serial run. */
  lemma {:induction false} InterleavingsAreSerial(steps: seq<Step>)
    ensures var s := After(steps);
            && Agrees(s.db, ApplyAll(EMPTY, Requests(s.history)))
            && OutcomesSerial(s.history)
            && OncePerCall(s.history)
            && (forall i :: 0 <= i < |s.txs| && s.txs[i].phase.Finished? ==> Listed(s.history, i))
  {
    AlwaysInv(steps);
  }

  /** In every committed state each balance is the sum of the user's ledger lines and is never
      negative, keys are unique, and DONATION lines pair with donation rows. */
  lemma {:induction false} CommittedStatesAreSound(steps: seq<Step>)
    ensures Sound(After(steps).db)
  {
    var s := After(steps);
    AlwaysInv(steps);
    RequestsOf(s.history);
    RunsAreSound(Requests(s.history));
    var c := Serial(s.history);
    forall u ensures Balance(s.db, u) == SumDeltas(s.db.lines, u) && Balance(s.db, u) >= 0 {
      assert Balance(s.db, u) == Balance(c, u) == SumDeltas(c.lines, u);
    }
  }

  lemma {:induction false} RequestsOf(h: seq<Done>)
    ensures |Requests(h)| == |h|
    ensures forall k :: 0 <= k < |h| ==> Requests(h)[k] == h[k].request
  {
    if h != [] {
      RequestsOf(h[..|h| - 1]);
    }
  }

  /** A call only ever waits for a call that is further along. */
  lemma {:induction false} WaitsGoForward(s: State, i: nat, j: nat)
    requires i < |s.txs| && j < |s.txs| && WaitsFor(s, i, j)
    ensures Rank(s.txs[i].phase) < Rank(s.txs[j].phase) <= 4
  {
  }

  /** No deadlock: while any call is unfinished, some unfinished call can move, and it is the call itself
      or one at most two waits away. */
  lemma {:induction false} NoDeadlock(s: State, i: nat) returns (j: nat)
    requires i < |s.txs| && !Ended(s.txs[i].phase)
    ensures CanAdvance(s, j)
    ensures j == i || Rank(s.txs[i].phase) < Rank(s.txs[j].phase)
  {
    j := i;
    if Blocked(s, i) {
      var k :| 0 <= k < |s.txs| && WaitsFor(s, i, k);
      WaitsGoForward(s, i, k);
      j := k;
      if Blocked(s, k) {
        j :| 0 <= j < |s.txs| && WaitsFor(s, k, j);
        WaitsGoForward(s, k, j);
      }
    }
  }

  /** A call that can move gets further, never dies of it, and when it ends it has the outcome that the
      committed books call for at that moment. */
  lemma {:induction false} AdvancingAnswers(s: State, i: nat)
    requires Inv(s) && CanAdvance(s, i)
    ensures var p, q := s.txs[i].phase, Next(s, Advance(i)).txs[i].phase;
            && Rank(p) < Rank(q) && !q.Crashed?
            && (q.Finished? ==> q.outcome == Decide(s.db, s.txs[i].request))
            && (p.Inserting? && KeyTaken(s.db.lines, s.txs[i].request.entry.key) ==> q == Finished(Duplicate))
            && (p.Updating? && !Covers(s.db, s.txs[i].request) ==> q == Finished(Insufficient))
            && (p.Posting? ==> q == Finished(Applied))
  {
    assert TxOk(s.db, s.txs[i]);
  }

  /** A call can die at any moment before its end: nothing it has not committed is seen, its key is free
      again and its row unlocked. */
  lemma {:induction false} CrashesLeaveNoTrace(s: State, i: nat)
    requires i < |s.txs| && !s.txs[i].phase.Finished?
    ensures var t := Next(s, Crash(i));
            && t.db == s.db && t.history == s.history && t.txs[i].phase.Crashed?
            && (forall j :: 0 <= j < |s.txs| && j != i ==> t.txs[j] == s.txs[j])
            && (forall j :: 0 <= j < |s.txs| ==> !WaitsFor(t, j, i))
  {
  }

  function Work(txs: seq<Tx>): nat {
    if txs == [] then 0 else Work(txs[..|txs| - 1]) + (5 - Rank(txs[|txs| - 1].phase))
  }

  lemma {:induction false} WorkAt(txs: seq<Tx>, i: nat, t: Tx)
    requires i < |txs|
    ensures Work(txs[i := t]) + Rank(t.phase) == Work(txs) + Rank(txs[i].phase)
  {
    var n := |txs| - 1;
    if i == n {
      assert txs[i := t][..n] == txs[..n];
    } else {
      WorkAt(txs[..n], i, t);
      assert txs[i := t][..n] == txs[..n][i := t];
    }
  }

  /** No livelock: each move and each crash uses up remaining work, so without new calls a run can take
      at most five of them per call. */
  lemma {:induction false} EveryMoveUsesWork(s: State, step: Step)
    requires !step.Start?
    ensures Next(s, step) == s || Work(Next(s, step).txs) < Work(s.txs)
  {
    if Next(s, step) != s {
      var i := step.tx;
      WorkAt(s.txs, i, Next(s, step).txs[i]);
      assert Next(s, step).txs == s.txs[i := Next(s, step).txs[i]];
    }
  }
}
