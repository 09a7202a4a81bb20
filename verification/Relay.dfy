/** The outbox relay: publish, then mark, one row at a time, stopping at the first failure. */
module OutboxRelay {
  datatype Row<M> = Row(message: M, published: bool)

  /** What one publish call does: reach the broker and say so, fail, or reach it and still raise. */
  datatype Reply = Delivered | Failed | Unacknowledged

  /** Rows in id order; `log` is the broker's log, as row numbers. */
  datatype Outbox<M> = Outbox(rows: seq<Row<M>>, log: seq<nat>)

  // ------------------------------------------------------------------ one drain

  /** Row numbers not yet marked, oldest first, from `i` on. */
  function Unpublished<M>(rows: seq<Row<M>>, i: nat): seq<nat>
    decreases |rows| - i
  {
    if i >= |rows| then []
    else if rows[i].published then Unpublished(rows, i + 1)
    else [i] + Unpublished(rows, i + 1)
  }

  function Min(a: nat, b: nat): nat { if a < b then a else b }

  function Fetched<M>(rows: seq<Row<M>>, limit: nat): seq<nat> {
    var all := Unpublished(rows, 0);
    all[..Min(limit, |all|)]
  }

  /** Unpublished rows in order, none older skipped, and fewer than the limit only when there are no more. */
  ghost predicate OldestUnpublished<M>(rows: seq<Row<M>>, limit: nat, batch: seq<nat>) {
    && |batch| <= limit
    && (forall i, j :: 0 <= i < j < |batch| ==> batch[i] < batch[j])
    && (forall i :: 0 <= i < |batch| ==> batch[i] < |rows| && !rows[batch[i]].published)
    && (forall r :: 0 <= r < |rows| && !rows[r].published && r !in batch ==>
          |batch| == limit && forall i :: 0 <= i < |batch| ==> batch[i] < r)
  }

  lemma {:induction false} UnpublishedInOrder<M>(rows: seq<Row<M>>, i: nat)
    ensures var all := Unpublished(rows, i);
            && (forall j, k :: 0 <= j < k < |all| ==> all[j] < all[k])
            && (forall j :: 0 <= j < |all| ==> i <= all[j] < |rows| && !rows[all[j]].published)
            && (forall r :: i <= r < |rows| && !rows[r].published ==> r in all)
    decreases |rows| - i
  {
    if i < |rows| {
      UnpublishedInOrder(rows, i + 1);
      var all, later := Unpublished(rows, i), Unpublished(rows, i + 1);
      if !rows[i].published {
        assert all[0] == i;
        assert forall j :: 0 < j < |all| ==> all[j] == later[j - 1];
        forall r | i < r < |rows| && !rows[r].published ensures r in all {
          assert r in later;
        }
      }
    }
  }

  lemma {:induction false} InPrefix(xs: seq<nat>, ys: seq<nat>, k: nat)
    requires xs <= ys
    ensures k < |xs| ==> ys[k] in xs
  {
    assert k < |xs| ==> xs[k] == ys[k];
  }

  lemma {:induction false} FetchedAreOldest<M>(rows: seq<Row<M>>, limit: nat)
    ensures OldestUnpublished(rows, limit, Fetched(rows, limit))
  {
    var all := Unpublished(rows, 0);
    var batch := Fetched(rows, limit);
    UnpublishedInOrder(rows, 0);
    forall r | 0 <= r < |rows| && !rows[r].published && r !in batch
      ensures |batch| == limit && forall i :: 0 <= i < |batch| ==> batch[i] < r
    {
      var k :| 0 <= k < |all| && all[k] == r;
      InPrefix(batch, all, k);
    }
  }

  lemma {:induction false} SameOldest<M>(rows: seq<Row<M>>, limit: nat, a: seq<nat>, b: seq<nat>, n: nat)
    requires OldestUnpublished(rows, limit, a) && OldestUnpublished(rows, limit, b) && n <= |a|
    ensures n <= |b| && a[..n] == b[..n]
  {
    if n > 0 {
      SameOldest(rows, limit, a, b, n - 1);
      SameNextOldest(rows, limit, a, b, n - 1);
      assert a[..n] == a[..n - 1] + [a[n - 1]] && b[..n] == b[..n - 1] + [b[n - 1]];
    }
  }

  /** Only one batch answers that description. */
  lemma {:induction false} OldestAreUnique<M>(rows: seq<Row<M>>, limit: nat, a: seq<nat>, b: seq<nat>)
    requires OldestUnpublished(rows, limit, a) && OldestUnpublished(rows, limit, b)
    ensures a == b
  {
    SameOldest(rows, limit, a, b, |a|);
    SameOldest(rows, limit, b, a, |b|);
    assert a == a[..|a|] && b == b[..|b|];
  }

  lemma {:induction false} OldestAreFetched<M>(rows: seq<Row<M>>, limit: nat, batch: seq<nat>)
    requires OldestUnpublished(rows, limit, batch)
    ensures batch == Fetched(rows, limit)
  {
    FetchedAreOldest(rows, limit);
    OldestAreUnique(rows, limit, batch, Fetched(rows, limit));
  }

  lemma {:induction false} SamePrefix(a: seq<nat>, b: seq<nat>, n: nat, k: nat)
    requires n <= |a| && n <= |b| && a[..n] == b[..n]
    ensures k < n ==> a[k] == b[k]
  {
    assert k < n ==> a[..n][k] == b[..n][k];
  }

  lemma {:induction false} NotBefore(a: seq<nat>, b: seq<nat>, n: nat, k: nat)
    requires n < |a| && n <= |b| && a[..n] == b[..n] && k < |b| && b[k] == a[n]
    requires forall i, j :: 0 <= i < j < |a| ==> a[i] < a[j]
    ensures k >= n
  {
    SamePrefix(a, b, n, k);
  }

  lemma {:induction false} SameNextOldest<M>(rows: seq<Row<M>>, limit: nat, a: seq<nat>, b: seq<nat>, n: nat)
    requires OldestUnpublished(rows, limit, a) && OldestUnpublished(rows, limit, b)
    requires n < |a| && n <= |b| && a[..n] == b[..n]
    ensures n < |b| && a[n] == b[n]
  {
    if a[n] in b {
      var k :| 0 <= k < |b| && b[k] == a[n];
      NotBefore(a, b, n, k);
    }
    assert n < |b|;
    if b[n] in a {
      var k :| 0 <= k < |a| && a[k] == b[n];
      NotBefore(b, a, n, k);
    }
  }

  /** The reply to the j-th publish of a drain; the broker is healthy once the script ends. */
  function ReplyTo(replies: seq<Reply>, j: nat): Reply {
    if j < |replies| then replies[j] else Delivered
  }

  /** How many of the first `n` publishes go through before the first that does not. */
  function Clean(replies: seq<Reply>, n: nat): (k: nat)
    ensures k <= n
    ensures forall j :: 0 <= j < k ==> ReplyTo(replies, j).Delivered?
    ensures k < n ==> !ReplyTo(replies, k).Delivered?
  {
    if n == 0 then 0
    else var k := Clean(replies, n - 1);
         if k < n - 1 || !ReplyTo(replies, n - 1).Delivered? then k else n
  }

  function Marked<M>(rows: seq<Row<M>>, i: nat): seq<Row<M>> {
    if i < |rows| then rows[i := rows[i].(published := true)] else rows
  }

  function MarkedAll<M>(rows: seq<Row<M>>, at: seq<nat>): seq<Row<M>> {
    if at == [] then rows else Marked(MarkedAll(rows, at[..|at| - 1]), at[|at| - 1])
  }

  /** The clean part of a batch is out and marked; the row after it may have gone out unheard. */
  function WithBatchSent<M>(o: Outbox<M>, batch: seq<nat>, replies: seq<Reply>): Outbox<M> {
    var k := Clean(replies, |batch|);
    Outbox(MarkedAll(o.rows, batch[..k]),
           o.log + batch[..k]
           + (if k < |batch| && ReplyTo(replies, k).Unacknowledged? then [batch[k]] else []))
  }

  function Drained<M>(o: Outbox<M>, limit: nat, replies: seq<Reply>): Outbox<M> {
    WithBatchSent(o, Fetched(o.rows, limit), replies)
  }

  class Relay<M> {
    var rows: seq<Row<M>>
    var log: seq<nat>

    constructor ()
      ensures rows == [] && log == []
    {
      rows, log := [], [];
    }

    function View(): Outbox<M>
      reads this
    {
      Outbox(rows, log)
    }

    method FetchUnpublished(limit: nat) returns (batch: seq<nat>)
      ensures OldestUnpublished(rows, limit, batch)
    {
      FetchedAreOldest(rows, limit);
      batch := Fetched(rows, limit);
    }

    method MarkPublished(i: nat)
      modifies this`rows
      ensures rows == Marked(old(rows), i)
    {
      if i < |rows| {
        rows := rows[i := rows[i].(published := true)];
      }
    }

    /** The loop over the fetched rows. */
    method PublishInOrder(pending: seq<nat>, replies: seq<Reply>) returns (published: nat)
      modifies this
      ensures published == Clean(replies, |pending|)
      ensures View() == WithBatchSent(old(View()), pending, replies)
    {
      ghost var k := Clean(replies, |pending|);
      published := 0;
      while published < |pending|
        invariant published <= k
        invariant rows == MarkedAll(old(rows), pending[..published])
        invariant log == old(log) + pending[..published]
      {
        var reply := ReplyTo(replies, published);
        if reply.Unacknowledged? {
          log := log + [pending[published]];
        }
        if !reply.Delivered? {
          break;
        }
        log := log + [pending[published]];
        assert pending[..published + 1] == pending[..published] + [pending[published]];
        MarkPublished(pending[published]);
        published := published + 1;
      }
    }

    method DrainOnce(limit: nat, replies: seq<Reply>) returns (published: nat)
      modifies this
      ensures View() == Drained(old(View()), limit, replies)
      ensures published == Clean(replies, |Fetched(old(rows), limit)|)
    {
      var pending := FetchUnpublished(limit);
      OldestAreFetched(rows, limit, pending);
      published := PublishInOrder(pending, replies);
    }
  }

  // ------------------------------------------------------------------ the relay as steps

  /** `batch` is what is left of the fetched rows; `sent` says its head is published and not yet marked. */
  datatype Sys<M> = Sys(outbox: Outbox<M>, batch: seq<nat>, sent: bool)

  datatype Step<M> =
    | Append(message: M)
    | Fetch(limit: nat)
    | Publish(reply: Reply)
    | Mark
    | Crash          // the process dies, or marking fails: the batch in memory is gone

  predicate Idle<M>(s: Sys<M>) { s.batch == [] && !s.sent }

  function Next<M>(s: Sys<M>, step: Step<M>): Sys<M> {
    match step
    case Append(m) => s.(outbox := s.outbox.(rows := s.outbox.rows + [Row(m, false)]))
    case Fetch(limit) => if Idle(s) then s.(batch := Fetched(s.outbox.rows, limit)) else s
    case Publish(reply) =>
      if s.batch == [] || s.sent then s
      else
        var log := if reply.Failed? then s.outbox.log else s.outbox.log + [s.batch[0]];
        if reply.Delivered? then s.(outbox := s.outbox.(log := log), sent := true)
        else s.(outbox := s.outbox.(log := log), batch := [])
    case Mark =>
      if s.batch == [] || !s.sent then s
      else Sys(s.outbox.(rows := Marked(s.outbox.rows, s.batch[0])), s.batch[1..], false)
    case Crash => s.(batch := [], sent := false)
  }

  function After<M>(s: Sys<M>, steps: seq<Step<M>>): Sys<M> {
    if steps == [] then s else Next(After(s, steps[..|steps| - 1]), steps[|steps| - 1])
  }

  function Start<M>(): Sys<M> { Sys(Outbox([], []), [], false) }

  /** The log with adjacent repeats removed. */
  function Collapsed(log: seq<nat>): seq<nat> {
    if |log| == 0 then []
    else if |log| >= 2 && log[|log| - 2] == log[|log| - 1] then Collapsed(log[..|log| - 1])
    else Collapsed(log[..|log| - 1]) + [log[|log| - 1]]
  }

  function From(m: nat, n: nat): (s: seq<nat>)
    ensures |s| == n && forall i :: 0 <= i < n ==> s[i] == m + i
  {
    seq(n, i requires 0 <= i < n => m + i)
  }

  /** The first `m` rows are marked and no other is. */
  ghost predicate MarkedUpTo<M>(rows: seq<Row<M>>, m: nat) {
    m <= |rows| && forall i :: 0 <= i < |rows| ==> (rows[i].published <==> i < m)
  }

  ghost predicate Inv<M>(s: Sys<M>, m: nat, k: nat) {
    && MarkedUpTo(s.outbox.rows, m)
    && Collapsed(s.outbox.log) == From(0, k)
    && (k == m || k == m + 1) && k <= |s.outbox.rows|
    && s.batch == From(m, |s.batch|) && m + |s.batch| <= |s.outbox.rows|
    && (s.sent ==> s.batch != [] && k == m + 1)
  }

  lemma {:induction false} FirstOfFrom(m: nat, n: nat)
    requires n > 0
    ensures From(m, n) == [m] + From(m + 1, n - 1)
  {
  }

  lemma {:induction false} UnpublishedIsTheRest<M>(rows: seq<Row<M>>, m: nat, i: nat)
    requires MarkedUpTo(rows, m) && i <= |rows|
    ensures var from := if i < m then m else i;
            Unpublished(rows, i) == From(from, |rows| - from)
    decreases |rows| - i
  {
    if i < |rows| {
      UnpublishedIsTheRest(rows, m, i + 1);
      if i >= m {
        FirstOfFrom(i, |rows| - i);
      }
    }
  }

  lemma {:induction false} CollapsedGrows(log: seq<nat>, k: nat, i: nat)
    requires Collapsed(log) == From(0, k) && (i == k || (k > 0 && i == k - 1))
    ensures Collapsed(log + [i]) == From(0, if i == k then k + 1 else k)
  {
    assert (log + [i])[..|log|] == log;
    if k > 0 {
      LastOfCollapsed(log);
    } else {
      EmptyCollapsed(log);
    }
  }

  lemma {:induction false} LastOfCollapsed(log: seq<nat>)
    requires Collapsed(log) != []
    ensures log != [] && Collapsed(log)[|Collapsed(log)| - 1] == log[|log| - 1]
  {
    if |log| >= 2 && log[|log| - 2] == log[|log| - 1] {
      EmptyCollapsed(log[..|log| - 1]);
      LastOfCollapsed(log[..|log| - 1]);
    }
  }

  lemma {:induction false} EmptyCollapsed(log: seq<nat>)
    ensures Collapsed(log) == [] <==> log == []
  {
    if |log| >= 2 {
      EmptyCollapsed(log[..|log| - 1]);
    }
  }

  lemma {:induction false} FetchKeeps<M>(s: Sys<M>, limit: nat, m: nat, k: nat)
    requires Inv(s, m, k) && Idle(s)
    ensures Inv(s.(batch := Fetched(s.outbox.rows, limit)), m, k)
  {
    UnpublishedIsTheRest(s.outbox.rows, m, 0);
    var n := Min(limit, |s.outbox.rows| - m);
    assert Fetched(s.outbox.rows, limit) == From(m, n);
  }

  lemma {:induction false} PublishKeeps<M>(s: Sys<M>, reply: Reply, m: nat, k: nat)
    requires Inv(s, m, k) && s.batch != [] && !s.sent && !reply.Failed?
    ensures Inv(Next(s, Publish(reply)), m, m + 1)
  {
    CollapsedGrows(s.outbox.log, k, m);
  }

  lemma {:induction false} MarkKeeps<M>(s: Sys<M>, m: nat, k: nat)
    requires Inv(s, m, k) && s.batch != [] && s.sent
    ensures Inv(Next(s, Mark), m + 1, k)
  {
    assert s.batch[1..] == From(m + 1, |s.batch| - 1);
  }

  lemma {:induction false} AppendKeeps<M>(s: Sys<M>, message: M, m: nat, k: nat)
    requires Inv(s, m, k)
    ensures Inv(Next(s, Append(message)), m, k)
  {
  }

  lemma {:induction false} CrashKeeps<M>(s: Sys<M>, m: nat, k: nat)
    requires Inv(s, m, k)
    ensures Inv(Next(s, Crash), m, k)
  {
  }

  lemma {:induction false} FailedPublishKeeps<M>(s: Sys<M>, reply: Reply, m: nat, k: nat)
    requires Inv(s, m, k) && (s.batch == [] || s.sent || reply.Failed?)
    ensures Inv(Next(s, Publish(reply)), m, k)
  {
  }

  lemma {:induction false} NextKeeps<M>(s: Sys<M>, step: Step<M>, m: nat, k: nat) returns (m': nat, k': nat)
    requires Inv(s, m, k)
    ensures Inv(Next(s, step), m', k')
    ensures m <= m' <= m + 1 && k <= k' <= k + 1
  {
    m', k' := m, k;
    match step
    case Append(message) => AppendKeeps(s, message, m, k);
    case Fetch(limit) => if Idle(s) { FetchKeeps(s, limit, m, k); }
    case Publish(reply) =>
      if s.batch != [] && !s.sent && !reply.Failed? {
        PublishKeeps(s, reply, m, k);
        k' := m + 1;
      } else {
        FailedPublishKeeps(s, reply, m, k);
      }
    case Mark =>
      if s.batch != [] && s.sent {
        MarkKeeps(s, m, k);
        m' := m + 1;
      }
    case Crash => CrashKeeps(s, m, k);
  }

  /** The process can die at any moment; what it had fetched is forgotten, and tables and broker stay. */
  lemma {:induction false} CrashForgetsTheBatch<M>(s: Sys<M>)
    ensures Idle(Next(s, Crash)) && Next(s, Crash).outbox == s.outbox
  {
  }

  /** Apart from appends the relay changes no message and only adds to the log. */
  lemma {:induction false} OnlyMarksAndSends<M>(s: Sys<M>, step: Step<M>)
    requires !step.Append?
    ensures |Next(s, step).outbox.rows| == |s.outbox.rows| && s.outbox.log <= Next(s, step).outbox.log
    ensures forall i :: 0 <= i < |s.outbox.rows| ==> Next(s, step).outbox.rows[i].message == s.outbox.rows[i].message
  {
  }

  /** Publish failures, lost acknowledgements, crashes between publish and mark, batching and
      concurrent appends: the marked rows are always the first `m`, the broker has seen exactly the
      first `k` rows in order apart from adjacent repeats, and at most one row is ahead of its mark. */
  lemma {:induction false} PrefixLaw<M>(steps: seq<Step<M>>) returns (m: nat, k: nat)
    ensures var s := After(Start(), steps);
            && MarkedUpTo(s.outbox.rows, m)
            && Collapsed(s.outbox.log) == From(0, k)
            && m <= k <= m + 1 && k <= |s.outbox.rows|
    ensures Inv(After(Start(), steps), m, k)
  {
    if steps == [] {
      m, k := 0, 0;
    } else {
      m, k := PrefixLaw(steps[..|steps| - 1]);
      m, k := NextKeeps(After(Start(), steps[..|steps| - 1]), steps[|steps| - 1], m, k);
    }
  }

  // ------------------------------------------------------------------ one drain is a run of steps

  /** Publish and mark the next `k` rows of the batch. */
  function PublishAndMark<M>(k: nat): seq<Step<M>> {
    if k == 0 then [] else PublishAndMark(k - 1) + [Publish(Delivered), Mark]
  }

  lemma {:induction false} AfterSplit<M>(s: Sys<M>, xs: seq<Step<M>>, ys: seq<Step<M>>)
    ensures After(s, xs + ys) == After(After(s, xs), ys)
  {
    if ys == [] {
      assert xs + ys == xs;
    } else {
      assert (xs + ys)[..|xs + ys| - 1] == xs + ys[..|ys| - 1];
      AfterSplit(s, xs, ys[..|ys| - 1]);
    }
  }

  lemma {:induction false} AfterOne<M>(s: Sys<M>, step: Step<M>)
    ensures After(s, [step]) == Next(s, step)
  {
    assert [step][..0] == [];
  }

  lemma {:induction false} AfterTwo<M>(s: Sys<M>, x: Step<M>, y: Step<M>)
    ensures After(s, [x, y]) == Next(Next(s, x), y)
  {
    AfterOne(s, x);
    assert [x, y][..1] == [x];
  }

  /** The system once the first `k` rows of the batch are out and marked. */
  function WithClean<M>(s: Sys<M>, k: nat): Sys<M>
    requires k <= |s.batch|
  {
    Sys(Outbox(MarkedAll(s.outbox.rows, s.batch[..k]), s.outbox.log + s.batch[..k]), s.batch[k..], false)
  }

  lemma {:induction false} OneMoreRow<M>(s: Sys<M>, k: nat)
    requires 0 < k <= |s.batch|
    ensures Next(Next(WithClean(s, k - 1), Publish(Delivered)), Mark) == WithClean(s, k)
  {
    assert s.batch[..k][..k - 1] == s.batch[..k - 1];
    assert s.batch[k - 1..][1..] == s.batch[k..];
    assert s.outbox.log + s.batch[..k] == s.outbox.log + s.batch[..k - 1] + [s.batch[k - 1]];
  }

  lemma {:induction false} NothingSentYet<M>(s: Sys<M>)
    requires !s.sent
    ensures WithClean(s, 0) == s
  {
    assert s.outbox.log + s.batch[..0] == s.outbox.log && s.batch[0..] == s.batch;
  }

  lemma {:induction false} CleanPartIsARun<M>(s: Sys<M>, k: nat)
    requires !s.sent && k <= |s.batch|
    ensures After(s, PublishAndMark(k)) == WithClean(s, k)
  {
    if k == 0 {
      NothingSentYet(s);
    } else {
      CleanPartIsARun(s, k - 1);
      AfterSplit(s, PublishAndMark(k - 1), [Publish(Delivered), Mark]);
      AfterTwo(After(s, PublishAndMark(k - 1)), Publish(Delivered), Mark);
      OneMoreRow(s, k);
    }
  }

  function DrainSteps<M>(o: Outbox<M>, limit: nat, replies: seq<Reply>): seq<Step<M>> {
    var batch := Fetched(o.rows, limit);
    var k := Clean(replies, |batch|);
    [Fetch(limit)] + PublishAndMark(k) + (if k < |batch| then [Publish(ReplyTo(replies, k))] else [])
  }

  /** `drain_once` is a run of relay steps, so the prefix law covers it. */
  lemma {:induction false} DrainIsARun<M>(o: Outbox<M>, limit: nat, replies: seq<Reply>)
    ensures After(Sys(o, [], false), DrainSteps(o, limit, replies)) == Sys(Drained(o, limit, replies), [], false)
  {
    var s := Sys(o, [], false);
    var batch := Fetched(o.rows, limit);
    var k := Clean(replies, |batch|);
    var last: seq<Step<M>> := if k < |batch| then [Publish(ReplyTo(replies, k))] else [];
    AfterOne(s, Fetch(limit));
    AfterSplit(s, [Fetch(limit)], PublishAndMark(k));
    CleanPartIsARun(Next(s, Fetch(limit)), k);
    AfterSplit(s, [Fetch(limit)] + PublishAndMark(k), last);
    var mid := After(s, [Fetch(limit)] + PublishAndMark(k));
    if k < |batch| {
      AfterOne(mid, Publish(ReplyTo(replies, k)));
      assert batch[k..][0] == batch[k];
    } else {
      assert After(mid, last) == mid;
      assert batch[k..] == [];
    }
  }

  // ------------------------------------------------------------------ progress

  lemma {:induction false} MarkingARange<M>(rows: seq<Row<M>>, m: nat, n: nat)
    requires MarkedUpTo(rows, m) && m + n <= |rows|
    ensures MarkedUpTo(MarkedAll(rows, From(m, n)), m + n)
    ensures |MarkedAll(rows, From(m, n))| == |rows|
  {
    if n > 0 {
      assert From(m, n)[..n - 1] == From(m, n - 1);
      MarkingARange(rows, m, n - 1);
    }
  }

  /** A drain marks the clean part of its batch, in order, and nothing else. */
  lemma {:induction false} DrainMarks<M>(o: Outbox<M>, limit: nat, replies: seq<Reply>, m: nat)
    requires MarkedUpTo(o.rows, m)
    ensures var n := Min(limit, |o.rows| - m);
            && |Fetched(o.rows, limit)| == n
            && |Drained(o, limit, replies).rows| == |o.rows|
            && MarkedUpTo(Drained(o, limit, replies).rows, m + Clean(replies, n))
  {
    UnpublishedIsTheRest(o.rows, m, 0);
    var n := Min(limit, |o.rows| - m);
    assert Fetched(o.rows, limit) == From(m, n);
    var k := Clean(replies, n);
    assert From(m, n)[..k] == From(m, k);
    MarkingARange(o.rows, m, k);
  }

  function DrainedTimes<M>(o: Outbox<M>, limit: nat, times: nat): Outbox<M> {
    if times == 0 then o else Drained(DrainedTimes(o, limit, times - 1), limit, [])
  }

  lemma {:induction false} HealthyIsClean(n: nat)
    ensures Clean([], n) == n
  {
  }

  /** With a healthy broker each drain marks min(batch, remaining) rows, so a fixed backlog is emptied
      once the drains have had room for it. */
  lemma {:induction false} HealthyDrainsEmptyTheBacklog<M>(o: Outbox<M>, limit: nat, times: nat, m: nat)
    requires MarkedUpTo(o.rows, m)
    ensures |DrainedTimes(o, limit, times).rows| == |o.rows|
    ensures MarkedUpTo(DrainedTimes(o, limit, times).rows, Min(m + times * limit, |o.rows|))
    ensures times * limit >= |o.rows| - m ==>
              forall i :: 0 <= i < |o.rows| ==> DrainedTimes(o, limit, times).rows[i].published
  {
    if times > 0 {
      HealthyDrainsEmptyTheBacklog(o, limit, times - 1, m);
      var done := Min(m + (times - 1) * limit, |o.rows|);
      assert times * limit == (times - 1) * limit + limit;
      DrainMarks(DrainedTimes(o, limit, times - 1), limit, [], done);
      HealthyIsClean(Min(limit, |o.rows| - done));
    }
  }
}
