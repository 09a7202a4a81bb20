/** The donor ranking query `top_donors` and its agreement with the ledger. */
module DonationRanking {
  import opened Prelude
  import opened WalletDomain
  import opened WalletLedger

  datatype DonorTotal = DonorTotal(donor: Uuid, total: int, count: int)

  // ------------------------------------------------------------------ the aggregates

  predicate Counts(d: Donation, persona: Uuid, donor: Uuid) {
    d.persona == persona && d.donor == Some(donor)
  }

  predicate Donates(ds: seq<Donation>, persona: Uuid, donor: Uuid) {
    exists i :: 0 <= i < |ds| && Counts(ds[i], persona, donor)
  }

  function TotalOf(ds: seq<Donation>, persona: Uuid, donor: Uuid): int {
    if ds == [] then 0
    else TotalOf(ds[..|ds| - 1], persona, donor)
         + (if Counts(ds[|ds| - 1], persona, donor) then ds[|ds| - 1].amount else 0)
  }

  function CountOf(ds: seq<Donation>, persona: Uuid, donor: Uuid): nat {
    if ds == [] then 0
    else CountOf(ds[..|ds| - 1], persona, donor) + (if Counts(ds[|ds| - 1], persona, donor) then 1 else 0)
  }

  /** The earliest donation time, when there is one. */
  function FirstAt(ds: seq<Donation>, persona: Uuid, donor: Uuid): Option<int> {
    if ds == [] then None
    else
      var earlier, last := FirstAt(ds[..|ds| - 1], persona, donor), ds[|ds| - 1];
      if !Counts(last, persona, donor) then earlier
      else if earlier.Some? && earlier.value <= last.at then earlier
      else Some(last.at)
  }

  function RowOf(ds: seq<Donation>, persona: Uuid, donor: Uuid): DonorTotal {
    DonorTotal(donor, TotalOf(ds, persona, donor), CountOf(ds, persona, donor))
  }

  // ------------------------------------------------------------------ the query

  /** ORDER BY total DESC, first donation ASC: `a` may stand before `b`. */
  predicate MayPrecede(ds: seq<Donation>, persona: Uuid, a: DonorTotal, b: DonorTotal) {
    || a.total > b.total
    || (a.total == b.total && EarlierOrEqual(FirstAt(ds, persona, a.donor), FirstAt(ds, persona, b.donor)))
  }

  predicate EarlierOrEqual(a: Option<int>, b: Option<int>) {
    a.Some? && b.Some? ==> a.value <= b.value
  }

  /** One row per donor of the persona, with that donor's aggregates. */
  ghost predicate Groups(ds: seq<Donation>, persona: Uuid, rows: seq<DonorTotal>) {
    && (forall i :: 0 <= i < |rows| ==> rows[i] == RowOf(ds, persona, rows[i].donor) && Donates(ds, persona, rows[i].donor))
    && NoDonorTwice(rows)
    && (forall donor :: Donates(ds, persona, donor) ==> RowOf(ds, persona, donor) in rows)
  }

  ghost predicate Ordered(ds: seq<Donation>, persona: Uuid, rows: seq<DonorTotal>) {
    forall i, j :: 0 <= i < j < |rows| ==> MayPrecede(ds, persona, rows[i], rows[j])
  }

  ghost predicate FullRanking(ds: seq<Donation>, persona: Uuid, rows: seq<DonorTotal>) {
    Groups(ds, persona, rows) && Ordered(ds, persona, rows)
  }

  /** A result the database may return; rows with the same sort key may come in any order. */
  ghost predicate IsTop(ds: seq<Donation>, persona: Uuid, limit: nat, result: seq<DonorTotal>) {
    exists rows :: FullRanking(ds, persona, rows) && result == rows[..if limit < |rows| then limit else |rows|]
  }

  function Insert(ds: seq<Donation>, persona: Uuid, rows: seq<DonorTotal>, r: DonorTotal): seq<DonorTotal> {
    if rows == [] then [r]
    else if MayPrecede(ds, persona, r, rows[0]) then [r] + rows
    else [rows[0]] + Insert(ds, persona, rows[1..], r)
  }

  function Donors(ds: seq<Donation>, persona: Uuid): seq<Uuid> {
    if ds == [] then []
    else
      var front, last := Donors(ds[..|ds| - 1], persona), ds[|ds| - 1];
      if last.persona == persona && last.donor.Some? && last.donor.value !in front then front + [last.donor.value] else front
  }

  function Sorted(ds: seq<Donation>, persona: Uuid, donors: seq<Uuid>): seq<DonorTotal> {
    if donors == [] then []
    else Insert(ds, persona, Sorted(ds, persona, donors[..|donors| - 1]), RowOf(ds, persona, donors[|donors| - 1]))
  }

  function TopDonors(ds: seq<Donation>, persona: Uuid, limit: nat): seq<DonorTotal> {
    var rows := Sorted(ds, persona, Donors(ds, persona));
    rows[..if limit < |rows| then limit else |rows|]
  }

  // ------------------------------------------------------------------ the query has a result

  lemma {:induction false} FirstAtExists(ds: seq<Donation>, persona: Uuid, donor: Uuid)
    ensures FirstAt(ds, persona, donor).Some? <==> Donates(ds, persona, donor)
  {
    if ds != [] {
      var front := ds[..|ds| - 1];
      FirstAtExists(front, persona, donor);
      if Donates(front, persona, donor) {
        var i :| 0 <= i < |front| && Counts(front[i], persona, donor);
        assert Counts(ds[i], persona, donor);
      }
      if Donates(ds, persona, donor) && !Counts(ds[|ds| - 1], persona, donor) {
        var i :| 0 <= i < |ds| && Counts(ds[i], persona, donor);
        assert Counts(front[i], persona, donor);
      }
    }
  }

  /** The first time is the least of the donor's donations to the persona. */
  lemma {:induction false} FirstAtIsTheLeast(ds: seq<Donation>, persona: Uuid, donor: Uuid)
    ensures var first := FirstAt(ds, persona, donor);
            && (forall i :: 0 <= i < |ds| && ds[i].persona == persona && ds[i].donor == Some(donor) ==>
                  first.Some? && first.value <= ds[i].at)
            && (first.Some? ==>
                  exists i :: 0 <= i < |ds| && ds[i].persona == persona && ds[i].donor == Some(donor) && ds[i].at == first.value)
  {
    if ds != [] {
      var n := |ds| - 1;
      var front, first := ds[..n], FirstAt(ds, persona, donor);
      FirstAtIsTheLeast(front, persona, donor);
      forall i | 0 <= i < n ensures front[i] == ds[i] {
      }
      if first.Some? && first == FirstAt(front, persona, donor) {
        var i :| 0 <= i < n && front[i].persona == persona && front[i].donor == Some(donor) && front[i].at == first.value;
        assert ds[i] == front[i];
      } else if first.Some? {
        assert ds[n].at == first.value;
      }
    }
  }

  /** The rows of the donor's donations to the persona. */
  function RowsOf(ds: seq<Donation>, persona: Uuid, donor: Uuid): set<nat> {
    set i: nat | i < |ds| && ds[i].persona == persona && ds[i].donor == Some(donor)
  }

  lemma {:induction false} OneMoreDonation(ds: seq<Donation>, persona: Uuid, donor: Uuid)
    requires ds != []
    ensures var n := |ds| - 1;
            && n !in RowsOf(ds[..n], persona, donor)
            && RowsOf(ds, persona, donor) == RowsOf(ds[..n], persona, donor) + if Counts(ds[n], persona, donor) then {n} else {}
  {
    var n := |ds| - 1;
    var front := ds[..n];
    forall i: nat | i < n ensures i in RowsOf(ds, persona, donor) <==> i in RowsOf(front, persona, donor) {
      assert front[i] == ds[i];
    }
  }

  /** The count is the number of those rows. */
  lemma {:induction false} CountIsTheNumber(ds: seq<Donation>, persona: Uuid, donor: Uuid)
    ensures CountOf(ds, persona, donor) == |RowsOf(ds, persona, donor)|
  {
    if ds != [] {
      CountIsTheNumber(ds[..|ds| - 1], persona, donor);
      OneMoreDonation(ds, persona, donor);
    }
  }

  lemma {:induction false} DonorsAreTheDonors(ds: seq<Donation>, persona: Uuid)
    ensures forall u :: u in Donors(ds, persona) <==> Donates(ds, persona, u)
    ensures forall i, j :: 0 <= i < j < |Donors(ds, persona)| ==> Donors(ds, persona)[i] != Donors(ds, persona)[j]
  {
    if ds != [] {
      var front, last := ds[..|ds| - 1], ds[|ds| - 1];
      DonorsAreTheDonors(front, persona);
      forall u ensures u in Donors(ds, persona) <==> Donates(ds, persona, u) {
        if Donates(front, persona, u) {
          var i :| 0 <= i < |front| && Counts(front[i], persona, u);
          assert Counts(ds[i], persona, u);
        }
        if Donates(ds, persona, u) && !Counts(last, persona, u) {
          var i :| 0 <= i < |ds| && Counts(ds[i], persona, u);
          assert Counts(front[i], persona, u);
        }
        assert Counts(last, persona, u) ==> Counts(ds[|ds| - 1], persona, u);
      }
    }
  }

  /** Where the new row lands. */
  function Position(ds: seq<Donation>, persona: Uuid, rows: seq<DonorTotal>, r: DonorTotal): (k: nat)
    ensures k <= |rows|
  {
    if rows == [] || MayPrecede(ds, persona, r, rows[0]) then 0
    else 1 + Position(ds, persona, rows[1..], r)
  }

  lemma {:induction false} InsertAtPosition(ds: seq<Donation>, persona: Uuid, rows: seq<DonorTotal>, r: DonorTotal)
    ensures var k := Position(ds, persona, rows, r);
            Insert(ds, persona, rows, r) == rows[..k] + [r] + rows[k..]
  {
    if rows != [] && !MayPrecede(ds, persona, r, rows[0]) {
      InsertAtPosition(ds, persona, rows[1..], r);
      var k := Position(ds, persona, rows[1..], r);
      assert rows[..k + 1] == [rows[0]] + rows[1..][..k];
    }
  }

  lemma {:induction false} PositionSplits(ds: seq<Donation>, persona: Uuid, rows: seq<DonorTotal>, r: DonorTotal)
    requires Ordered(ds, persona, rows)
    requires forall i :: 0 <= i < |rows| ==> Donates(ds, persona, rows[i].donor)
    requires Donates(ds, persona, r.donor)
    ensures var k := Position(ds, persona, rows, r);
            && (forall i :: 0 <= i < k ==> MayPrecede(ds, persona, rows[i], r))
            && (forall i :: k <= i < |rows| ==> MayPrecede(ds, persona, r, rows[i]))
  {
    if rows != [] {
      FirstAtExists(ds, persona, r.donor);
      if MayPrecede(ds, persona, r, rows[0]) {
        forall i | 0 <= i < |rows| ensures MayPrecede(ds, persona, r, rows[i]) {
          FirstAtExists(ds, persona, rows[0].donor);
          FirstAtExists(ds, persona, rows[i].donor);
          assert i > 0 ==> MayPrecede(ds, persona, rows[0], rows[i]);
        }
      } else {
        PositionSplits(ds, persona, rows[1..], r);
        var k := Position(ds, persona, rows[1..], r);
        assert forall i :: 0 < i < |rows| ==> rows[i] == rows[1..][i - 1];
      }
    }
  }

  lemma {:induction false} InsertKeepsOrder(ds: seq<Donation>, persona: Uuid, rows: seq<DonorTotal>, r: DonorTotal)
    requires Ordered(ds, persona, rows)
    requires forall i :: 0 <= i < |rows| ==> Donates(ds, persona, rows[i].donor)
    requires Donates(ds, persona, r.donor)
    ensures Ordered(ds, persona, Insert(ds, persona, rows, r))
  {
    var k, out := Position(ds, persona, rows, r), Insert(ds, persona, rows, r);
    InsertAtPosition(ds, persona, rows, r);
    PositionSplits(ds, persona, rows, r);
    forall i, j | 0 <= i < j < |out| ensures MayPrecede(ds, persona, out[i], out[j]) {
      var x, y := if i < k then i else i - 1, if j < k then j else j - 1;
      assert i != k ==> out[i] == rows[x];
      assert j != k ==> out[j] == rows[y];
    }
  }

  ghost predicate NoDonorTwice(rows: seq<DonorTotal>) {
    forall i, j :: 0 <= i < j < |rows| ==> rows[i].donor != rows[j].donor
  }

  lemma {:induction false} SplicedRows(rows: seq<DonorTotal>, k: nat, r: DonorTotal)
    requires k <= |rows|
    ensures forall x :: x in rows[..k] + [r] + rows[k..] <==> x in rows || x == r
  {
    assert rows == rows[..k] + rows[k..];
  }

  lemma {:induction false} SplicedDonors(rows: seq<DonorTotal>, k: nat, r: DonorTotal)
    requires k <= |rows| && NoDonorTwice(rows)
    requires forall i :: 0 <= i < |rows| ==> rows[i].donor != r.donor
    ensures NoDonorTwice(rows[..k] + [r] + rows[k..])
  {
    var out := rows[..k] + [r] + rows[k..];
    forall i, j | 0 <= i < j < |out| ensures out[i].donor != out[j].donor {
      assert out[i] == if i < k then rows[i] else if i == k then r else rows[i - 1];
      assert out[j] == if j < k then rows[j] else if j == k then r else rows[j - 1];
    }
  }

  lemma {:induction false} InsertedRows(ds: seq<Donation>, persona: Uuid, rows: seq<DonorTotal>, r: DonorTotal)
    ensures |Insert(ds, persona, rows, r)| == |rows| + 1
    ensures forall x :: x in Insert(ds, persona, rows, r) <==> x in rows || x == r
  {
    InsertAtPosition(ds, persona, rows, r);
    SplicedRows(rows, Position(ds, persona, rows, r), r);
  }

  predicate IsRowFor(ds: seq<Donation>, persona: Uuid, donors: seq<Uuid>, r: DonorTotal) {
    r.donor in donors && r == RowOf(ds, persona, r.donor)
  }

  /** The sorted rows are the donors' rows. */
  lemma {:induction false} SortedRows(ds: seq<Donation>, persona: Uuid, donors: seq<Uuid>)
    ensures |Sorted(ds, persona, donors)| == |donors|
    ensures forall r :: r in Sorted(ds, persona, donors) <==> IsRowFor(ds, persona, donors, r)
  {
    if donors != [] {
      var n := |donors| - 1;
      SortedRows(ds, persona, donors[..n]);
      InsertedRows(ds, persona, Sorted(ds, persona, donors[..n]), RowOf(ds, persona, donors[n]));
      assert donors == donors[..n] + [donors[n]];
    }
  }

  lemma {:induction false} SortedKeeps(ds: seq<Donation>, persona: Uuid, donors: seq<Uuid>)
    requires forall u :: u in donors ==> Donates(ds, persona, u)
    requires forall i, j :: 0 <= i < j < |donors| ==> donors[i] != donors[j]
    ensures Ordered(ds, persona, Sorted(ds, persona, donors))
    ensures NoDonorTwice(Sorted(ds, persona, donors))
  {
    if donors != [] {
      var n := |donors| - 1;
      var front, r := Sorted(ds, persona, donors[..n]), RowOf(ds, persona, donors[n]);
      SortedKeeps(ds, persona, donors[..n]);
      SortedRows(ds, persona, donors[..n]);
      forall i | 0 <= i < |front| ensures Donates(ds, persona, front[i].donor) && front[i].donor != r.donor {
        assert front[i] in front;
      }
      InsertKeepsOrder(ds, persona, front, r);
      InsertAtPosition(ds, persona, front, r);
      SplicedDonors(front, Position(ds, persona, front, r), r);
    }
  }

  /** The query always has a result, and this one is it. */
  lemma {:induction false} TopDonorsIsTop(ds: seq<Donation>, persona: Uuid, limit: nat)
    ensures IsTop(ds, persona, limit, TopDonors(ds, persona, limit))
  {
    DonorsAreTheDonors(ds, persona);
    var donors := Donors(ds, persona);
    SortedKeeps(ds, persona, donors);
    SortedRows(ds, persona, donors);
    var rows := Sorted(ds, persona, donors);
    forall i | 0 <= i < |rows|
      ensures rows[i] == RowOf(ds, persona, rows[i].donor) && Donates(ds, persona, rows[i].donor)
    {
      assert rows[i] in rows;
    }
    assert FullRanking(ds, persona, rows);
  }

  /** What the sum of amounts ranges over: exactly the donor's donations to the persona. */
  function SumOver(ds: seq<Donation>, rows: set<nat>): int
    requires forall i :: i in rows ==> i < |ds|
  {
    if ds == [] then 0
    else
      var n := |ds| - 1;
      SumOver(ds[..n], rows - {n}) + (if n in rows then ds[n].amount else 0)
  }

  lemma {:induction false} TotalIsTheSum(ds: seq<Donation>, persona: Uuid, donor: Uuid)
    ensures TotalOf(ds, persona, donor) == SumOver(ds, RowsOf(ds, persona, donor))
  {
    if ds != [] {
      var n := |ds| - 1;
      TotalIsTheSum(ds[..n], persona, donor);
      assert RowsOf(ds, persona, donor) - {n} == RowsOf(ds[..n], persona, donor);
    }
  }

  /** How a ranking reads: each row has the donor's sum and number of donations to the persona; totals fall,
      and between equal totals the first donation is not later; and who is missing, the limit being
      reached, has no more than the last row, and not earlier at the same total. */
  lemma {:induction false} RankingReadsTopDown(ds: seq<Donation>, persona: Uuid, limit: nat, rows: seq<DonorTotal>)
    requires IsTop(ds, persona, limit, rows)
    ensures |rows| <= limit
    ensures forall i :: 0 <= i < |rows| ==>
              var mine := RowsOf(ds, persona, rows[i].donor);
              mine != {} && rows[i].total == SumOver(ds, mine) && rows[i].count == |mine|
    ensures forall i, j :: 0 <= i < j < |rows| ==> rows[i].donor != rows[j].donor && StandsBefore(ds, persona, rows[i], rows[j])
    ensures forall donor :: RowsOf(ds, persona, donor) != {} && (forall i :: 0 <= i < |rows| ==> rows[i].donor != donor) ==>
              && |rows| == limit
              && forall i :: 0 <= i < |rows| ==> StandsBefore(ds, persona, rows[i], RowOf(ds, persona, donor))
  {
    var all :| FullRanking(ds, persona, all) && rows == all[..if limit < |all| then limit else |all|];
    RowsAreRight(ds, persona, all);
    AllInOrder(ds, persona, all);
    forall donor | RowsOf(ds, persona, donor) != {} && forall i :: 0 <= i < |rows| ==> rows[i].donor != donor
      ensures |rows| == limit
      ensures forall i :: 0 <= i < |rows| ==> StandsBefore(ds, persona, rows[i], RowOf(ds, persona, donor))
    {
      assert forall i :: 0 <= i < |rows| ==> rows[i] == all[i];
      CutOffStandLast(ds, persona, all, |rows|, donor);
    }
  }

  /** A donor outside the first `n` rows stands below them, and there are more than `n` rows. */
  lemma {:induction false} CutOffStandLast(ds: seq<Donation>, persona: Uuid, all: seq<DonorTotal>, n: nat, donor: Uuid)
    requires FullRanking(ds, persona, all) && n <= |all| && RowsOf(ds, persona, donor) != {}
    requires forall i :: 0 <= i < n ==> all[i].donor != donor
    ensures n < |all|
    ensures forall i :: 0 <= i < n ==> StandsBefore(ds, persona, all[i], RowOf(ds, persona, donor))
  {
    var k := EveryDonorHasARow(ds, persona, all, donor);
    AllInOrder(ds, persona, all);
  }

  lemma {:induction false} RowsAreRight(ds: seq<Donation>, persona: Uuid, all: seq<DonorTotal>)
    requires FullRanking(ds, persona, all)
    ensures forall i :: 0 <= i < |all| ==>
              var mine := RowsOf(ds, persona, all[i].donor);
              mine != {} && all[i].total == SumOver(ds, mine) && all[i].count == |mine|
  {
    forall i | 0 <= i < |all|
      ensures var mine := RowsOf(ds, persona, all[i].donor);
              mine != {} && all[i].total == SumOver(ds, mine) && all[i].count == |mine|
    {
      RowIsRight(ds, persona, all, i);
    }
  }

  lemma {:induction false} RowIsRight(ds: seq<Donation>, persona: Uuid, all: seq<DonorTotal>, i: nat)
    requires FullRanking(ds, persona, all) && i < |all|
    ensures var mine := RowsOf(ds, persona, all[i].donor);
            mine != {} && all[i].total == SumOver(ds, mine) && all[i].count == |mine|
  {
    DonorsHaveRows(ds, persona, all[i].donor);
    TotalIsTheSum(ds, persona, all[i].donor);
    CountIsTheNumber(ds, persona, all[i].donor);
  }

  lemma {:induction false} AllInOrder(ds: seq<Donation>, persona: Uuid, all: seq<DonorTotal>)
    requires FullRanking(ds, persona, all)
    ensures forall i, j :: 0 <= i < j < |all| ==> all[i].donor != all[j].donor && StandsBefore(ds, persona, all[i], all[j])
  {
    forall i, j | 0 <= i < j < |all| ensures all[i].donor != all[j].donor && StandsBefore(ds, persona, all[i], all[j]) {
      MayPrecedeMeans(ds, persona, all[i], all[j]);
    }
  }

  lemma {:induction false} EveryDonorHasARow(ds: seq<Donation>, persona: Uuid, all: seq<DonorTotal>, donor: Uuid)
    returns (k: nat)
    requires FullRanking(ds, persona, all) && RowsOf(ds, persona, donor) != {}
    ensures k < |all| && all[k] == RowOf(ds, persona, donor) && all[k].donor == donor
  {
    DonorsHaveRows(ds, persona, donor);
    assert RowOf(ds, persona, donor) in all;
    k :| 0 <= k < |all| && all[k] == RowOf(ds, persona, donor);
  }

  lemma {:induction false} DonorsHaveRows(ds: seq<Donation>, persona: Uuid, donor: Uuid)
    ensures Donates(ds, persona, donor) <==> RowsOf(ds, persona, donor) != {}
  {
    if Donates(ds, persona, donor) {
      var i :| 0 <= i < |ds| && Counts(ds[i], persona, donor);
      assert i in RowsOf(ds, persona, donor);
    }
    if RowsOf(ds, persona, donor) != {} {
      var i :| i in RowsOf(ds, persona, donor);
      assert Counts(ds[i], persona, donor);
    }
  }

  /** More in total, or as much and not later: some donation of `a` is as early as every one of `b`. */
  ghost predicate StandsBefore(ds: seq<Donation>, persona: Uuid, a: DonorTotal, b: DonorTotal) {
    || a.total > b.total
    || (a.total == b.total && forall j :: j in RowsOf(ds, persona, b.donor) ==>
          exists i :: i in RowsOf(ds, persona, a.donor) && ds[i].at <= ds[j].at)
  }

  lemma {:induction false} MayPrecedeMeans(ds: seq<Donation>, persona: Uuid, a: DonorTotal, b: DonorTotal)
    requires Donates(ds, persona, a.donor) && MayPrecede(ds, persona, a, b)
    ensures StandsBefore(ds, persona, a, b)
  {
    FirstAtIsTheLeast(ds, persona, a.donor);
    FirstAtIsTheLeast(ds, persona, b.donor);
    FirstAtExists(ds, persona, a.donor);
    var first := FirstAt(ds, persona, a.donor).value;
    var i :| 0 <= i < |ds| && ds[i].persona == persona && ds[i].donor == Some(a.donor) && ds[i].at == first;
    assert i in RowsOf(ds, persona, a.donor);
  }

  // ------------------------------------------------------------------ determinism and prefixes

  /** No two donors of the persona first donated at the same time. */
  ghost predicate DistinctFirstTimes(ds: seq<Donation>, persona: Uuid) {
    forall u, v :: u != v && Donates(ds, persona, u) && Donates(ds, persona, v) ==>
      FirstAt(ds, persona, u) != FirstAt(ds, persona, v)
  }

  lemma {:induction false} NoTieBothWays(ds: seq<Donation>, persona: Uuid, x: DonorTotal, y: DonorTotal)
    requires DistinctFirstTimes(ds, persona)
    requires Donates(ds, persona, x.donor) && Donates(ds, persona, y.donor)
    requires MayPrecede(ds, persona, x, y) && MayPrecede(ds, persona, y, x)
    ensures x.donor == y.donor
  {
    FirstAtExists(ds, persona, x.donor);
    FirstAtExists(ds, persona, y.donor);
  }

  /** Two full rankings that agree so far agree on the next row. */
  lemma {:induction false} SameNextRow(ds: seq<Donation>, persona: Uuid, a: seq<DonorTotal>, b: seq<DonorTotal>, p: nat)
    requires DistinctFirstTimes(ds, persona)
    requires FullRanking(ds, persona, a) && FullRanking(ds, persona, b)
    requires p < |a| && p <= |b| && a[..p] == b[..p]
    ensures p < |b| && a[p] == b[p]
  {
    assert a[p] in b;
    var m :| 0 <= m < |b| && b[m] == a[p];
    OutsidePrefix(a, b, p, m);
    assert b[p] in a;
    var n :| 0 <= n < |a| && a[n] == b[p];
    OutsidePrefix(b, a, p, n);
    if m != p && n != p {
      assert MayPrecede(ds, persona, b[p], b[m]) && MayPrecede(ds, persona, a[p], a[n]);
      NoTieBothWays(ds, persona, a[p], b[p]);
    }
  }

  lemma {:induction false} OnlyOneOrder(ds: seq<Donation>, persona: Uuid, a: seq<DonorTotal>, b: seq<DonorTotal>, k: nat)
    requires DistinctFirstTimes(ds, persona)
    requires FullRanking(ds, persona, a) && FullRanking(ds, persona, b)
    requires k <= |a|
    ensures k <= |b| && a[..k] == b[..k]
  {
    if k > 0 {
      var p := k - 1;
      OnlyOneOrder(ds, persona, a, b, p);
      SameNextRow(ds, persona, a, b, p);
      assert a[..k] == a[..p] + [a[p]] && b[..k] == b[..p] + [b[p]];
    }
  }

  /** `b[m]` is the row at `a[p]`, which does not repeat inside the shared prefix. */
  lemma {:induction false} OutsidePrefix(a: seq<DonorTotal>, b: seq<DonorTotal>, p: nat, m: nat)
    requires p < |a| && p <= |b| && a[..p] == b[..p] && m < |b| && b[m] == a[p]
    requires NoDonorTwice(a)
    ensures m >= p
  {
    assert forall i :: 0 <= i < p ==> a[..p][i] == a[i] && b[..p][i] == b[i];
  }

  /** With distinct first-donation times the ranking is unique, so a shorter one is the start of a
      longer one. */
  lemma {:induction false} ShorterRankingIsPrefix(ds: seq<Donation>, persona: Uuid, k: nat, m: nat, x: seq<DonorTotal>, y: seq<DonorTotal>)
    requires DistinctFirstTimes(ds, persona) && k <= m
    requires IsTop(ds, persona, k, x) && IsTop(ds, persona, m, y)
    ensures x <= y
    ensures |x| == k || x == y
  {
    var a :| FullRanking(ds, persona, a) && x == a[..if k < |a| then k else |a|];
    var b :| FullRanking(ds, persona, b) && y == b[..if m < |b| then m else |b|];
    OnlyOneOrder(ds, persona, a, b, |a|);
    OnlyOneOrder(ds, persona, b, a, |b|);
    assert a == a[..|a|] == b[..|a|] == b;
  }

  // ------------------------------------------------------------------ agreement with the ledger

  /** What the ranking shows for a donor; a donor not shown has donated nothing. */
  function RankedTotal(rows: seq<DonorTotal>, donor: Uuid): int {
    if rows == [] then 0
    else if rows[0].donor == donor then rows[0].total
    else RankedTotal(rows[1..], donor)
  }

  function RankedOver(ds: seq<Donation>, personas: seq<Uuid>, donor: Uuid): int {
    if personas == [] then 0
    else RankedOver(ds, personas[1..], donor)
         + RankedTotal(TopDonors(ds, personas[0], |ds|), donor)
  }

  function TotalOver(ds: seq<Donation>, personas: seq<Uuid>, donor: Uuid): int {
    if personas == [] then 0
    else TotalOver(ds, personas[1..], donor) + TotalOf(ds, personas[0], donor)
  }

  function DonationDeltas(lines: seq<CreditTransaction>, user: Uuid): int {
    if lines == [] then 0
    else var l := lines[|lines| - 1];
         DonationDeltas(lines[..|lines| - 1], user) + (if l.kind.Donated? && l.user == user then l.delta else 0)
  }

  function DonatedBy(ds: seq<Donation>, donor: Uuid): int {
    if ds == [] then 0
    else DonatedBy(ds[..|ds| - 1], donor) + (if ds[|ds| - 1].donor == Some(donor) then ds[|ds| - 1].amount else 0)
  }

  lemma {:induction false} NoDonationNoTotal(ds: seq<Donation>, persona: Uuid, donor: Uuid)
    requires !Donates(ds, persona, donor)
    ensures TotalOf(ds, persona, donor) == 0
  {
    if ds != [] {
      var front := ds[..|ds| - 1];
      forall i | 0 <= i < |front| ensures !Counts(front[i], persona, donor) {
        assert front[i] == ds[i];
      }
      NoDonationNoTotal(front, persona, donor);
    }
  }

  lemma {:induction false} RankedIsTotal(ds: seq<Donation>, persona: Uuid, rows: seq<DonorTotal>, donor: Uuid)
    requires forall i :: 0 <= i < |rows| ==> rows[i] == RowOf(ds, persona, rows[i].donor)
    requires Donates(ds, persona, donor) ==> RowOf(ds, persona, donor) in rows
    ensures RankedTotal(rows, donor) == TotalOf(ds, persona, donor)
  {
    if rows == [] {
      NoDonationNoTotal(ds, persona, donor);
    } else if rows[0].donor != donor {
      assert rows == [rows[0]] + rows[1..];
      RankedIsTotal(ds, persona, rows[1..], donor);
    }
  }

  lemma {:induction false} FewerDonorsThanDonations(ds: seq<Donation>, persona: Uuid)
    ensures |Donors(ds, persona)| <= |ds|
  {
    if ds != [] {
      FewerDonorsThanDonations(ds[..|ds| - 1], persona);
    }
  }

  lemma {:induction false} RankedOverIsTotalOver(ds: seq<Donation>, personas: seq<Uuid>, donor: Uuid)
    ensures RankedOver(ds, personas, donor) == TotalOver(ds, personas, donor)
  {
    if personas != [] {
      RankedOverIsTotalOver(ds, personas[1..], donor);
      UntruncatedIsTotal(ds, personas[0], donor);
    }
  }

  lemma {:induction false} UntruncatedIsAll(ds: seq<Donation>, p: Uuid)
    ensures TopDonors(ds, p, |ds|) == Sorted(ds, p, Donors(ds, p))
  {
    FewerDonorsThanDonations(ds, p);
    SortedRows(ds, p, Donors(ds, p));
  }

  lemma {:induction false} UntruncatedIsTotal(ds: seq<Donation>, p: Uuid, donor: Uuid)
    ensures RankedTotal(TopDonors(ds, p, |ds|), donor) == TotalOf(ds, p, donor)
  {
    var rows := Sorted(ds, p, Donors(ds, p));
    UntruncatedIsAll(ds, p);
    SortedRows(ds, p, Donors(ds, p));
    forall i | 0 <= i < |rows| ensures rows[i] == RowOf(ds, p, rows[i].donor) {
      assert rows[i] in rows;
    }
    DonorsAreTheDonors(ds, p);
    assert Donates(ds, p, donor) ==> IsRowFor(ds, p, Donors(ds, p), RowOf(ds, p, donor));
    RankedIsTotal(ds, p, rows, donor);
  }

  ghost predicate Lists(personas: seq<Uuid>, p: Uuid) {
    p in personas
  }

  /** Adding one donation adds its amount once, under the one persona it names. */
  lemma {:induction false} TotalOverAfter(ds: seq<Donation>, d: Donation, personas: seq<Uuid>, donor: Uuid)
    requires forall i, j :: 0 <= i < j < |personas| ==> personas[i] != personas[j]
    ensures TotalOver(ds + [d], personas, donor) ==
            TotalOver(ds, personas, donor) + (if d.donor == Some(donor) && Lists(personas, d.persona) then d.amount else 0)
  {
    if personas != [] {
      assert (ds + [d])[..|ds|] == ds;
      TotalOverAfter(ds, d, personas[1..], donor);
      assert personas == [personas[0]] + personas[1..];
      assert d.persona == personas[0] ==> !Lists(personas[1..], d.persona);
    }
  }

  lemma {:induction false} TotalOverNothing(personas: seq<Uuid>, donor: Uuid)
    ensures TotalOver([], personas, donor) == 0
  {
    if personas != [] {
      TotalOverNothing(personas[1..], donor);
    }
  }

  lemma {:induction false} TotalOverIsDonated(ds: seq<Donation>, personas: seq<Uuid>, donor: Uuid)
    requires forall i, j :: 0 <= i < j < |personas| ==> personas[i] != personas[j]
    requires forall d :: d in ds ==> Lists(personas, d.persona)
    ensures TotalOver(ds, personas, donor) == DonatedBy(ds, donor)
  {
    if ds == [] {
      TotalOverNothing(personas, donor);
    } else {
      var front, last := ds[..|ds| - 1], ds[|ds| - 1];
      assert ds == front + [last];
      TotalOverIsDonated(front, personas, donor);
      TotalOverAfter(front, last, personas, donor);
    }
  }

  function SpentBy(pairs: seq<(Option<string>, Uuid, int)>, user: Uuid): int {
    if pairs == [] then 0
    else SpentBy(pairs[..|pairs| - 1], user) + (if pairs[|pairs| - 1].1 == user then pairs[|pairs| - 1].2 else 0)
  }

  lemma {:induction false} SpentIsDeltas(lines: seq<CreditTransaction>, user: Uuid)
    ensures SpentBy(Spent(lines), user) == -DonationDeltas(lines, user)
  {
    if lines != [] {
      var front, l := lines[..|lines| - 1], lines[|lines| - 1];
      SpentIsDeltas(front, user);
      if l.kind.Donated? {
        assert Spent(lines)[..|Spent(front)|] == Spent(front);
      } else {
        assert Spent(lines) == Spent(front);
      }
    }
  }

  lemma {:induction false} SpentIsDonated(pairs: seq<(Option<string>, Uuid, int)>, ds: seq<Donation>, user: Uuid)
    requires |pairs| == |ds|
    requires forall i :: 0 <= i < |ds| ==>
               ds[i].donor.Some? && pairs[i] == (Some(ds[i].id), ds[i].donor.value, ds[i].amount)
    ensures SpentBy(pairs, user) == DonatedBy(ds, user)
  {
    if ds != [] {
      SpentIsDonated(pairs[..|pairs| - 1], ds[..|ds| - 1], user);
    }
  }

  /** After any run of grants, donations and failures, what the untruncated rankings show for a donor,
      summed over the personas, is exactly what the ledger took from that donor as DONATION. */
  lemma {:induction false} RankingAgreesWithLedger(rs: seq<Request>, personas: seq<Uuid>, donor: Uuid)
    requires LegalLog(rs)
    requires forall i, j :: 0 <= i < j < |personas| ==> personas[i] != personas[j]
    requires forall d :: d in ApplyAll(EMPTY, rs).donations ==> Lists(personas, d.persona)
    ensures var b := ApplyAll(EMPTY, rs);
            RankedOver(b.donations, personas, donor) == -DonationDeltas(b.lines, donor)
  {
    var b := ApplyAll(EMPTY, rs);
    RunsAreSound(rs);
    RankedOverIsTotalOver(b.donations, personas, donor);
    TotalOverIsDonated(b.donations, personas, donor);
    SpentIsDonated(Spent(b.lines), b.donations, donor);
    SpentIsDeltas(b.lines, donor);
  }
}
