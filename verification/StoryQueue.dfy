/** The story queue of the community context: `SqlModelStoryRepository`. */
module StoryQueue {
  import opened Prelude

  datatype StoryStatus = Pending | Reading | Done

  /** A row; its number is its id, and rows stand in creation order. */
  datatype Story = Story(persona: string, status: StoryStatus)

  /** The oldest row of the persona that is waiting and not locked, from `i` on, or the number of rows. */
  function FirstPending(rows: seq<Story>, persona: string, locked: set<nat>, i: nat): (k: nat)
    requires i <= |rows|
    ensures i <= k <= |rows|
    ensures forall j :: i <= j < k ==> !(rows[j].persona == persona && rows[j].status.Pending? && j !in locked)
    ensures k < |rows| ==> rows[k].persona == persona && rows[k].status.Pending? && k !in locked
    decreases |rows| - i
  {
    if i == |rows| then i
    else if rows[i].persona == persona && rows[i].status.Pending? && i !in locked then i
    else FirstPending(rows, persona, locked, i + 1)
  }

  function WithStatus(rows: seq<Story>, i: nat, status: StoryStatus): seq<Story> {
    if i < |rows| then rows[i := rows[i].(status := status)] else rows
  }

  /** `release`: only a story being read goes back to the queue. */
  function Requeued(rows: seq<Story>, i: nat): seq<Story> {
    if i < |rows| && rows[i].status.Reading? then WithStatus(rows, i, Pending) else rows
  }

  class StoryRepository {
    var rows: seq<Story>

    constructor ()
      ensures rows == []
    {
      rows := [];
    }

    method Add(persona: string)
      modifies this
      ensures rows == old(rows) + [Story(persona, Pending)]
    {
      rows := rows + [Story(persona, Pending)];
    }

    method ClaimNextPending(persona: string) returns (id: Option<nat>)
      modifies this
      ensures var k := FirstPending(old(rows), persona, {}, 0);
              if k == |old(rows)| then id.None? && rows == old(rows)
              else id == Some(k) && rows == WithStatus(old(rows), k, Reading)
    {
      var k := FirstPending(rows, persona, {}, 0);
      if k == |rows| {
        return None;
      }
      rows := rows[k := rows[k].(status := Reading)];
      return Some(k);
    }

    method MarkDone(id: nat)
      modifies this
      ensures rows == WithStatus(old(rows), id, Done)
    {
      if id >= |rows| || rows[id].status.Done? {
        return;
      }
      rows := rows[id := rows[id].(status := Done)];
    }

    method Release(id: nat)
      modifies this
      ensures rows == Requeued(old(rows), id)
    {
      if id >= |rows| || !rows[id].status.Reading? {
        return;
      }
      rows := rows[id := rows[id].(status := Pending)];
    }
  }

  /** A claim that is given back leaves the queue as it was. */
  lemma {:induction false} ReleaseUndoesClaim(rows: seq<Story>, persona: string)
    ensures var k := FirstPending(rows, persona, {}, 0);
            Requeued(WithStatus(rows, k, Reading), k) == rows
  {
    var k := FirstPending(rows, persona, {}, 0);
    if k < |rows| {
      assert Requeued(WithStatus(rows, k, Reading), k)[k] == rows[k];
    }
  }
}

/** Any number of `advance` calls over one story table, with failures and deaths anywhere. */
module StoryRuns {
  import opened Prelude
  import opened StoryQueue

  /** `row` is the story a call has in hand. */
  datatype Call =
    | Outside
    | Entered(persona: string)                 // holds the room's lock
    | Selected(persona: string, row: nat)      // row locked by SELECT .. FOR UPDATE SKIP LOCKED
    | Claimed(persona: string, row: nat)       // READING committed
    | Requested(persona: string, row: nat)     // generation request published
    | Failing(persona: string, row: nat)       // will give the story back
    | Leaving(persona: string)

  /** `requested` counts the requests sent for each row, `undone` the calls that failed after theirs was
      sent; `abandoned` are rows left READING by a call that ended without giving them back. A persona has
      one live room, so its lock is that room's. */
  datatype Sys = Sys(
    rows: seq<Story>, calls: seq<Call>, locks: set<string>,
    requested: multiset<nat>, undone: multiset<nat>, abandoned: set<nat>)

  /** A mark that commits and still raises leaves the same rows as one that goes through: the release that
      follows finds DONE. */
  datatype Step =
    | Join
    | Submit(persona: string)
    | Enter(call: nat, persona: string)
    | Select(call: nat)
    | CommitClaim(call: nat, heard: bool)      // committed, and the call may still raise
    | Publish(call: nat, publish: Remote)
    | MarkDone(call: nat, ok: bool)
    | GiveBack(call: nat, ok: bool)
    | NoStory(call: nat)                       // a comment, self-talk, or nothing to say
    | Leave(call: nat)
    | Die(call: nat)
    | LockExpires(persona: string)

  const INIT: Sys := Sys([], [], {}, multiset{}, multiset{}, {})

  predicate HasRow(c: Call) { c.Selected? || Reads(c) }

  predicate Reads(c: Call) { c.Claimed? || c.Requested? || c.Failing? }

  function Locked(calls: seq<Call>): set<nat> {
    set c | c in calls && c.Selected? :: c.row
  }

  function Put(s: Sys, c: nat, x: Call): Sys
    requires c < |s.calls|
  {
    s.(calls := s.calls[c := x])
  }

  function Next(s: Sys, step: Step): Sys {
    match step
    case Join => s.(calls := s.calls + [Outside])
    case Submit(persona) => s.(rows := s.rows + [Story(persona, Pending)])
    case Enter(c, persona) =>
      if c < |s.calls| && s.calls[c].Outside? && persona !in s.locks then
        Put(s, c, Entered(persona)).(locks := s.locks + {persona})
      else s
    case Select(c) =>
      if c < |s.calls| && s.calls[c].Entered? then
        var persona := s.calls[c].persona;
        var k := FirstPending(s.rows, persona, Locked(s.calls), 0);
        Put(s, c, if k < |s.rows| then Selected(persona, k) else Leaving(persona))
      else s
    case CommitClaim(c, heard) =>
      if c < |s.calls| && s.calls[c].Selected? then
        var x := s.calls[c];
        var t := s.(rows := WithStatus(s.rows, x.row, Reading));
        if heard then Put(t, c, Claimed(x.persona, x.row))
        else Put(t, c, Leaving(x.persona)).(abandoned := s.abandoned + {x.row})
      else s
    case Publish(c, publish) =>
      if c < |s.calls| && s.calls[c].Claimed? then
        var x := s.calls[c];
        match publish
        case Fine => Put(s, c, Requested(x.persona, x.row)).(requested := s.requested + multiset{x.row})
        case Down => Put(s, c, Failing(x.persona, x.row))
        case Unheard =>
          Put(s, c, Failing(x.persona, x.row)).(
            requested := s.requested + multiset{x.row}, undone := s.undone + multiset{x.row})
      else s
    case MarkDone(c, ok) =>
      if c < |s.calls| && s.calls[c].Requested? then
        var x := s.calls[c];
        if ok then Put(s, c, Leaving(x.persona)).(rows := WithStatus(s.rows, x.row, Done))
        else Put(s, c, Failing(x.persona, x.row)).(undone := s.undone + multiset{x.row})
      else s
    case GiveBack(c, ok) =>
      if c < |s.calls| && s.calls[c].Failing? then
        var x := s.calls[c];
        if ok then Put(s, c, Leaving(x.persona)).(rows := Requeued(s.rows, x.row))
        else Put(s, c, Leaving(x.persona)).(abandoned := s.abandoned + {x.row})
      else s
    case NoStory(c) =>
      if c < |s.calls| && s.calls[c].Entered? then Put(s, c, Leaving(s.calls[c].persona)) else s
    case Leave(c) =>
      if c < |s.calls| && s.calls[c].Leaving? then
        Put(s, c, Outside).(locks := s.locks - {s.calls[c].persona})
      else s
    case Die(c) =>
      if c < |s.calls| then
        var x := s.calls[c];
        Put(s, c, Outside).(
          abandoned := if Reads(x) then s.abandoned + {x.row} else s.abandoned,
          undone := if x.Requested? then s.undone + multiset{x.row} else s.undone)
      else s
    case LockExpires(persona) => s.(locks := s.locks - {persona})
  }

  function After(steps: seq<Step>): Sys {
    if steps == [] then INIT else Next(After(steps[..|steps| - 1]), steps[|steps| - 1])
  }

  lemma {:induction false} AfterOneMore(steps: seq<Step>, step: Step)
    ensures After(steps + [step]) == Next(After(steps), step)
  {
    assert (steps + [step])[..|steps|] == steps;
  }

  // ------------------------------------------------------------------ without any assumption

  ghost predicate CallOk(s: Sys, x: Call) {
    HasRow(x) ==>
      && x.row < |s.rows| && s.rows[x.row].persona == x.persona && x.row !in s.abandoned
      && (x.Selected? <==> s.rows[x.row].status.Pending?)
      && (Reads(x) <==> s.rows[x.row].status.Reading?)
  }

  ghost predicate Apart(x: Call, y: Call) {
    HasRow(x) && HasRow(y) ==> x.row != y.row
  }

  ghost predicate InHand(s: Sys, i: nat) {
    exists c :: 0 <= c < |s.calls| && Reads(s.calls[c]) && s.calls[c].row == i
  }

  ghost predicate InRequest(s: Sys, i: nat) {
    exists c :: 0 <= c < |s.calls| && s.calls[c].Requested? && s.calls[c].row == i
  }

  ghost predicate RowOk(s: Sys, i: nat)
    requires i < |s.rows|
  {
    && (s.rows[i].status.Reading? ==> InHand(s, i) || i in s.abandoned)
    && (i in s.abandoned ==> s.rows[i].status.Reading?)
    && s.requested[i] == s.undone[i] + (if s.rows[i].status.Done? || InRequest(s, i) then 1 else 0)
  }

  ghost predicate Inv(s: Sys) {
    && (forall c :: 0 <= c < |s.calls| ==> CallOk(s, s.calls[c]))
    && (forall c, d :: 0 <= c < |s.calls| && 0 <= d < |s.calls| && c != d ==> Apart(s.calls[c], s.calls[d]))
    && (forall i :: 0 <= i < |s.rows| ==> RowOk(s, i))
    && (forall i :: i in s.requested || i in s.undone || i in s.abandoned ==> i < |s.rows|)
  }

  /** The row a call has in hand, or none of the rows. */
  function HandOf(s: Sys, c: nat): nat
    requires c < |s.calls|
  {
    if HasRow(s.calls[c]) then s.calls[c].row else |s.rows|
  }

  /** Nothing about row `i` is different. */
  predicate SameRow(s: Sys, t: Sys, i: nat)
    requires i < |s.rows| && |t.rows| == |s.rows|
  {
    && t.rows[i] == s.rows[i] && t.requested[i] == s.requested[i] && t.undone[i] == s.undone[i]
    && (i in t.abandoned <==> i in s.abandoned)
  }

  /** One call moves, and the row it has in hand or takes is the only one that changes. */
  ghost predicate OneMoves(s: Sys, t: Sys, c: nat)
    requires c < |s.calls|
  {
    && |t.calls| == |s.calls| && |t.rows| == |s.rows|
    && (forall d :: 0 <= d < |s.calls| && d != c ==> t.calls[d] == s.calls[d])
    && (forall i :: 0 <= i < |s.rows| && i != HandOf(s, c) ==> SameRow(s, t, i))
    && (forall i :: i in t.requested || i in t.undone || i in t.abandoned ==> i < |t.rows|)
    && (HasRow(s.calls[c]) && HasRow(t.calls[c]) ==> t.calls[c].row == s.calls[c].row)
    && (!HasRow(s.calls[c]) ==> !Reads(t.calls[c]))
  }

  lemma {:induction false} HandsOfOthers(s: Sys, t: Sys, c: nat, i: nat)
    requires c < |s.calls| && OneMoves(s, t, c) && i < |s.rows| && i != HandOf(s, c)
    ensures InHand(t, i) <==> InHand(s, i)
    ensures InRequest(t, i) <==> InRequest(s, i)
  {
    forall d | 0 <= d < |s.calls| && Reads(s.calls[d]) && s.calls[d].row == i ensures t.calls[d] == s.calls[d] {
    }
    forall d | 0 <= d < |t.calls| && Reads(t.calls[d]) && t.calls[d].row == i ensures t.calls[d] == s.calls[d] {
    }
  }

  lemma {:induction false} MoveKeeps(s: Sys, t: Sys, c: nat)
    requires Inv(s) && c < |s.calls| && OneMoves(s, t, c)
    requires CallOk(t, t.calls[c])
    requires !HasRow(s.calls[c]) && HasRow(t.calls[c]) ==>
               forall d :: 0 <= d < |s.calls| && d != c ==> Apart(t.calls[c], s.calls[d])
    requires HandOf(s, c) < |t.rows| ==> RowOk(t, HandOf(s, c))
    ensures Inv(t)
  {
    forall d | 0 <= d < |t.calls| ensures CallOk(t, t.calls[d]) {
      if d != c {
        assert CallOk(s, s.calls[d]) && Apart(s.calls[c], s.calls[d]);
        if HasRow(s.calls[d]) {
          assert SameRow(s, t, s.calls[d].row);
        }
      }
    }
    forall d, e | 0 <= d < |t.calls| && 0 <= e < |t.calls| && d != e ensures Apart(t.calls[d], t.calls[e]) {
      assert Apart(s.calls[d], s.calls[e]);
    }
    forall i | 0 <= i < |t.rows| ensures RowOk(t, i) {
      assert RowOk(s, i);
      if i != HandOf(s, c) {
        HandsOfOthers(s, t, c, i);
        assert SameRow(s, t, i);
      }
    }
  }

  lemma {:induction false} SelectKeeps(s: Sys, c: nat)
    requires Inv(s) && c < |s.calls| && s.calls[c].Entered?
    ensures Inv(Next(s, Select(c)))
  {
    var t := Next(s, Select(c));
    forall d | 0 <= d < |s.calls| && d != c ensures Apart(t.calls[c], s.calls[d]) {
      assert CallOk(s, s.calls[d]);
      assert s.calls[d] in s.calls;
    }
    forall i | 0 <= i < |s.rows| ensures RowOk(s, i) && (i in s.abandoned ==> s.rows[i].status.Reading?) {
    }
    MoveKeeps(s, t, c);
  }

  lemma {:induction false} NothingInHandChanges(s: Sys, t: Sys)
    requires Inv(s) && s.calls <= t.calls && s.rows <= t.rows
    requires t.requested == s.requested && t.undone == s.undone && t.abandoned == s.abandoned
    requires forall c :: |s.calls| <= c < |t.calls| ==> t.calls[c].Outside?
    requires forall i :: |s.rows| <= i < |t.rows| ==> t.rows[i].status.Pending?
    ensures Inv(t)
  {
    forall c | 0 <= c < |t.calls| ensures CallOk(t, t.calls[c]) {
      assert c < |s.calls| ==> CallOk(s, s.calls[c]);
    }
    forall c, d | 0 <= c < |t.calls| && 0 <= d < |t.calls| && c != d ensures Apart(t.calls[c], t.calls[d]) {
      assert c < |s.calls| && d < |s.calls| ==> Apart(s.calls[c], s.calls[d]);
    }
    forall i | 0 <= i < |t.rows| ensures RowOk(t, i) {
      SameHands(s, t, i);
      if i < |s.rows| {
        assert RowOk(s, i);
      } else {
        NoHandBeyond(s, i);
      }
    }
  }

  lemma {:induction false} SameHands(s: Sys, t: Sys, i: nat)
    requires s.calls <= t.calls && forall c :: |s.calls| <= c < |t.calls| ==> t.calls[c].Outside?
    ensures InHand(t, i) <==> InHand(s, i)
    ensures InRequest(t, i) <==> InRequest(s, i)
  {
    forall c | 0 <= c < |s.calls| ensures t.calls[c] == s.calls[c] {
    }
  }

  lemma {:induction false} NoHandBeyond(s: Sys, i: nat)
    requires Inv(s) && i >= |s.rows|
    ensures !InHand(s, i) && !InRequest(s, i)
  {
    forall c | 0 <= c < |s.calls| ensures HasRow(s.calls[c]) ==> s.calls[c].row < i {
      assert CallOk(s, s.calls[c]);
    }
  }

  /** A step of a call on the row in its hand. */
  lemma {:induction false} HandStepKeeps(s: Sys, t: Sys, c: nat)
    requires Inv(s) && c < |s.calls| && HasRow(s.calls[c]) && OneMoves(s, t, c)
    requires CallOk(t, t.calls[c])
    requires var i := s.calls[c].row;
             i < |t.rows| ==>
               && (t.rows[i].status.Reading? ==> Reads(t.calls[c]) || i in t.abandoned)
               && (i in t.abandoned ==> t.rows[i].status.Reading?)
               && t.requested[i] + s.undone[i] + Heard(s.calls[c]) ==
                  s.requested[i] + t.undone[i] + (if t.rows[i].status.Done? then 1 else Heard(t.calls[c]))
    ensures Inv(t)
  {
    var i := s.calls[c].row;
    assert CallOk(s, s.calls[c]) && RowOk(s, i);
    OnlyHand(s, c);
    assert InRequest(t, i) <==> t.calls[c].Requested? by {
      forall d | 0 <= d < |t.calls| && d != c ensures !(t.calls[d].Requested? && t.calls[d].row == i) {
        assert Apart(s.calls[c], s.calls[d]);
      }
    }
    if Reads(t.calls[c]) {
      assert InHand(t, i);
    }
    MoveKeeps(s, t, c);
  }

  function Heard(x: Call): nat { if x.Requested? then 1 else 0 }

  lemma {:induction false} OnlyHand(s: Sys, c: nat)
    requires Inv(s) && c < |s.calls| && HasRow(s.calls[c])
    ensures InRequest(s, s.calls[c].row) <==> s.calls[c].Requested?
  {
    forall d | 0 <= d < |s.calls| && d != c ensures !(s.calls[d].Requested? && s.calls[d].row == s.calls[c].row) {
      assert Apart(s.calls[c], s.calls[d]);
    }
  }

  lemma {:induction false} ClaimKeeps(s: Sys, c: nat, heard: bool)
    requires Inv(s) && c < |s.calls| && s.calls[c].Selected?
    ensures Inv(Next(s, CommitClaim(c, heard)))
  {
    assert CallOk(s, s.calls[c]) && RowOk(s, s.calls[c].row);
    HandStepKeeps(s, Next(s, CommitClaim(c, heard)), c);
  }

  lemma {:induction false} PublishKeeps(s: Sys, c: nat, publish: Remote)
    requires Inv(s) && c < |s.calls| && s.calls[c].Claimed?
    ensures Inv(Next(s, Publish(c, publish)))
  {
    assert CallOk(s, s.calls[c]) && RowOk(s, s.calls[c].row);
    HandStepKeeps(s, Next(s, Publish(c, publish)), c);
  }

  lemma {:induction false} MarkKeeps(s: Sys, c: nat, ok: bool)
    requires Inv(s) && c < |s.calls| && s.calls[c].Requested?
    ensures Inv(Next(s, MarkDone(c, ok)))
  {
    assert CallOk(s, s.calls[c]) && RowOk(s, s.calls[c].row);
    HandStepKeeps(s, Next(s, MarkDone(c, ok)), c);
  }

  lemma {:induction false} GiveBackKeeps(s: Sys, c: nat, ok: bool)
    requires Inv(s) && c < |s.calls| && s.calls[c].Failing?
    ensures Inv(Next(s, GiveBack(c, ok)))
  {
    assert CallOk(s, s.calls[c]) && RowOk(s, s.calls[c].row);
    HandStepKeeps(s, Next(s, GiveBack(c, ok)), c);
  }

  lemma {:induction false} DieKeeps(s: Sys, c: nat)
    requires Inv(s) && c < |s.calls|
    ensures Inv(Next(s, Die(c)))
  {
    var t := Next(s, Die(c));
    if HasRow(s.calls[c]) {
      assert CallOk(s, s.calls[c]) && RowOk(s, s.calls[c].row);
      HandStepKeeps(s, t, c);
    } else {
      MoveKeeps(s, t, c);
    }
  }

  lemma {:induction false} NextKeeps(s: Sys, step: Step)
    requires Inv(s)
    ensures Inv(Next(s, step))
  {
    var t := Next(s, step);
    match step
    case Join => NothingInHandChanges(s, t);
    case Submit(_) => NothingInHandChanges(s, t);
    case LockExpires(_) => NothingInHandChanges(s, t);
    case Select(c) => if c < |s.calls| && s.calls[c].Entered? { SelectKeeps(s, c); }
    case Enter(c, _) => if t != s { MoveKeeps(s, t, c); }
    case NoStory(c) => if t != s { MoveKeeps(s, t, c); }
    case Leave(c) => if t != s { MoveKeeps(s, t, c); }
    case Die(c) => if c < |s.calls| { DieKeeps(s, c); }
    case CommitClaim(c, heard) => if c < |s.calls| && s.calls[c].Selected? { ClaimKeeps(s, c, heard); }
    case Publish(c, publish) => if c < |s.calls| && s.calls[c].Claimed? { PublishKeeps(s, c, publish); }
    case MarkDone(c, ok) => if c < |s.calls| && s.calls[c].Requested? { MarkKeeps(s, c, ok); }
    case GiveBack(c, ok) => if c < |s.calls| && s.calls[c].Failing? { GiveBackKeeps(s, c, ok); }
  }

  lemma {:induction false} AlwaysInv(steps: seq<Step>)
    ensures Inv(After(steps))
  {
    if steps != [] {
      AlwaysInv(steps[..|steps| - 1]);
      NextKeeps(After(steps[..|steps| - 1]), steps[|steps| - 1]);
    }
  }

  /** In every run, whatever fails, dies or expires: two calls never have the same story in hand; a story
      is READING exactly when one call has it in hand or a call ended without giving it back, never both;
      and a story that is DONE had its request sent. */
  lemma {:induction false} ClaimsAreExclusive(steps: seq<Step>)
    ensures var s := After(steps);
            && (forall c, d :: 0 <= c < |s.calls| && 0 <= d < |s.calls| && c != d ==> Apart(s.calls[c], s.calls[d]))
            && (forall i :: 0 <= i < |s.rows| && s.rows[i].status.Done? ==> i in s.requested)
            && (forall i :: 0 <= i < |s.rows| ==>
                  (s.rows[i].status.Reading? <==> InHand(s, i) || i in s.abandoned) && !(InHand(s, i) && i in s.abandoned))
  {
    var s := After(steps);
    AlwaysInv(steps);
    forall i | 0 <= i < |s.rows|
      ensures s.rows[i].status.Done? ==> i in s.requested
      ensures (s.rows[i].status.Reading? <==> InHand(s, i) || i in s.abandoned) && !(InHand(s, i) && i in s.abandoned)
    {
      assert RowOk(s, i);
      if InHand(s, i) {
        var c :| 0 <= c < |s.calls| && Reads(s.calls[c]) && s.calls[c].row == i;
        assert CallOk(s, s.calls[c]);
      }
    }
  }

  // ------------------------------------------------------------------ how often a story is read

  /** Every request sent for a story is one whose call failed afterwards, except the one that made it DONE
      or is about to. */
  lemma {:induction false} RequestsAreCounted(steps: seq<Step>, i: nat)
    requires i < |After(steps).rows|
    ensures var s := After(steps);
            s.requested[i] == s.undone[i] + (if s.rows[i].status.Done? || InRequest(s, i) then 1 else 0)
  {
    AlwaysInv(steps);
    assert RowOk(After(steps), i);
  }

  /** A story that waits was already requested exactly when a call failed after sending its request. */
  lemma {:induction false} WaitingAgainExactlyWhen(steps: seq<Step>, i: nat)
    requires i < |After(steps).rows| && After(steps).rows[i].status.Pending?
    ensures i in After(steps).requested <==> i in After(steps).undone
  {
    var s := After(steps);
    AlwaysInv(steps);
    assert RowOk(s, i);
    forall c | 0 <= c < |s.calls| ensures !(s.calls[c].Requested? && s.calls[c].row == i) {
      assert CallOk(s, s.calls[c]);
    }
  }

  /** A call is about to send a story's request. */
  predicate Sends(s: Sys, step: Step) {
    step.Publish? && step.call < |s.calls| && s.calls[step.call].Claimed? && !step.publish.Down?
  }

  /** The same, for a story whose earlier request was sent by a call that failed afterwards. */
  predicate SendsAgain(s: Sys, step: Step) {
    Sends(s, step) && s.calls[step.call].row in s.undone
  }

  lemma {:induction false} ClaimedWasRequestedExactlyWhen(s: Sys, c: nat)
    requires Inv(s) && c < |s.calls| && s.calls[c].Claimed?
    ensures s.calls[c].row in s.requested <==> s.calls[c].row in s.undone
  {
    assert CallOk(s, s.calls[c]) && RowOk(s, s.calls[c].row);
    OnlyHand(s, c);
  }

  ghost predicate AtMostOnce(m: multiset<nat>) {
    forall i :: m[i] <= 1
  }

  lemma {:induction false} OneMoreStep(s: Sys, step: Step)
    requires Inv(s)
    ensures AtMostOnce(Next(s, step).requested) <==> AtMostOnce(s.requested) && !SendsAgain(s, step)
  {
    var t := Next(s, step);
    if Sends(s, step) {
      var i := s.calls[step.call].row;
      ClaimedWasRequestedExactlyWhen(s, step.call);
      assert t.requested == s.requested + multiset{i};
      assert t.requested[i] == s.requested[i] + 1;
      assert forall j :: j != i ==> t.requested[j] == s.requested[j];
    } else {
      assert t.requested == s.requested;
    }
  }

  predicate SendsAgainAt(steps: seq<Step>, k: nat)
    requires k < |steps|
  {
    SendsAgain(After(steps[..k]), steps[k])
  }

  ghost predicate NeverSendsAgain(steps: seq<Step>) {
    forall k :: 0 <= k < |steps| ==> !SendsAgainAt(steps, k)
  }

  lemma {:induction false} SameBefore(steps: seq<Step>, n: nat, k: nat)
    requires k < n <= |steps|
    ensures SendsAgainAt(steps[..n], k) <==> SendsAgainAt(steps, k)
  {
    assert steps[..n][..k] == steps[..k];
  }

  lemma {:induction false} NeverSendsAgainSplits(steps: seq<Step>)
    requires steps != []
    ensures var n := |steps| - 1;
            NeverSendsAgain(steps) <==> NeverSendsAgain(steps[..n]) && !SendsAgainAt(steps, n)
  {
    var n := |steps| - 1;
    forall k | 0 <= k < n ensures SendsAgainAt(steps[..n], k) <==> SendsAgainAt(steps, k) {
      SameBefore(steps, n, k);
    }
  }

  /** Every story is requested at most once in a run exactly when no request is sent for a story whose
      earlier one was sent by a call that then failed: raised, lost its mark, or died. */
  lemma {:induction false} ReadOnceExactlyWhen(steps: seq<Step>)
    ensures AtMostOnce(After(steps).requested) <==> NeverSendsAgain(steps)
  {
    if steps != [] {
      var n := |steps| - 1;
      ReadOnceExactlyWhen(steps[..n]);
      AlwaysInv(steps[..n]);
      OneMoreStep(After(steps[..n]), steps[n]);
      NeverSendsAgainSplits(steps);
    }
  }

  predicate FailsLate(step: Step) {
    step.Die? || (step.MarkDone? && !step.ok) || (step.Publish? && step.publish.Unheard?)
  }

  /** When no publish raises after sending, no mark fails and no call dies, every story is read at most
      once, however often publishing itself fails. */
  lemma {:induction false} WithoutLateFailuresReadOnce(steps: seq<Step>)
    requires forall k :: 0 <= k < |steps| ==> !FailsLate(steps[k])
    ensures After(steps).undone == multiset{} && AtMostOnce(After(steps).requested)
  {
    if steps != [] {
      var n := |steps| - 1;
      WithoutLateFailuresReadOnce(steps[..n]);
      AlwaysInv(steps[..n]);
      OneMoreStep(After(steps[..n]), steps[n]);
      assert !FailsLate(steps[n]);
    }
  }

  /** The only call, inside, with the only story. */
  predicate Ready(s: Sys) {
    s.rows == [Story("p", Pending)] && s.calls == [Entered("p")]
  }

  /** Nobody dies and no lock expires. */
  ghost predicate Calm(steps: seq<Step>) {
    forall k :: 0 <= k < |steps| ==> !steps[k].Die? && !steps[k].LockExpires?
  }

  lemma {:induction false} OneMore(steps: seq<Step>, step: Step) returns (more: seq<Step>)
    ensures After(more) == Next(After(steps), step) && more == steps + [step]
  {
    more := steps + [step];
    AfterOneMore(steps, step);
  }

  /** The system after one step more, the run being still calm. */
  lemma {:induction false} Onwards(steps: seq<Step>, s: Sys, step: Step) returns (more: seq<Step>)
    requires After(steps) == s && Calm(steps) && !step.Die? && !step.LockExpires?
    ensures After(more) == Next(s, step) && Calm(more)
  {
    more := steps + [step];
    AfterOneMore(steps, step);
  }

  lemma {:induction false} GetReady() returns (steps: seq<Step>)
    ensures Ready(After(steps)) && After(steps).requested == multiset{} && Calm(steps)
  {
    steps := Onwards([], INIT, Join);
    steps := Onwards(steps, Next(INIT, Join), Submit("p"));
    steps := Onwards(steps, Next(Next(INIT, Join), Submit("p")), Enter(0, "p"));
  }

  /** The system while the call has the story in hand. */
  predicate With(s: Sys, status: StoryStatus, call: Call) {
    s.rows == [Story("p", status)] && s.calls == [call]
  }

  lemma {:induction false} SelectsTheStory(s: Sys)
    requires Ready(s)
    ensures With(Next(s, Select(0)), Pending, Selected("p", 0)) && Next(s, Select(0)).requested == s.requested
  {
    assert FirstPending(s.rows, "p", Locked(s.calls), 0) == 0;
  }

  lemma {:induction false} ClaimsTheStory(s: Sys)
    requires With(s, Pending, Selected("p", 0))
    ensures var t := Next(s, CommitClaim(0, true));
            With(t, Reading, Claimed("p", 0)) && t.requested == s.requested
  {
  }

  lemma {:induction false} RequestsTheStory(s: Sys)
    requires With(s, Reading, Claimed("p", 0))
    ensures var t := Next(s, Publish(0, Fine));
            With(t, Reading, Requested("p", 0)) && t.requested == s.requested + multiset{0}
  {
  }

  lemma {:induction false} MarksTheStory(s: Sys, ok: bool)
    requires With(s, Reading, Requested("p", 0))
    ensures var t := Next(s, MarkDone(0, ok));
            t.requested == s.requested && (!ok ==> With(t, Reading, Failing("p", 0)))
  {
  }

  lemma {:induction false} GivesBackTheStory(s: Sys)
    requires With(s, Reading, Failing("p", 0))
    ensures var t := Next(s, GiveBack(0, true));
            With(t, Pending, Leaving("p")) && t.requested == s.requested
  {
  }

  lemma {:induction false} ComesBackIn(s: Sys)
    requires With(s, Pending, Leaving("p"))
    ensures var t := Next(Next(s, Leave(0)), Enter(0, "p"));
            Ready(t) && t.requested == s.requested
  {
  }

  /** The call claims the story, its request goes out, and its mark succeeds or not. */
  lemma {:induction false} ReadByCall(steps: seq<Step>, ok: bool) returns (more: seq<Step>)
    requires Ready(After(steps)) && Calm(steps)
    ensures After(more).requested == After(steps).requested + multiset{0} && Calm(more)
    ensures !ok ==> With(After(more), Reading, Failing("p", 0))
  {
    SelectsTheStory(After(steps));
    more := Onwards(steps, After(steps), Select(0));
    ClaimsTheStory(After(more));
    more := Onwards(more, After(more), CommitClaim(0, true));
    RequestsTheStory(After(more));
    more := Onwards(more, After(more), Publish(0, Fine));
    MarksTheStory(After(more), ok);
    more := Onwards(more, After(more), MarkDone(0, ok));
  }

  lemma {:induction false} BackInside(steps: seq<Step>) returns (more: seq<Step>)
    requires With(After(steps), Reading, Failing("p", 0)) && Calm(steps)
    ensures Ready(After(more)) && After(more).requested == After(steps).requested && Calm(more)
  {
    GivesBackTheStory(After(steps));
    more := Onwards(steps, After(steps), GiveBack(0, true));
    ComesBackIn(After(more));
    more := Onwards(more, After(more), Leave(0));
    more := Onwards(more, After(more), Enter(0, "p"));
  }

  /** A run in which one story is requested twice: its first request went out, the mark failed, and the
      story was given back and claimed again. Nobody died and no lock expired. */
  lemma {:induction false} StoryCanBeReadTwice() returns (steps: seq<Step>)
    ensures After(steps).requested == multiset{0, 0} && Calm(steps)
  {
    steps := GetReady();
    steps := ReadByCall(steps, false);
    steps := BackInside(steps);
    steps := ReadByCall(steps, true);
  }

  // ------------------------------------------------------------------ one call per persona

  ghost predicate ForDifferentPersonas(x: Call, y: Call) {
    !x.Outside? && !y.Outside? ==> x.persona != y.persona
  }

  ghost predicate OneInFlight(s: Sys) {
    forall c, d :: 0 <= c < |s.calls| && 0 <= d < |s.calls| && c != d ==> ForDifferentPersonas(s.calls[c], s.calls[d])
  }

  function Rank(status: StoryStatus): nat {
    match status
    case Done => 2
    case Reading => 1
    case Pending => 0
  }

  ghost predicate InOrder(x: Story, y: Story) {
    x.persona == y.persona ==> Rank(x.status) >= Rank(y.status) && !(x.status.Reading? && y.status.Reading?)
  }

  /** By creation time a persona's stories, the abandoned ones aside, are DONE, then at most one READING,
      then PENDING. */
  ghost predicate Ordered(rows: seq<Story>, abandoned: set<nat>) {
    forall i, j :: 0 <= i < j < |rows| && i !in abandoned && j !in abandoned ==> InOrder(rows[i], rows[j])
  }

  /** Everything older of the same persona has been read, or is abandoned. */
  ghost predicate OlderAreDone(rows: seq<Story>, abandoned: set<nat>, persona: string, k: nat) {
    forall i :: 0 <= i < k && i < |rows| && rows[i].persona == persona && i !in abandoned ==> rows[i].status.Done?
  }

  ghost predicate HandsAreFirst(s: Sys) {
    forall c :: 0 <= c < |s.calls| && HasRow(s.calls[c]) ==>
      OlderAreDone(s.rows, s.abandoned, s.calls[c].persona, s.calls[c].row)
  }

  lemma {:induction false} NobodyElseReads(s: Sys, c: nat)
    requires Inv(s) && OneInFlight(s) && c < |s.calls| && s.calls[c].Entered?
    ensures forall i :: 0 <= i < |s.rows| && s.rows[i].persona == s.calls[c].persona && i !in s.abandoned ==>
              !s.rows[i].status.Reading?
    ensures forall i :: i in Locked(s.calls) && i < |s.rows| ==> s.rows[i].persona != s.calls[c].persona
  {
    forall i | 0 <= i < |s.rows| && s.rows[i].persona == s.calls[c].persona && i !in s.abandoned
      ensures !s.rows[i].status.Reading?
    {
      assert RowOk(s, i);
      HandIsElsewhere(s, c, i);
    }
    forall i | i in Locked(s.calls) && i < |s.rows| ensures s.rows[i].persona != s.calls[c].persona {
      var x :| x in s.calls && x.Selected? && x.row == i;
      var d :| 0 <= d < |s.calls| && s.calls[d] == x;
      assert CallOk(s, s.calls[d]) && ForDifferentPersonas(s.calls[d], s.calls[c]);
    }
  }

  lemma {:induction false} HandIsElsewhere(s: Sys, c: nat, i: nat)
    requires Inv(s) && OneInFlight(s) && c < |s.calls| && s.calls[c].Entered? && i < |s.rows|
    ensures InHand(s, i) ==> s.rows[i].persona != s.calls[c].persona
  {
    if InHand(s, i) {
      var d :| 0 <= d < |s.calls| && Reads(s.calls[d]) && s.calls[d].row == i;
      assert CallOk(s, s.calls[d]) && ForDifferentPersonas(s.calls[d], s.calls[c]);
    }
  }

  /** Changing the status of the row in hand keeps the order when everything older is done and nothing
      newer of the persona has been touched. */
  lemma {:induction false} HandKeepsOrder(rows: seq<Story>, abandoned: set<nat>, k: nat, status: StoryStatus)
    requires Ordered(rows, abandoned) && k < |rows| && k !in abandoned && !rows[k].status.Done?
    requires OlderAreDone(rows, abandoned, rows[k].persona, k)
    ensures Ordered(WithStatus(rows, k, status), abandoned)
  {
    var after := WithStatus(rows, k, status);
    forall i, j | 0 <= i < j < |after| && i !in abandoned && j !in abandoned ensures InOrder(after[i], after[j]) {
      assert InOrder(rows[i], rows[j]);
    }
  }

  ghost predicate OrderInv(s: Sys) {
    Inv(s) && OneInFlight(s) && Ordered(s.rows, s.abandoned) && HandsAreFirst(s)
  }

  lemma {:induction false} OrderOfHand(s: Sys, t: Sys, c: nat, status: StoryStatus)
    requires OrderInv(s) && c < |s.calls| && HasRow(s.calls[c])
    requires t.rows == s.rows || t.rows == WithStatus(s.rows, s.calls[c].row, status)
    requires s.abandoned <= t.abandoned
    requires |t.calls| == |s.calls| && forall d :: 0 <= d < |s.calls| && d != c ==> t.calls[d] == s.calls[d]
    requires HasRow(t.calls[c]) ==> t.calls[c].persona == s.calls[c].persona && t.calls[c].row == s.calls[c].row
    ensures Ordered(t.rows, t.abandoned) && HandsAreFirst(t)
  {
    assert CallOk(s, s.calls[c]);
    HandKeepsOrder(s.rows, s.abandoned, s.calls[c].row, status);
    forall d | 0 <= d < |t.calls| && HasRow(t.calls[d])
      ensures OlderAreDone(t.rows, t.abandoned, t.calls[d].persona, t.calls[d].row)
    {
      assert OlderAreDone(s.rows, s.abandoned, s.calls[d].persona, s.calls[d].row);
      assert d != c ==> ForDifferentPersonas(s.calls[d], s.calls[c]);
    }
  }

  lemma {:induction false} OrderOfSelect(s: Sys, c: nat)
    requires OrderInv(s) && c < |s.calls| && s.calls[c].Entered?
    ensures HandsAreFirst(Next(s, Select(c)))
  {
    var t := Next(s, Select(c));
    NobodyElseReads(s, c);
    forall d | 0 <= d < |t.calls| && HasRow(t.calls[d])
      ensures OlderAreDone(t.rows, t.abandoned, t.calls[d].persona, t.calls[d].row)
    {
      if d != c {
        assert OlderAreDone(s.rows, s.abandoned, s.calls[d].persona, s.calls[d].row);
      }
    }
  }

  lemma {:induction false} OrderOfReader(s: Sys, step: Step, c: nat)
    requires OrderInv(s) && c < |s.calls| && HasRow(s.calls[c])
    requires (step.CommitClaim? && step.call == c) || (step.Publish? && step.call == c)
             || (step.MarkDone? && step.call == c) || step == Die(c)
    ensures Ordered(Next(s, step).rows, Next(s, step).abandoned) && HandsAreFirst(Next(s, step))
  {
    OrderOfHand(s, Next(s, step), c, if step.MarkDone? then Done else Reading);
  }

  lemma {:induction false} OrderOfNewcomers(s: Sys, step: Step)
    requires OrderInv(s)
    requires step.Join? || step.Submit? || step.Enter? || step.NoStory? || step.Leave? || step.LockExpires?
             || (step.Die? && (step.call < |s.calls| ==> !HasRow(s.calls[step.call])))
    ensures Ordered(Next(s, step).rows, Next(s, step).abandoned) && HandsAreFirst(Next(s, step))
  {
    var t := Next(s, step);
    forall c | 0 <= c < |t.calls| && HasRow(t.calls[c])
      ensures OlderAreDone(t.rows, t.abandoned, t.calls[c].persona, t.calls[c].row)
    {
      assert c < |s.calls| && t.calls[c] == s.calls[c];
      assert CallOk(s, s.calls[c]);
      assert OlderAreDone(s.rows, s.abandoned, s.calls[c].persona, s.calls[c].row);
    }
  }

  lemma {:induction false} OrderStep(s: Sys, step: Step)
    requires OrderInv(s)
    ensures Ordered(Next(s, step).rows, Next(s, step).abandoned) && HandsAreFirst(Next(s, step))
  {
    var t := Next(s, step);
    match step
    case CommitClaim(c, _) => if t != s { OrderOfReader(s, step, c); }
    case MarkDone(c, _) => if t != s { OrderOfReader(s, step, c); }
    case Publish(c, _) => if t != s { OrderOfReader(s, step, c); }
    case Die(c) => if c < |s.calls| && HasRow(s.calls[c]) { OrderOfReader(s, step, c); } else { OrderOfNewcomers(s, step); }
    case GiveBack(c, _) => if t != s { OrderOfGiveBack(s, t, c); }
    case Select(c) => if t != s { OrderOfSelect(s, c); }
    case _ => OrderOfNewcomers(s, step);
  }

  lemma {:induction false} OrderOfGiveBack(s: Sys, t: Sys, c: nat)
    requires OrderInv(s) && c < |s.calls| && s.calls[c].Failing?
    requires t == Next(s, GiveBack(c, true)) || t == Next(s, GiveBack(c, false))
    ensures Ordered(t.rows, t.abandoned) && HandsAreFirst(t)
  {
    assert CallOk(s, s.calls[c]);
    OrderOfHand(s, t, c, Pending);
  }

  /** With at most one `advance` in flight per persona at every moment of the run, and any failures, a
      persona's stories are always DONE, then at most one READING, then PENDING, apart from stories a call
      left READING when it ended; with none of those, without exception. */
  lemma {:induction false} QueueStaysInOrder(steps: seq<Step>)
    requires forall k :: 0 <= k <= |steps| ==> OneInFlight(After(steps[..k]))
    ensures Ordered(After(steps).rows, After(steps).abandoned) && HandsAreFirst(After(steps))
    ensures After(steps).abandoned == {} ==>
              forall i, j :: 0 <= i < j < |After(steps).rows| ==> InOrder(After(steps).rows[i], After(steps).rows[j])
  {
    if steps != [] {
      var n := |steps| - 1;
      forall k | 0 <= k <= n ensures OneInFlight(After(steps[..n][..k])) {
        assert steps[..n][..k] == steps[..k];
      }
      QueueStaysInOrder(steps[..n]);
      AlwaysInv(steps[..n]);
      assert OneInFlight(After(steps[..n]));
      OrderStep(After(steps[..n]), steps[n]);
    }
  }

  // ------------------------------------------------------------------ what the lock gives

  ghost predicate Covered(s: Sys, x: Call) {
    !x.Outside? ==> x.persona in s.locks
  }

  /** Every call in flight holds its room's lock, one call per room. */
  ghost predicate LocksCover(s: Sys) {
    OneInFlight(s) && forall c :: 0 <= c < |s.calls| ==> Covered(s, s.calls[c])
  }

  /** A lock runs out under the call that holds it. */
  ghost predicate ExpiresInFlight(s: Sys, step: Step) {
    step.LockExpires? && exists c :: 0 <= c < |s.calls| && !s.calls[c].Outside? && s.calls[c].persona == step.persona
  }

  lemma {:induction false} LockStep(s: Sys, step: Step)
    requires LocksCover(s)
    ensures LocksCover(Next(s, step)) <==> !ExpiresInFlight(s, step)
  {
    var t := Next(s, step);
    if ExpiresInFlight(s, step) {
      var c :| 0 <= c < |s.calls| && !s.calls[c].Outside? && s.calls[c].persona == step.persona;
      assert !Covered(t, t.calls[c]);
    } else {
      forall c | 0 <= c < |t.calls| ensures Covered(t, t.calls[c]) {
        if c < |s.calls| {
          assert Covered(s, s.calls[c]);
          assert step.Leave? && step.call < |s.calls| && step.call != c ==>
                   ForDifferentPersonas(s.calls[step.call], s.calls[c]);
        }
      }
      forall c, d | 0 <= c < |t.calls| && 0 <= d < |t.calls| && c != d
        ensures ForDifferentPersonas(t.calls[c], t.calls[d])
      {
        if c < |s.calls| && d < |s.calls| {
          assert ForDifferentPersonas(s.calls[c], s.calls[d]) && Covered(s, s.calls[c]) && Covered(s, s.calls[d]);
        }
      }
    }
  }

  /** At every moment of the run. */
  ghost predicate AlwaysCovered(steps: seq<Step>) {
    LocksCover(After(steps)) && (steps != [] ==> AlwaysCovered(steps[..|steps| - 1]))
  }

  /** At no step of the run. */
  ghost predicate NeverExpiresInFlight(steps: seq<Step>) {
    steps != [] ==>
      var n := |steps| - 1;
      NeverExpiresInFlight(steps[..n]) && !ExpiresInFlight(After(steps[..n]), steps[n])
  }

  /** Through a run every call in flight holds its room's lock, and no room has two, exactly when no lock
      expires under the call that holds it. */
  lemma {:induction false} LockExcludesExactlyWhen(steps: seq<Step>)
    ensures AlwaysCovered(steps) <==> NeverExpiresInFlight(steps)
  {
    if steps != [] {
      var n := |steps| - 1;
      LockExcludesExactlyWhen(steps[..n]);
      if AlwaysCovered(steps[..n]) {
        LockStep(After(steps[..n]), steps[n]);
      }
    }
  }

  lemma {:induction false} CoveredBefore(steps: seq<Step>, k: nat)
    requires AlwaysCovered(steps) && k <= |steps|
    ensures OneInFlight(After(steps[..k]))
  {
    if k == |steps| {
      assert steps[..k] == steps;
    } else {
      CoveredBefore(steps[..|steps| - 1], k);
      assert steps[..|steps| - 1][..k] == steps[..k];
    }
  }

  /** So the token-less room lock is enough as long as no lock expires under its call. */
  lemma {:induction false} LockKeepsQueueInOrder(steps: seq<Step>)
    requires NeverExpiresInFlight(steps)
    ensures Ordered(After(steps).rows, After(steps).abandoned)
  {
    LockExcludesExactlyWhen(steps);
    forall k | 0 <= k <= |steps| ensures OneInFlight(After(steps[..k])) {
      CoveredBefore(steps, k);
    }
    QueueStaysInOrder(steps);
  }

  /** A run in which a lock expires too early and two calls are in one room. */
  lemma {:induction false} ExpiryLetsTwoIn() returns (steps: seq<Step>)
    ensures After(steps).calls == [Entered("p"), Entered("p")] && !OneInFlight(After(steps))
  {
    steps := OneMore([], Join);
    steps := OneMore(steps, Join);
    assert After(steps) == INIT.(calls := [Outside, Outside]);
    steps := OneMore(steps, Enter(0, "p"));
    assert After(steps) == INIT.(calls := [Entered("p"), Outside], locks := {"p"});
    steps := OneMore(steps, LockExpires("p"));
    assert After(steps) == INIT.(calls := [Entered("p"), Outside]);
    steps := OneMore(steps, Enter(1, "p"));
    assert !ForDifferentPersonas(After(steps).calls[0], After(steps).calls[1]);
  }
}
