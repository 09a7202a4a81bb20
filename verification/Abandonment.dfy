/** The expiring activity clock, the room's lifecycle, and closing rooms nobody attends. */
module RoomAbandonment {
  import opened Prelude

  const ACTIVITY_TTL: real := 3600.0

  /** What reading the key gives: the time since `last`, until the key expires. */
  function Elapsed(last: Option<real>, now: real): Option<real> {
    if last.None? || now >= last.value + ACTIVITY_TTL then None else Some(now - last.value)
  }

  function LastTouch(touches: seq<real>): Option<real> {
    if touches == [] then None else Some(touches[|touches| - 1])
  }

  class ActivityTracker {
    var value: Option<real>
    var expiresAt: real
    ghost var touches: seq<real>    // every moment of activity so far

    constructor ()
      ensures Valid() && value.None? && touches == []
    {
      value, expiresAt, touches := None, 0.0, [];
    }

    ghost predicate Valid()
      reads this
    {
      value == LastTouch(touches) && (value.Some? ==> expiresAt == value.value + ACTIVITY_TTL)
    }

    method Touch(now: real)
      requires Valid()
      modifies this
      ensures Valid() && value == Some(now) && touches == old(touches) + [now]
    {
      value, expiresAt := Some(now), now + ACTIVITY_TTL;
      touches := touches + [now];
    }

    method SecondsSinceLast(now: real) returns (elapsed: Option<real>)
      requires Valid()
      ensures elapsed == Elapsed(value, now)
    {
      if value.None? || now >= expiresAt {
        return None;
      }
      return Some(now - value.value);
    }

    method IsIdle(now: real, threshold: real) returns (idle: bool)
      requires Valid()
      ensures idle <==> Elapsed(value, now).None? || Elapsed(value, now).value >= threshold
    {
      var elapsed := SecondsSinceLast(now);
      idle := elapsed.None? || elapsed.value >= threshold;
    }
  }

  // ------------------------------------------------------------------ the room

  datatype RoomStatus = Pending | Live | Finished

  predicate Allowed(from: RoomStatus, to: RoomStatus) {
    match from
    case Pending => to.Live? || to.Finished?
    case Live => to.Finished?
    case Finished => false
  }

  datatype RoomView = RoomView(createdAt: real, status: RoomStatus, closedAt: Option<real>)

  /** The room after a request to move to `to`; a refused request changes nothing. */
  function Moved(r: RoomView, to: RoomStatus, now: real): RoomView {
    if !Allowed(r.status, to) then r
    else r.(status := to, closedAt := if to.Finished? then Some(now) else r.closedAt)
  }

  class Room {
    const createdAt: real
    var status: RoomStatus
    var closedAt: Option<real>

    constructor (now: real)
      ensures View() == RoomView(now, Pending, None)
    {
      createdAt := now;
      status, closedAt := Pending, None;
    }

    function View(): RoomView
      reads this
    {
      RoomView(createdAt, status, closedAt)
    }

    method TransitionTo(to: RoomStatus, now: real) returns (ok: bool)
      modifies this
      ensures ok == Allowed(old(status), to)
      ensures View() == Moved(old(View()), to, now)
    {
      if !Allowed(status, to) {
        return false;
      }
      status := to;
      if to.Finished? {
        closedAt := Some(now);
      }
      return true;
    }

    function SilentFor(elapsed: Option<real>, now: real): real {
      if elapsed.Some? then elapsed.value else now - createdAt
    }
  }

  function MovedAll(r: RoomView, moves: seq<(RoomStatus, real)>): RoomView {
    if moves == [] then r
    else Moved(MovedAll(r, moves[..|moves| - 1]), moves[|moves| - 1].0, moves[|moves| - 1].1)
  }

  function StatusRank(s: RoomStatus): nat {
    match s case Pending => 0 case Live => 1 case Finished => 2
  }

  /** The table of transitions is "forward only". */
  lemma {:induction false} AllowedIsForward(from: RoomStatus, to: RoomStatus)
    ensures Allowed(from, to) <==> StatusRank(from) < StatusRank(to)
  {
  }

  /** A room only moves forward, FINISHED is final, and its closing time is written once, at the move
      that finished it. */
  lemma {:induction false} RoomsOnlyMoveForward(r: RoomView, moves: seq<(RoomStatus, real)>)
    ensures var q := MovedAll(r, moves);
            && StatusRank(r.status) <= StatusRank(q.status)
            && (r.status.Finished? ==> q == r)
            && (!q.status.Finished? ==> q.closedAt == r.closedAt)
            && (q.status.Finished? && !r.status.Finished? ==>
                  q.closedAt.Some? && exists i :: 0 <= i < |moves| && moves[i] == (Finished, q.closedAt.value))
  {
    if moves != [] {
      var front := moves[..|moves| - 1];
      RoomsOnlyMoveForward(r, front);
      var m, q := MovedAll(r, front), MovedAll(r, moves);
      if m.status.Finished? && !r.status.Finished? {
        var i :| 0 <= i < |front| && front[i] == (Finished, m.closedAt.value);
        assert moves[i] == front[i];
      } else if q.status.Finished? && !r.status.Finished? {
        assert moves[|moves| - 1] == (Finished, q.closedAt.value);
      }
    }
  }

  // ------------------------------------------------------------------ saving

  /** A transition moves the copy it read and then overwrites the row's status and closing time. */
  function Saved(row: RoomView, copy: RoomView, to: RoomStatus, now: real): RoomView {
    if Allowed(copy.status, to) then
      var moved := Moved(copy, to, now);
      row.(status := moved.status, closedAt := moved.closedAt)
    else row
  }

  /** So FINISHED is final for one room object, and for the row exactly as long as no transition to LIVE is
      saved from a copy read while the room was still PENDING. */
  lemma {:induction false} FinishedReopensExactlyWhen(row: RoomView, copy: RoomView, to: RoomStatus, now: real)
    requires row.status.Finished?
    ensures !Saved(row, copy, to, now).status.Finished? <==> copy.status.Pending? && to.Live?
    ensures copy == row ==> Saved(row, copy, to, now) == row
  {
  }

  /** Two calls read a waiting room; one finishes it, and then the other puts it on air. */
  lemma {:induction false} FinishedRoomCanReopen()
    ensures var waiting := RoomView(0.0, Pending, None);
            var closed := Saved(waiting, waiting, Finished, 1.0);
            closed == RoomView(0.0, Finished, Some(1.0)) && Saved(closed, waiting, Live, 2.0) == RoomView(0.0, Live, None)
  {
  }

  // ------------------------------------------------------------------ closing

  /** The closer's condition, from what it reads. */
  predicate Abandons(viewers: nat, created: real, last: Option<real>, abandon: real, now: real) {
    && viewers == 0
    && (var e := Elapsed(last, now); if e.Some? then e.value else now - created) >= abandon
  }

  /** After any touches: with a threshold of at most an hour a room that is not finished is closed exactly
      when nobody watches it and neither its opening nor any touch is recent. */
  method CloseIfAbandoned(room: Room, tracker: ActivityTracker, viewers: nat, abandon: real, now: real)
    returns (closed: bool)
    requires tracker.Valid()
    modifies room
    ensures closed == (Abandons(viewers, room.createdAt, LastTouch(tracker.touches), abandon, now)
                       && !old(room.status).Finished?)
    ensures History(room.createdAt, tracker.touches, now) && abandon <= ACTIVITY_TTL ==>
              closed == (TrulyAbandoned(viewers, room.createdAt, tracker.touches, abandon, now) && !old(room.status).Finished?)
    ensures room.View() == if closed then old(room.View()).(status := Finished, closedAt := Some(now)) else old(room.View())
  {
    if History(room.createdAt, tracker.touches, now) && abandon <= ACTIVITY_TTL {
      ClosingIsExact(viewers, room.createdAt, tracker.touches, abandon, now);
    }
    if viewers > 0 {
      return false;
    }
    var elapsed := tracker.SecondsSinceLast(now);
    if room.SilentFor(elapsed, now) < abandon {
      return false;
    }
    closed := room.TransitionTo(Finished, now);
  }

  /** The moments of activity, oldest first, none before the opening and none in the future. */
  ghost predicate History(created: real, touches: seq<real>, now: real) {
    && created <= now
    && (forall i :: 0 <= i < |touches| ==> created <= touches[i] <= now)
    && (forall i, j :: 0 <= i < j < |touches| ==> touches[i] <= touches[j])
  }

  /** Nobody is watching, and neither the opening nor any activity is recent. */
  ghost predicate TrulyAbandoned(viewers: nat, created: real, touches: seq<real>, abandon: real, now: real) {
    && viewers == 0
    && now - created >= abandon
    && forall i :: 0 <= i < |touches| ==> now - touches[i] >= abandon
  }

  /** The closer is right exactly unless the key has expired while the last activity is still recent: over
      any history, for any threshold. */
  lemma {:induction false} ClosingIsExactUnlessTheKeyIsGone(
    viewers: nat, created: real, touches: seq<real>, abandon: real, now: real)
    requires History(created, touches, now)
    ensures var last := LastTouch(touches);
            (Abandons(viewers, created, last, abandon, now) <==> TrulyAbandoned(viewers, created, touches, abandon, now))
            <==> !(viewers == 0 && last.Some? && last.value + ACTIVITY_TTL <= now < last.value + abandon
                   && created + abandon <= now)
  {
    if touches != [] {
      var last := touches[|touches| - 1];
      assert forall i :: 0 <= i < |touches| ==> touches[i] <= last;
    }
  }

  /** With a threshold no longer than the key's life the closer is always right. */
  lemma {:induction false} ClosingIsExact(viewers: nat, created: real, touches: seq<real>, abandon: real, now: real)
    requires History(created, touches, now) && abandon <= ACTIVITY_TTL
    ensures Abandons(viewers, created, LastTouch(touches), abandon, now)
            <==> TrulyAbandoned(viewers, created, touches, abandon, now)
  {
    ClosingIsExactUnlessTheKeyIsGone(viewers, created, touches, abandon, now);
  }

  /** The room is idle exactly when no touch is as recent as the threshold, or as an hour if that is less. */
  lemma {:induction false} IdleExactlyWhen(created: real, touches: seq<real>, threshold: real, now: real)
    requires History(created, touches, now)
    ensures var e := Elapsed(LastTouch(touches), now);
            (e.None? || e.value >= threshold) <==>
              forall i :: 0 <= i < |touches| ==> now - touches[i] >= threshold || now - touches[i] >= 3600.0
  {
    if touches != [] {
      var last := touches[|touches| - 1];
      assert forall i :: 0 <= i < |touches| ==> touches[i] <= last;
    }
  }

  /** A two-hour threshold: the room opened long ago, somebody was active 4000 seconds ago, the key has
      expired since, and the closer closes. */
  lemma {:induction false} LongThresholdClosesAnActiveRoom()
    ensures var created, touches, now := 0.0, [6000.0], 10000.0;
            && History(created, touches, now)
            && Abandons(0, created, LastTouch(touches), 7200.0, now)
            && !TrulyAbandoned(0, created, touches, 7200.0, now)
  {
    var touches := [6000.0];
    assert 10000.0 - touches[0] < 7200.0;
  }
}
