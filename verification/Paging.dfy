/** The transcript and its newest-first pages: `list_recent` and the `room_messages` handler. */
module TranscriptPaging {
  import opened Prelude

  /** Ids grow with time, as UUIDv7 values do. */
  datatype Message = Message(id: nat, room: string, text: string)

  const MAX_PAGE_SIZE := 100

  class Transcript {
    var rows: seq<Message>

    constructor ()
      ensures rows == []
    {
      rows := [];
    }

    /** Ids are drawn from a growing clock, so a new message stays the newest. */
    method Append(m: Message)
      modifies this
      ensures rows == old(rows) + [m]
      ensures InIdOrder(old(rows)) && (forall r :: r in old(rows) ==> r.id < m.id) ==>
                InIdOrder(rows) && ListRecent(rows, m.room, 1, None) == [m]
    {
      ghost var before := rows;
      rows := rows + [m];
      AppendedIsNewest(before, m);
    }

    /** One page of a room, and the cursor of the next. */
    method Page(room: string, limit: int, before: Option<nat>) returns (a: Answer)
      ensures a == RoomMessages(rows, room, limit, before)
      ensures InIdOrder(rows) && 1 <= limit <= MAX_PAGE_SIZE ==> a.Page? && IsNewest(rows, room, before, a.messages, a.next)
    {
      assert InIdOrder(rows) && 1 <= limit <= MAX_PAGE_SIZE ==>
               (var r := RoomMessages(rows, room, limit, before); r.Page? && IsNewest(rows, room, before, r.messages, r.next))
      by {
        if InIdOrder(rows) && 1 <= limit <= MAX_PAGE_SIZE {
          PageIsTheNewest(rows, room, limit, before);
        }
      }
      var messages := ListRecent(rows, room, limit, before);
      if |messages| != limit {
        return Answer.Page(messages, None);
      }
      if messages == [] {
        return ServerError;
      }
      return Answer.Page(messages, Some(messages[|messages| - 1].id));
    }
  }

  // ------------------------------------------------------------------ the query

  predicate Wanted(m: Message, room: string, before: Option<nat>) {
    m.room == room && (before.Some? ==> m.id < before.value)
  }

  /** The WHERE clause; rows stand in id order. */
  function Matching(rows: seq<Message>, room: string, before: Option<nat>): seq<Message> {
    if rows == [] then []
    else
      var last := rows[|rows| - 1];
      Matching(rows[..|rows| - 1], room, before) + (if Wanted(last, room, before) then [last] else [])
  }

  /** ORDER BY id DESC. */
  function Reversed<T>(s: seq<T>): seq<T> {
    if s == [] then [] else [s[|s| - 1]] + Reversed(s[..|s| - 1])
  }

  function Capped(limit: int): nat {
    if limit < 1 then 1 else if limit > MAX_PAGE_SIZE then MAX_PAGE_SIZE else limit
  }

  function ListRecent(rows: seq<Message>, room: string, limit: int, before: Option<nat>): seq<Message> {
    var newest := Reversed(Matching(rows, room, before));
    newest[..if Capped(limit) < |newest| then Capped(limit) else |newest|]
  }

  /** The handler's answer. `messages[-1]` of an empty page raises. */
  datatype Answer = Page(messages: seq<Message>, next: Option<nat>) | ServerError

  function RoomMessages(rows: seq<Message>, room: string, limit: int, before: Option<nat>): Answer {
    var messages := ListRecent(rows, room, limit, before);
    if |messages| != limit then Page(messages, None)
    else if messages == [] then ServerError
    else Page(messages, Some(messages[|messages| - 1].id))
  }

  /** A page: newest first, of what was asked for, and whatever is missing lies below the cursor. */
  ghost predicate IsNewest(rows: seq<Message>, room: string, before: Option<nat>, page: seq<Message>, next: Option<nat>) {
    && (forall i, j :: 0 <= i < j < |page| ==> page[i].id > page[j].id)
    && (forall i :: 0 <= i < |page| ==> page[i] in rows && Wanted(page[i], room, before))
    && (forall m :: m in rows && Wanted(m, room, before) && m !in page ==> next.Some? && m.id < next.value)
  }

  // ------------------------------------------------------------------ facts about the query

  ghost predicate InIdOrder(rows: seq<Message>) {
    forall i, j :: 0 <= i < j < |rows| ==> rows[i].id < rows[j].id
  }

  lemma {:induction false} MatchingIsAFilter(rows: seq<Message>, room: string, before: Option<nat>)
    requires InIdOrder(rows)
    ensures InIdOrder(Matching(rows, room, before))
    ensures forall m :: m in Matching(rows, room, before) <==> m in rows && Wanted(m, room, before)
  {
    if rows != [] {
      var front := rows[..|rows| - 1];
      MatchingIsAFilter(front, room, before);
      assert rows == front + [rows[|rows| - 1]];
      forall i | 0 <= i < |Matching(front, room, before)|
        ensures Matching(front, room, before)[i].id < rows[|rows| - 1].id
      {
        assert Matching(front, room, before)[i] in front;
      }
    }
  }

  lemma {:induction false} ReversedAt<T>(s: seq<T>)
    ensures |Reversed(s)| == |s|
    ensures forall i :: 0 <= i < |s| ==> Reversed(s)[i] == s[|s| - 1 - i]
  {
    if s != [] {
      ReversedAt(s[..|s| - 1]);
    }
  }

  lemma {:induction false} AppendedIsNewest(rows: seq<Message>, m: Message)
    ensures ListRecent(rows + [m], m.room, 1, None) == [m]
  {
    assert (rows + [m])[..|rows|] == rows;
    var all := Matching(rows + [m], m.room, None);
    assert all == Matching(rows, m.room, None) + [m];
    ReversedAt(all);
  }

  /** The newest `n` come first, then the rest. */
  lemma {:induction false} ReversedSplits<T>(s: seq<T>, n: nat)
    requires n <= |s|
    ensures |Reversed(s)| == |s|
    ensures Reversed(s) == Reversed(s)[..n] + Reversed(s[..|s| - n])
  {
    ReversedAt(s);
    ReversedAt(s[..|s| - n]);
  }

  /** The last row does not show below an earlier one. */
  lemma {:induction false} BelowTheLast(rows: seq<Message>, room: string, m: Message)
    requires InIdOrder(rows) && rows != [] && m in rows[..|rows| - 1]
    ensures Matching(rows, room, Some(m.id)) == Matching(rows[..|rows| - 1], room, Some(m.id))
  {
    var i :| 0 <= i < |rows| - 1 && rows[i] == m;
    assert rows[i].id < rows[|rows| - 1].id;
  }

  lemma {:induction false} CutAtTheLast(rows: seq<Message>, room: string, before: Option<nat>)
    requires InIdOrder(rows) && rows != [] && Wanted(rows[|rows| - 1], room, before)
    ensures Matching(rows, room, Some(rows[|rows| - 1].id)) == Matching(rows[..|rows| - 1], room, before)
  {
    NothingCut(rows[..|rows| - 1], room, before, rows[|rows| - 1].id);
  }

  /** Restricting to ids below the k-th match leaves the matches before it. */
  lemma {:induction false} CutAt(rows: seq<Message>, room: string, before: Option<nat>, k: nat)
    requires InIdOrder(rows) && k < |Matching(rows, room, before)|
    ensures Matching(rows, room, Some(Matching(rows, room, before)[k].id)) == Matching(rows, room, before)[..k]
  {
    var all, front := Matching(rows, room, before), rows[..|rows| - 1];
    var some := Matching(front, room, before);
    assert some <= all;
    if k < |some| {
      CutAt(front, room, before, k);
      MatchInTable(front, room, before, k);
      BelowTheLast(rows, room, some[k]);
      assert all[..k] == some[..k];
    } else {
      CutAtTheLast(rows, room, before);
      assert all[..k] == some;
    }
  }

  lemma {:induction false} MatchInTable(rows: seq<Message>, room: string, before: Option<nat>, k: nat)
    requires InIdOrder(rows) && k < |Matching(rows, room, before)|
    ensures Matching(rows, room, before)[k] in rows
  {
    MatchingIsAFilter(rows, room, before);
  }

  lemma {:induction false} NothingCut(rows: seq<Message>, room: string, before: Option<nat>, id: nat)
    requires forall i :: 0 <= i < |rows| ==> rows[i].id < id
    requires before.Some? ==> id < before.value
    ensures Matching(rows, room, Some(id)) == Matching(rows, room, before)
  {
    if rows != [] {
      NothingCut(rows[..|rows| - 1], room, before, id);
    }
  }

  ghost predicate AtLeastFrom(rows: seq<Message>, n: nat, cursor: nat) {
    forall i :: n <= i < |rows| ==> rows[i].id >= cursor
  }

  /** Rows appended with larger ids do not show below an older cursor. */
  lemma {:induction false} AppendsStayAbove(rows: seq<Message>, more: seq<Message>, room: string, cursor: nat)
    requires rows <= more
    requires AtLeastFrom(more, |rows|, cursor)
    ensures Matching(more, room, Some(cursor)) == Matching(rows, room, Some(cursor))
  {
    if |more| == |rows| {
      assert more == rows;
    } else {
      AppendsStayAbove(rows, more[..|more| - 1], room, cursor);
    }
  }

  // ------------------------------------------------------------------ following the cursor

  /** `table(k)` is the transcript when the k-th page is asked for: it only grows, at the newest end. */
  ghost predicate GrowsAtTheEnd(table: nat -> seq<Message>) {
    && (forall k :: InIdOrder(table(k)))
    && (forall k, m :: k <= m ==> table(k) <= table(m))
  }

  /** The transcript at each request of a walk: `appended` is all that is ever appended, in id order, and
      `count(k)` how much of it is there at the k-th request. */
  function TableOf(appended: seq<Message>, count: nat -> nat): nat -> seq<Message> {
    (k: nat) => if count(k) < |appended| then appended[..count(k)] else appended
  }

  /** So whatever is appended between the pages, as long as ids grow, is a table that the walk allows. */
  lemma {:induction false} AppendsGrowAtTheEnd(appended: seq<Message>, count: nat -> nat)
    requires InIdOrder(appended) && forall k, m :: k <= m ==> count(k) <= count(m)
    ensures GrowsAtTheEnd(TableOf(appended, count))
  {
    var table := TableOf(appended, count);
    forall k, m | k <= m ensures table(k) <= table(m) {
      assert count(k) <= count(m);
    }
  }

  lemma {:induction false} PageEndsBelow(rows: seq<Message>, room: string, limit: int, before: Option<nat>)
    requires InIdOrder(rows)
    ensures var a := RoomMessages(rows, room, limit, before);
            a.Page? && a.next.Some? && before.Some? ==> a.next.value < before.value
  {
    MatchingIsAFilter(rows, room, before);
    var all := Matching(rows, room, before);
    ReversedAt(all);
    var page := ListRecent(rows, room, limit, before);
    if page != [] {
      assert page[|page| - 1] == all[|all| - |page|];
      assert all[|all| - |page|] in all;
    }
  }

  /** What a client collects from page `k` on, or nothing when the server fails. */
  ghost function Walk(table: nat -> seq<Message>, room: string, limit: int, k: nat, before: Option<nat>)
    : Option<seq<Message>>
    requires GrowsAtTheEnd(table)
    decreases before.None?, if before.Some? then before.value else 0
  {
    PageEndsBelow(table(k), room, limit, before);
    match RoomMessages(table(k), room, limit, before)
    case ServerError => None
    case Page(messages, next) =>
      if next.None? then Some(messages)
      else match Walk(table, room, limit, k + 1, next)
           case None => None
           case Some(rest) => Some(messages + rest)
  }

  /** One page and what is left below it. */
  lemma {:induction false} PageAndRest(rows: seq<Message>, room: string, limit: int, before: Option<nat>)
    requires InIdOrder(rows) && 1 <= limit <= MAX_PAGE_SIZE
    ensures var all := Matching(rows, room, before);
            var a := RoomMessages(rows, room, limit, before);
            && a.Page?
            && (a.next.None? ==> a.messages == Reversed(all))
            && (a.next.Some? ==>
                  && limit <= |all|
                  && a.messages + Reversed(all[..|all| - limit]) == Reversed(all)
                  && a.next == Some(all[|all| - limit].id)
                  && Matching(rows, room, a.next) == all[..|all| - limit])
  {
    var all := Matching(rows, room, before);
    ReversedAt(all);
    if limit <= |all| {
      ReversedSplits(all, limit);
      assert ListRecent(rows, room, limit, before) == Reversed(all)[..limit];
      CutAt(rows, room, before, |all| - limit);
    } else {
      assert ListRecent(rows, room, limit, before) == Reversed(all);
    }
  }

  lemma {:induction false} EndOfMatches(all: seq<Message>, p: nat)
    requires InIdOrder(all) && p <= |all|
    ensures |Reversed(all)| == |all|
    ensures var page := Reversed(all)[..p];
            && (forall i :: 0 <= i < p ==> page[i] == all[|all| - 1 - i] && page[i] in all)
            && (forall i, j :: 0 <= i < j < p ==> page[i].id > page[j].id)
            && (forall m :: m in all && m !in page ==> p < |all| && (p > 0 ==> m.id < page[p - 1].id))
  {
    ReversedAt(all);
    var page := Reversed(all)[..p];
    forall m | m in all && m !in page ensures p < |all| && (p > 0 ==> m.id < page[p - 1].id) {
      var k :| 0 <= k < |all| && all[k] == m;
      NotOnThePage(all, page, k);
    }
  }

  lemma {:induction false} PageIsEndOfMatches(rows: seq<Message>, room: string, limit: int, before: Option<nat>)
    requires 1 <= limit <= MAX_PAGE_SIZE
    ensures var all, a := Matching(rows, room, before), RoomMessages(rows, room, limit, before);
            var p := if limit < |all| then limit else |all|;
            && |Reversed(all)| == |all| && a.Page? && a.messages == Reversed(all)[..p]
            && (p < |all| ==> p > 0 && a.next == Some(a.messages[p - 1].id))
  {
    ReversedAt(Matching(rows, room, before));
  }

  lemma {:induction false} PageIsTheNewest(rows: seq<Message>, room: string, limit: int, before: Option<nat>)
    requires InIdOrder(rows) && 1 <= limit <= MAX_PAGE_SIZE
    ensures var a := RoomMessages(rows, room, limit, before);
            a.Page? && IsNewest(rows, room, before, a.messages, a.next)
  {
    var all, a := Matching(rows, room, before), RoomMessages(rows, room, limit, before);
    MatchingIsAFilter(rows, room, before);
    PageIsEndOfMatches(rows, room, limit, before);
    EndOfMatches(all, if limit < |all| then limit else |all|);
    NewestOf(rows, room, before, all, a.messages, a.next);
  }

  lemma {:induction false} NewestOf(
    rows: seq<Message>, room: string, before: Option<nat>, all: seq<Message>, page: seq<Message>, next: Option<nat>)
    requires forall m :: m in all <==> m in rows && Wanted(m, room, before)
    requires forall i, j :: 0 <= i < j < |page| ==> page[i].id > page[j].id
    requires forall i :: 0 <= i < |page| ==> page[i] in all
    requires forall m :: m in all && m !in page ==> next.Some? && m.id < next.value
    ensures IsNewest(rows, room, before, page, next)
  {
  }

  lemma {:induction false} NotOnThePage(all: seq<Message>, page: seq<Message>, k: nat)
    requires |page| <= |all| && forall i :: 0 <= i < |page| ==> page[i] == all[|all| - 1 - i]
    requires k < |all| && all[k] !in page
    ensures k < |all| - |page|
  {
    var i := |all| - 1 - k;
    assert i < |page| ==> page[i] == all[k];
  }

  /** The same, with the rest read from the table as it is at the next request. */
  lemma {:induction false} PageAndRestLater(table: nat -> seq<Message>, room: string, limit: int, k: nat, before: Option<nat>)
    requires GrowsAtTheEnd(table) && 1 <= limit <= MAX_PAGE_SIZE
    ensures var all := Reversed(Matching(table(k), room, before));
            var a := RoomMessages(table(k), room, limit, before);
            && a.Page?
            && (a.next.None? ==> a.messages == all)
            && (a.next.Some? ==> a.messages + Reversed(Matching(table(k + 1), room, a.next)) == all)
            && (a.next.Some? && before.Some? ==> a.next.value < before.value)
  {
    var rows := table(k);
    assert InIdOrder(rows);
    PageEndsBelow(rows, room, limit, before);
    PageAndRest(rows, room, limit, before);
    var a := RoomMessages(rows, room, limit, before);
    if a.next.Some? {
      NewerRowsAreAbove(table, room, before, k, |Matching(rows, room, before)| - limit);
      AppendsStayAbove(rows, table(k + 1), room, a.next.value);
    }
  }

  lemma {:induction false} WalkCollects(table: nat -> seq<Message>, room: string, limit: int, k: nat, before: Option<nat>)
    requires GrowsAtTheEnd(table) && 1 <= limit <= MAX_PAGE_SIZE
    ensures Walk(table, room, limit, k, before) == Some(Reversed(Matching(table(k), room, before)))
    decreases before.None?, if before.Some? then before.value else 0
  {
    var a := RoomMessages(table(k), room, limit, before);
    PageAndRestLater(table, room, limit, k, before);
    if a.next.Some? {
      WalkCollects(table, room, limit, k + 1, a.next);
    }
  }

  lemma {:induction false} NewerRowsAreAbove(table: nat -> seq<Message>, room: string, before: Option<nat>, k: nat, n: nat)
    requires GrowsAtTheEnd(table) && n < |Matching(table(k), room, before)|
    ensures table(k) <= table(k + 1)
    ensures AtLeastFrom(table(k + 1), |table(k)|, Matching(table(k), room, before)[n].id)
  {
    var all := Matching(table(k), room, before);
    assert InIdOrder(table(k)) && InIdOrder(table(k + 1));
    MatchingIsAFilter(table(k), room, before);
    assert all[n] in all;
    var j :| 0 <= j < |table(k)| && table(k)[j] == all[n];
    assert table(k) <= table(k + 1);
    assert table(k + 1)[j] == all[n];
  }

  /** For page sizes 1 to 100, and whatever is appended between the pages, following the cursor ends and
      yields exactly the room's messages present at the first request, newest first, each once. */
  lemma {:induction false} PagesAreTheWholeRoom(table: nat -> seq<Message>, room: string, limit: int)
    requires GrowsAtTheEnd(table) && 1 <= limit <= MAX_PAGE_SIZE
    ensures var got := Walk(table, room, limit, 0, None);
            && got.Some?
            && (forall m :: m in got.value <==> m in table(0) && m.room == room)
            && (forall i, j :: 0 <= i < j < |got.value| ==> got.value[i].id > got.value[j].id)
  {
    assert InIdOrder(table(0));
    WalkCollects(table, room, limit, 0, None);
    var all := Matching(table(0), room, None);
    MatchingIsAFilter(table(0), room, None);
    ReversedAt(all);
    var got := Reversed(all);
    forall m ensures m in got <==> m in all {
      if m in all {
        var i :| 0 <= i < |all| && all[i] == m;
        assert got[|all| - 1 - i] == m;
      }
    }
  }

  /** What a client gets for the other page sizes: the one page that the clamped size gives, without a
      cursor, or nothing for 0 on an empty room. */
  lemma {:induction false} OtherSizesGiveOnePage(table: nat -> seq<Message>, room: string, limit: int)
    requires GrowsAtTheEnd(table) && !(1 <= limit <= MAX_PAGE_SIZE)
    ensures var all := Reversed(Matching(table(0), room, None));
            var n := if limit > MAX_PAGE_SIZE then MAX_PAGE_SIZE else 1;
            Walk(table, room, limit, 0, None) ==
              if limit == 0 && all == [] then None else Some(all[..if n < |all| then n else |all|])
  {
    PageEndsBelow(table(0), room, limit, None);
  }

  lemma {:induction false} SameLengthOnly(all: seq<Message>, n: nat)
    ensures all[..if n < |all| then n else |all|] == all <==> |all| <= n
  {
    assert n < |all| ==> |all[..n]| == n;
  }

  /** Exactly when a client gets the whole room: any page size from 1 to 100, or a room that fits the one
      page the other sizes serve. Zero on an empty room fails outright. */
  lemma {:induction false} WholeRoomExactlyWhen(table: nat -> seq<Message>, room: string, limit: int)
    requires GrowsAtTheEnd(table)
    ensures var n := |Matching(table(0), room, None)|;
            Walk(table, room, limit, 0, None) == Some(Reversed(Matching(table(0), room, None)))
            <==> || 1 <= limit <= MAX_PAGE_SIZE
                 || (limit > MAX_PAGE_SIZE && n <= MAX_PAGE_SIZE)
                 || (limit == 0 && n == 1)
                 || (limit < 0 && n <= 1)
  {
    ReversedAt(Matching(table(0), room, None));
    if 1 <= limit <= MAX_PAGE_SIZE {
      WalkCollects(table, room, limit, 0, None);
    } else {
      OtherSizesGiveOnePage(table, room, limit);
      SameLengthOnly(Reversed(Matching(table(0), room, None)), if limit > MAX_PAGE_SIZE then MAX_PAGE_SIZE else 1);
    }
  }

  // ------------------------------------------------------------------ rooms that show it

  function OneRoom(n: nat): seq<Message> {
    if n == 0 then [] else OneRoom(n - 1) + [Message(n - 1, "r", "")]
  }

  lemma {:induction false} OneRoomHas(n: nat)
    ensures |OneRoom(n)| == n && forall i :: 0 <= i < n ==> OneRoom(n)[i] == Message(i, "r", "")
  {
    if n > 0 {
      OneRoomHas(n - 1);
    }
  }

  lemma {:induction false} OneRoomMatches(n: nat)
    ensures Matching(OneRoom(n), "r", None) == OneRoom(n)
  {
    if n > 0 {
      OneRoomMatches(n - 1);
      assert OneRoom(n)[..|OneRoom(n)| - 1] == OneRoom(n - 1);
    }
  }

  /** A room of 101 messages asked for in pages of 101: the client gets 100, is told that this is the end,
      and never sees the oldest. */
  lemma {:induction false} PagesOf101LoseAMessage()
    ensures var table := (k: nat) => OneRoom(101);
            && GrowsAtTheEnd(table)
            && var got := Walk(table, "r", 101, 0, None);
               got.Some? && |got.value| == 100 && OneRoom(101)[0] in table(0) && OneRoom(101)[0] !in got.value
  {
    var table, all := (k: nat) => OneRoom(101), OneRoom(101);
    OneRoomHas(101);
    OneRoomMatches(101);
    assert table(0) == all;
    OtherSizesGiveOnePage(table, "r", 101);
    ReversedAt(all);
    forall i | 0 <= i < 100 ensures Reversed(all)[..100][i].id > 0 {
    }
  }

  /** Page size 0 on an empty room is an error. */
  lemma {:induction false} ZeroOnAnEmptyRoomFails()
    ensures var table := (k: nat) => [];
            GrowsAtTheEnd(table) && Walk(table, "r", 0, 0, None) == None
  {
    var table: nat -> seq<Message> := (k: nat) => [];
    assert Matching(table(0), "r", None) == [];
    OtherSizesGiveOnePage(table, "r", 0);
  }
}
