/** The response slot: what it holds and what taking and releasing it mean. */
module ResponseSlots {
  import opened Prelude

  datatype ChatSource = Superchat | Chat | Story | Idle | System

  function PriorityOf(s: ChatSource): (p: nat)
    ensures p <= 3
  {
    match s
    case Superchat => 3
    case Chat => 2
    case Story => 1
    case Idle => 1
    case System => 0
  }

  /** Who interrupts whom, written out. */
  const PREEMPTS: set<(ChatSource, ChatSource)> := {
    (Superchat, Chat), (Superchat, Story), (Superchat, Idle), (Superchat, System),
    (Chat, Story), (Chat, Idle), (Chat, System),
    (Story, System), (Idle, System)}

  datatype Slot = Slot(source: ChatSource, token: string)

  /** The stored value, read back. */
  datatype Held = Held(priority: nat, token: string)

  predicate Holds(v: Option<Held>, token: string) {
    v.Some? && v.value.token == token
  }

  /** Free, or held with a strictly lower priority. */
  predicate CanTake(v: Option<Held>, source: ChatSource) {
    v.None? || v.value.priority < PriorityOf(source)
  }

  function HeldBy(slot: Slot): Held { Held(PriorityOf(slot.source), slot.token) }

  function Taken(v: Option<Held>, slot: Slot): Option<Held> {
    if CanTake(v, slot.source) then Some(HeldBy(slot)) else v
  }

  function Freed(v: Option<Held>, token: string): Option<Held> {
    if Holds(v, token) then None else v
  }

  /** A room held by one source is taken by another exactly for these pairs, and a free room by all. */
  lemma {:induction false} PreemptsExactlyWhen(holder: ChatSource, token: string, source: ChatSource)
    ensures CanTake(Some(HeldBy(Slot(holder, token))), source) <==> (source, holder) in PREEMPTS
    ensures CanTake(None, source)
  {
  }

  // ------------------------------------------------------------------ the stored text

  function SourceName(s: ChatSource): string {
    match s
    case Superchat => "superchat"
    case Chat => "chat"
    case Story => "story"
    case Idle => "idle"
    case System => "system"
  }

  function Digit(n: nat): string
    requires n < 10
  {
    ["0", "1", "2", "3", "4", "5", "6", "7", "8", "9"][n]
  }

  function Encode(slot: Slot): string {
    Digit(PriorityOf(slot.source)) + ":" + slot.token + ":" + SourceName(slot.source)
  }

  lemma {:induction false} SourceNamesDiffer(a: ChatSource, b: ChatSource)
    ensures SourceName(a) == SourceName(b) <==> a == b
  {
    assert |"superchat"| == 9 && |"chat"| == 4 && |"story"| == 5 && "idle"[0] == 'i' && "system"[1] == 'y';
  }

  /** The part before the first colon, and the part after it. */
  function Head(s: string): string {
    if s == "" || s[0] == ':' then "" else [s[0]] + Head(s[1..])
  }

  function Tail(s: string): string {
    if s == "" then "" else if s[0] == ':' then s[1..] else Tail(s[1..])
  }

  function ParseNat(s: string): nat {
    if s == "" then 0
    else ParseNat(s[..|s| - 1]) * 10 + (if '0' <= s[|s| - 1] <= '9' then (s[|s| - 1] - '0') as nat else 0)
  }

  function Decode(text: string): Held {
    Held(ParseNat(Head(text)), Head(Tail(text)))
  }

  lemma {:induction false} HeadOfJoin(a: string, rest: string)
    requires ':' !in a
    ensures Head(a + ":" + rest) == a && Tail(a + ":" + rest) == rest
  {
    if a == "" {
      assert (a + ":" + rest)[1..] == rest;
    } else {
      assert (a + ":" + rest)[1..] == a[1..] + ":" + rest;
      HeadOfJoin(a[1..], rest);
    }
  }

  /** What a client reads out of the stored text is what the holder put in; a token has no colon. */
  lemma {:induction false} StoredTextReadsBack(slot: Slot)
    requires ':' !in slot.token
    ensures Decode(Encode(slot)) == HeldBy(slot)
  {
    var d := Digit(PriorityOf(slot.source));
    var rest := slot.token + ":" + SourceName(slot.source);
    assert Encode(slot) == d + ":" + rest;
    HeadOfJoin(d, rest);
    HeadOfJoin(slot.token, SourceName(slot.source));
    assert d[..0] == "";
  }
}

/** `RedisResponseCoordinator`: WATCH, GET, MULTI, SET, EXEC and its retry loop. */
module RedisCoordinator {
  import opened Prelude
  import opened ResponseSlots

  /** What others do to the key: write it, delete it, or let it expire. */
  datatype Event = Written(slot: Slot) | Gone

  /** What happens between WATCH and GET and between GET and EXEC of one attempt. */
  datatype Turn = Turn(beforeGet: seq<Event>, beforeExec: seq<Event>)

  function Affected(v: Option<Held>, e: Event): Option<Held> {
    match e
    case Written(slot) => Some(HeldBy(slot))
    case Gone => None
  }

  function Played(v: Option<Held>, es: seq<Event>): Option<Held> {
    if es == [] then v else Affected(Played(v, es[..|es| - 1]), es[|es| - 1])
  }

  ghost predicate CleanTokens(es: seq<Event>) {
    forall i :: 0 <= i < |es| && es[i].Written? ==> ':' !in es[i].slot.token
  }

  ghost predicate CleanTurns(ts: seq<Turn>) {
    forall i :: 0 <= i < |ts| ==> CleanTokens(ts[i].beforeGet) && CleanTokens(ts[i].beforeExec)
  }

  lemma {:induction false} PlayedTwice(v: Option<Held>, xs: seq<Event>, ys: seq<Event>)
    ensures Played(v, xs + ys) == Played(Played(v, xs), ys)
  {
    if ys == [] {
      assert xs + ys == xs;
    } else {
      assert (xs + ys)[..|xs + ys| - 1] == xs + ys[..|ys| - 1];
      PlayedTwice(v, xs, ys[..|ys| - 1]);
    }
  }

  /** The last event decides what is stored, and without events nothing changes. */
  lemma {:induction false} LastEventDecides(v: Option<Held>, es: seq<Event>)
    ensures es == [] ==> Played(v, es) == v
    ensures es != [] && es[|es| - 1].Gone? ==> Played(v, es).None?
    ensures es != [] && es[|es| - 1].Written? ==>
              Played(v, es) == Some(Held(PriorityOf(es[|es| - 1].slot.source), es[|es| - 1].slot.token))
  {
  }

  /** Nobody else writes this token: a worker's own is new. */
  ghost predicate Unused(token: string, es: seq<Event>) {
    forall i :: 0 <= i < |es| && es[i].Written? ==> es[i].slot.token != token
  }

  /** So a slot is still held after `es` exactly when nothing happened. */
  lemma {:induction false} HeldUntilTouched(slot: Slot, es: seq<Event>)
    requires Unused(slot.token, es)
    ensures Holds(Played(Some(HeldBy(slot)), es), slot.token) <==> es == []
  {
    LastEventDecides(Some(HeldBy(slot)), es);
  }

  // ------------------------------------------------------------------ the moment a loop acts

  /** Nobody meddles any more once the script ends. */
  function TurnAt(turns: seq<Turn>, n: nat): Turn {
    if n < |turns| then turns[n] else Turn([], [])
  }

  /** The key when attempt `n` sends its WATCH. */
  function AtWatch(v: Option<Held>, turns: seq<Turn>, n: nat): Option<Held>
    decreases n, 0
  {
    if n == 0 then v
    else Played(AtGet(v, turns, n - 1), TurnAt(turns, n - 1).beforeExec)
  }

  /** The key when attempt `n` reads it. */
  function AtGet(v: Option<Held>, turns: seq<Turn>, n: nat): Option<Held>
    decreases n, 1
  {
    Played(AtWatch(v, turns, n), TurnAt(turns, n).beforeGet)
  }

  /** Events that leave the version of a key alone: there was nothing to delete. */
  predicate Untouched(v: Option<Held>, es: seq<Event>) {
    es == [] || (v.None? && forall i :: 0 <= i < |es| ==> es[i].Gone?)
  }

  /** Nothing changed between the WATCH of attempt `n` and its EXEC. */
  predicate ExecSucceeds(v: Option<Held>, turns: seq<Turn>, n: nat) {
    Untouched(AtWatch(v, turns, n), TurnAt(turns, n).beforeGet)
    && Untouched(AtGet(v, turns, n), TurnAt(turns, n).beforeExec)
  }

  /** Everything in the first `n` turns. */
  function Flat(turns: seq<Turn>, n: nat): seq<Event> {
    if n == 0 then []
    else Flat(turns, n - 1) + TurnAt(turns, n - 1).beforeGet + TurnAt(turns, n - 1).beforeExec
  }

  /** At its n-th WATCH a loop has seen the whole script up to there, and at its reading one part more. */
  lemma {:induction false} LoopsFollowTheScript(v: Option<Held>, turns: seq<Turn>, n: nat)
    ensures AtWatch(v, turns, n) == Played(v, Flat(turns, n))
    ensures AtGet(v, turns, n) == Played(v, Flat(turns, n) + TurnAt(turns, n).beforeGet)
  {
    if n > 0 {
      var before, turn := Flat(turns, n - 1), TurnAt(turns, n - 1);
      LoopsFollowTheScript(v, turns, n - 1);
      PlayedTwice(v, before + turn.beforeGet, turn.beforeExec);
    }
    PlayedTwice(v, Flat(turns, n), TurnAt(turns, n).beforeGet);
  }

  /** A key counts as touched exactly when somebody wrote it, or it went away while it was there. */
  lemma {:induction false} UntouchedExactlyWhen(v: Option<Held>, es: seq<Event>)
    ensures Untouched(v, es) <==>
              forall i :: 0 <= i < |es| ==> es[i].Gone? && Played(v, es[..i]).None?
    ensures Untouched(v, es) ==> Played(v, es) == v
  {
    if es != [] {
      var n := |es| - 1;
      UntouchedExactlyWhen(v, es[..n]);
      forall i | 0 <= i < n ensures es[..n][i] == es[i] && es[..n][..i] == es[..i] {
      }
      assert es[..0] == [];
    }
  }

  /** The loop stops at attempt `n`: every earlier one wanted to write and failed its EXEC, and this one
      either does not want to write or succeeds. */
  ghost predicate StopsAt(v: Option<Held>, turns: seq<Turn>, n: nat, wants: Option<Held> -> bool) {
    && n <= |turns|
    && (forall m :: 0 <= m < n ==> wants(AtGet(v, turns, m)) && !ExecSucceeds(v, turns, m))
    && (wants(AtGet(v, turns, n)) ==> ExecSucceeds(v, turns, n))
  }

  /** A script leaves no choice: there is one attempt a loop can stop at. */
  lemma {:induction false} StopsOnce(v: Option<Held>, turns: seq<Turn>, m: nat, n: nat, wants: Option<Held> -> bool)
    requires StopsAt(v, turns, m, wants) && StopsAt(v, turns, n, wants)
    ensures m == n
  {
  }

  class ResponseKey {
    var value: Option<string>
    var version: nat

    constructor ()
      ensures value.None? && version == 0
    {
      value, version := None, 0;
    }

    function Current(): Option<Held>
      reads this
    {
      if value.None? then None else Some(Decode(value.value))
    }

    /** Every change bumps the version; deleting what is not there is not a change. */
    method Interfere(es: seq<Event>)
      requires CleanTokens(es)
      modifies this
      ensures Current() == Played(old(Current()), es)
      ensures version >= old(version)
      ensures version == old(version) <==> Untouched(old(Current()), es)
      ensures version == old(version) ==> value == old(value)
    {
      for i := 0 to |es|
        invariant Current() == Played(old(Current()), es[..i])
        invariant version >= old(version)
        invariant version == old(version) <==> Untouched(old(Current()), es[..i])
        invariant version == old(version) ==> value == old(value)
      {
        assert es[..i + 1][..i] == es[..i];
        match es[i]
        case Written(slot) =>
          StoredTextReadsBack(slot);
          value, version := Some(Encode(slot)), version + 1;
          assert es[..i + 1][i].Written?;
        case Gone =>
          if value.Some? {
            value, version := None, version + 1;
          }
      }
      assert es[..|es|] == es;
    }

    /** Whatever the others do between the round trips, the call acts at one moment, the reading of its
        last attempt: it takes the key exactly when it was free or held with a strictly lower priority
        then, and a write goes through only when the version has not changed since that attempt's WATCH. */
    method TryAcquire(source: ChatSource, token: string, turns: seq<Turn>)
      returns (slot: Option<Slot>, ghost n: nat)
      requires ':' !in token && CleanTurns(turns)
      modifies this
      ensures StopsAt(old(Current()), turns, n, v => CanTake(v, source))
      ensures var v := AtGet(old(Current()), turns, n);
              && slot == (if CanTake(v, source) then Some(Slot(source, token)) else None)
              && Current() == Taken(v, Slot(source, token))
      ensures AtGet(old(Current()), turns, n).None? ==> slot.Some?
      ensures forall holder, t :: AtGet(old(Current()), turns, n) == Some(HeldBy(Slot(holder, t))) ==>
                (slot.Some? <==> (source, holder) in PREEMPTS)
    {
      forall holder: ChatSource, t: string
        ensures CanTake(Some(HeldBy(Slot(holder, t))), source) <==> (source, holder) in PREEMPTS
      {
        PreemptsExactlyWhen(holder, t, source);
      }
      var attempt := 0;
      while true
        invariant attempt <= |turns|
        invariant Current() == AtWatch(old(Current()), turns, attempt)
        invariant forall m :: 0 <= m < attempt ==>
                    CanTake(AtGet(old(Current()), turns, m), source) && !ExecSucceeds(old(Current()), turns, m)
        decreases |turns| - attempt
      {
        var turn := TurnAt(turns, attempt);
        var watched := version;
        Interfere(turn.beforeGet);
        var current := value;
        if current.Some? && PriorityOf(source) <= Decode(current.value).priority {
          return None, attempt;
        }
        Interfere(turn.beforeExec);
        if version == watched {
          value, version := Some(Encode(Slot(source, token))), version + 1;
          StoredTextReadsBack(Slot(source, token));
          return Some(Slot(source, token)), attempt;
        }
        attempt := attempt + 1;
      }
    }

    method StillHolds(slot: Slot) returns (holds: bool)
      ensures holds <==> Holds(Current(), slot.token)
    {
      holds := value.Some? && Decode(value.value).token == slot.token;
    }

    method IsBusy() returns (busy: bool)
      ensures busy <==> Current().Some?
    {
      busy := value.Some?;
    }

    /** Likewise: deletes exactly when the token was its own at the reading of the last attempt. */
    method Release(slot: Slot, turns: seq<Turn>) returns (ghost n: nat)
      requires CleanTurns(turns)
      modifies this
      ensures StopsAt(old(Current()), turns, n, v => Holds(v, slot.token))
      ensures Current() == Freed(AtGet(old(Current()), turns, n), slot.token)
    {
      var attempt := 0;
      while true
        invariant attempt <= |turns|
        invariant Current() == AtWatch(old(Current()), turns, attempt)
        invariant forall m :: 0 <= m < attempt ==>
                    Holds(AtGet(old(Current()), turns, m), slot.token) && !ExecSucceeds(old(Current()), turns, m)
        decreases |turns| - attempt
      {
        var turn := TurnAt(turns, attempt);
        var watched := version;
        Interfere(turn.beforeGet);
        var current := value;
        if current.None? || Decode(current.value).token != slot.token {
          return attempt;
        }
        Interfere(turn.beforeExec);
        if version == watched {
          value, version := None, version + 1;
          return attempt;
        }
        attempt := attempt + 1;
      }
    }
  }
}

/** Any number of clients of one key, round trip by round trip, against the indivisible meaning. */
module CoordinatorRefinement {
  import opened Prelude
  import opened ResponseSlots

  /** `at` is the version a client watched, `seen` how much history there was at that moment. */
  datatype Client =
    | Resting
    | ToWatch(goal: Goal)
    | Watched(goal: Goal, at: nat, seen: nat)
    | Queued(goal: Goal, at: nat, seen: nat)    // has read, and will EXEC a write

  datatype Goal = Acquire(slot: Slot) | Release(token: string)

  /** One completed operation, in the order of the deciding moments. */
  datatype Op =
    | Acquired(client: nat, slot: Slot, granted: bool)
    | Released(client: nat, token: string, removed: bool)
    | Expired

  datatype Sys = Sys(value: Option<Held>, version: nat, clients: seq<Client>, tokens: set<string>, history: seq<Op>)

  datatype Step =
    | Join
    | Call(client: nat, goal: Goal)
    | Watch(client: nat)
    | Get(client: nat)
    | Exec(client: nat)
    | Expire

  const INIT: Sys := Sys(None, 0, [], {}, [])

  function Put(s: Sys, c: nat, x: Client): Sys
    requires c < |s.clients|
  {
    s.(clients := s.clients[c := x])
  }

  function Record(s: Sys, op: Op): Sys { s.(history := s.history + [op]) }

  /** What the client decides from the value it has read: write, or give up. */
  predicate WantsToWrite(goal: Goal, v: Option<Held>) {
    match goal
    case Acquire(slot) => CanTake(v, slot.source)
    case Release(token) => Holds(v, token)
  }

  function GivenUp(c: nat, goal: Goal): Op {
    match goal
    case Acquire(slot) => Acquired(c, slot, false)
    case Release(token) => Released(c, token, false)
  }

  function Done(c: nat, goal: Goal): Op {
    match goal
    case Acquire(slot) => Acquired(c, slot, true)
    case Release(token) => Released(c, token, true)
  }

  function Wrote(goal: Goal): Option<Held> {
    match goal
    case Acquire(slot) => Some(HeldBy(slot))
    case Release(_) => None
  }

  function Next(s: Sys, step: Step): Sys {
    match step
    case Join => s.(clients := s.clients + [Resting])
    case Call(c, goal) =>
      // every acquisition brings a new token
      if c < |s.clients| && s.clients[c].Resting? && (goal.Acquire? ==> goal.slot.token !in s.tokens) then
        Put(s, c, ToWatch(goal)).(tokens := if goal.Acquire? then s.tokens + {goal.slot.token} else s.tokens)
      else s
    case Watch(c) =>
      if c < |s.clients| && s.clients[c].ToWatch? then
        Put(s, c, Watched(s.clients[c].goal, s.version, |s.history|))
      else s
    case Get(c) =>
      if c < |s.clients| && s.clients[c].Watched? then
        var x := s.clients[c];
        if WantsToWrite(x.goal, s.value) then Put(s, c, Queued(x.goal, x.at, x.seen))
        else Record(Put(s, c, Resting), GivenUp(c, x.goal))
      else s
    case Exec(c) =>
      if c < |s.clients| && s.clients[c].Queued? then
        var x := s.clients[c];
        if s.version == x.at then
          Record(Put(s, c, Resting), Done(c, x.goal)).(value := Wrote(x.goal), version := s.version + 1)
        else Put(s, c, ToWatch(x.goal))
      else s
    case Expire =>
      if s.value.Some? then Record(s, Expired).(value := None, version := s.version + 1) else s
  }

  function After(steps: seq<Step>): Sys {
    if steps == [] then INIT else Next(After(steps[..|steps| - 1]), steps[|steps| - 1])
  }

  // ------------------------------------------------------------------ the indivisible meaning

  function Effect(v: Option<Held>, op: Op): Option<Held> {
    match op
    case Acquired(_, slot, _) => Taken(v, slot)
    case Released(_, token, _) => Freed(v, token)
    case Expired => None
  }

  /** The answer an operation gives is the one its deciding moment calls for. */
  predicate Truthful(v: Option<Held>, op: Op) {
    match op
    case Acquired(_, slot, granted) => granted == CanTake(v, slot.source)
    case Released(_, token, removed) => removed == Holds(v, token)
    case Expired => v.Some?
  }

  function Replay(h: seq<Op>): Option<Held> {
    if h == [] then None else Effect(Replay(h[..|h| - 1]), h[|h| - 1])
  }

  ghost predicate AllTruthful(h: seq<Op>) {
    forall i :: 0 <= i < |h| ==> TruthfulAt(h, i)
  }

  ghost predicate TruthfulAt(h: seq<Op>, i: nat)
    requires i < |h|
  {
    Truthful(Replay(h[..i]), h[i])
  }

  predicate Changes(op: Op) {
    match op
    case Acquired(_, _, granted) => granted
    case Released(_, _, removed) => removed
    case Expired => true
  }

  function Count(h: seq<Op>): nat {
    if h == [] then 0 else Count(h[..|h| - 1]) + (if Changes(h[|h| - 1]) then 1 else 0)
  }

  predicate MadeBy(op: Op, c: nat) {
    !op.Expired? && op.client == c
  }

  /** A watching client remembers a version that was current when it watched, and has done nothing since. */
  ghost predicate WatchOk(s: Sys, c: nat)
    requires c < |s.clients|
  {
    var x := s.clients[c];
    x.Watched? || x.Queued? ==>
      && x.seen <= |s.history|
      && x.at == Count(s.history[..x.seen])
      && (forall i :: x.seen <= i < |s.history| ==> !MadeBy(s.history[i], c))
      && (x.Queued? && x.at == s.version ==> WantsToWrite(x.goal, s.value))
  }

  ghost predicate Inv(s: Sys) {
    && s.value == Replay(s.history)
    && s.version == Count(s.history)
    && AllTruthful(s.history)
    && forall c :: 0 <= c < |s.clients| ==> WatchOk(s, c)
  }

  lemma {:induction false} CountGrows(h: seq<Op>, i: nat)
    requires i <= |h|
    ensures Count(h[..i]) <= Count(h)
    ensures Count(h[..i]) == Count(h) ==> forall j :: i <= j < |h| ==> !Changes(h[j])
  {
    if i == |h| {
      assert h[..i] == h;
    } else {
      assert h[..|h| - 1][..i] == h[..i];
      CountGrows(h[..|h| - 1], i);
    }
  }

  lemma {:induction false} RecordKeeps(h: seq<Op>, op: Op)
    requires AllTruthful(h) && Truthful(Replay(h), op)
    ensures AllTruthful(h + [op]) && Replay(h + [op]) == Effect(Replay(h), op)
    ensures Count(h + [op]) == Count(h) + (if Changes(op) then 1 else 0)
  {
    assert (h + [op])[..|h|] == h;
    forall i | 0 <= i < |h + [op]| ensures TruthfulAt(h + [op], i) {
      assert (h + [op])[..i] == h[..i];
      assert i < |h| ==> TruthfulAt(h, i);
      assert h[..|h|] == h;
    }
  }

  /** Another client's watch survives a recorded operation: if the value changed, so did the version. */
  lemma {:induction false} WatchSurvives(s: Sys, t: Sys, c: nat, op: Op)
    requires c < |s.clients| && WatchOk(s, c) && s.version == Count(s.history)
    requires t.history == s.history + [op] && !MadeBy(op, c)
    requires c < |t.clients| && t.clients[c] == s.clients[c]
    requires t.version == s.version + (if Changes(op) then 1 else 0)
    requires !Changes(op) ==> t.value == s.value
    ensures WatchOk(t, c)
  {
    var x := s.clients[c];
    if x.Watched? || x.Queued? {
      assert t.history[..x.seen] == s.history[..x.seen];
      CountGrows(s.history, x.seen);
    }
  }

  lemma {:induction false} WatchUntouched(s: Sys, t: Sys, c: nat)
    requires c < |s.clients| && WatchOk(s, c)
    requires c < |t.clients| && t.clients[c] == s.clients[c]
    requires t.history == s.history && t.version == s.version && t.value == s.value
    ensures WatchOk(t, c)
  {
  }

  lemma {:induction false} RecordingKeeps(s: Sys, t: Sys, c: nat, op: Op)
    requires Inv(s) && Truthful(s.value, op)
    requires t.history == s.history + [op]
    requires t.value == Effect(s.value, op) && t.version == s.version + (if Changes(op) then 1 else 0)
    requires !Changes(op) ==> t.value == s.value
    requires |t.clients| == |s.clients|
    requires op.Expired? || (op.client == c < |s.clients| && t.clients[c].Resting?)
    requires forall d :: 0 <= d < |s.clients| && (op.Expired? || d != c) ==> t.clients[d] == s.clients[d]
    ensures Inv(t)
  {
    RecordKeeps(s.history, op);
    forall d | 0 <= d < |t.clients| ensures WatchOk(t, d) {
      if op.Expired? || d != c {
        WatchSurvives(s, t, d, op);
      }
    }
  }

  lemma {:induction false} MovingKeeps(s: Sys, t: Sys, c: nat)
    requires Inv(s) && c < |s.clients| && |t.clients| == |s.clients|
    requires t.history == s.history && t.version == s.version && t.value == s.value
    requires forall d :: 0 <= d < |s.clients| && d != c ==> t.clients[d] == s.clients[d]
    requires WatchOk(t, c)
    ensures Inv(t)
  {
    forall d | 0 <= d < |t.clients| ensures WatchOk(t, d) {
      if d != c {
        WatchUntouched(s, t, d);
      }
    }
  }

  lemma {:induction false} NextKeeps(s: Sys, step: Step)
    requires Inv(s)
    ensures Inv(Next(s, step))
  {
    var t := Next(s, step);
    if t != s {
      match step
      case Join =>
        forall d | 0 <= d < |t.clients| ensures WatchOk(t, d) {
          if d < |s.clients| {
            WatchUntouched(s, t, d);
          }
        }
      case Call(c, _) => MovingKeeps(s, t, c);
      case Watch(c) =>
        assert s.history[..|s.history|] == s.history;
        MovingKeeps(s, t, c);
      case Get(c) =>
        var x := s.clients[c];
        assert WatchOk(s, c);
        if WantsToWrite(x.goal, s.value) {
          MovingKeeps(s, t, c);
        } else {
          RecordingKeeps(s, t, c, GivenUp(c, x.goal));
        }
      case Exec(c) =>
        var x := s.clients[c];
        assert WatchOk(s, c);
        if s.version == x.at {
          RecordingKeeps(s, t, c, Done(c, x.goal));
        } else {
          MovingKeeps(s, t, c);
        }
      case Expire => RecordingKeeps(s, t, 0, Expired);
    }
  }

  lemma {:induction false} AlwaysInv(steps: seq<Step>)
    ensures Inv(After(steps))
  {
    if steps != [] {
      AlwaysInv(steps[..|steps| - 1]);
      NextKeeps(After(steps[..|steps| - 1]), steps[|steps| - 1]);
    }
  }

  // ------------------------------------------------------------------ main results

  /** The retry loops refine indivisible operations: for any number of clients, any interleaving of their
      round trips and expiry anywhere, the stored value is what the completed operations give one after
      another, and each gave the answer of "take if free or strictly higher" or "delete if the token is
      mine" at its own moment. */
  lemma {:induction false} LoopsRefineAtomicOperations(steps: seq<Step>)
    ensures After(steps).value == Replay(After(steps).history)
    ensures AllTruthful(After(steps).history)
  {
    AlwaysInv(steps);
  }

  /** Every failed EXEC has a cause: since the client's WATCH somebody else wrote, or the key expired. */
  lemma {:induction false} FailedExecHasACause(steps: seq<Step>, c: nat) returns (i: nat)
    requires c < |After(steps).clients| && After(steps).clients[c].Queued?
    requires After(steps).version != After(steps).clients[c].at
    ensures After(steps).clients[c].seen <= i < |After(steps).history|
    ensures Changes(After(steps).history[i]) && !MadeBy(After(steps).history[i], c)
  {
    var s := After(steps);
    AlwaysInv(steps);
    assert WatchOk(s, c);
    i := LastChange(s.history, s.clients[c].seen);
  }

  /** A call ends only with its operation on record, as its answer; a failed EXEC goes back to the WATCH. */
  lemma {:induction false} EveryCallIsAnswered(s: Sys, step: Step, c: nat)
    requires c < |s.clients| && !s.clients[c].Resting?
    ensures var t := Next(s, step);
            && (t.clients[c].Resting? ==>
                  |t.history| == |s.history| + 1 && MadeBy(t.history[|s.history|], c))
            && (step == Exec(c) && s.clients[c].Queued? && s.clients[c].at != s.version ==>
                  t == s.(clients := s.clients[c := ToWatch(s.clients[c].goal)]))
  {
  }

  /** The key can expire at any moment while it is there. */
  lemma {:induction false} ExpiryFreesTheRoom(s: Sys)
    requires s.value.Some?
    ensures Next(s, Expire).value.None? && Next(s, Expire).version != s.version
  {
  }

  lemma {:induction false} LastChange(h: seq<Op>, from: nat) returns (i: nat)
    requires from <= |h| && Count(h[..from]) != Count(h)
    ensures from <= i < |h| && Changes(h[i])
  {
    assert h[..|h|] == h;
    assert from < |h|;
    if Changes(h[|h| - 1]) {
      i := |h| - 1;
    } else {
      assert h[..|h| - 1][..from] == h[..from];
      i := LastChange(h[..|h| - 1], from);
    }
  }

  // ------------------------------------------------------------------ tokens are never reused

  ghost predicate FreshTokens(h: seq<Op>) {
    forall i, j :: 0 <= i < j < |h| && h[i].Acquired? && h[j].Acquired? ==> h[i].slot.token != h[j].slot.token
  }

  predicate Pending(x: Client, token: string) {
    !x.Resting? && x.goal.Acquire? && x.goal.slot.token == token
  }

  /** A token is drawn once: it belongs to one pending call or to one completed one. */
  ghost predicate TokensOk(s: Sys) {
    && FreshTokens(s.history)
    && (forall i :: 0 <= i < |s.history| && s.history[i].Acquired? ==> s.history[i].slot.token in s.tokens)
    && (forall c :: 0 <= c < |s.clients| && !s.clients[c].Resting? && s.clients[c].goal.Acquire? ==>
          PendingOk(s, c))
  }

  ghost predicate PendingOk(s: Sys, c: nat)
    requires c < |s.clients| && !s.clients[c].Resting? && s.clients[c].goal.Acquire?
  {
    var token := s.clients[c].goal.slot.token;
    && token in s.tokens
    && (forall i :: 0 <= i < |s.history| && s.history[i].Acquired? ==> s.history[i].slot.token != token)
    && (forall d :: 0 <= d < |s.clients| && d != c ==> !Pending(s.clients[d], token))
  }

  lemma {:induction false} TokensKeep(s: Sys, step: Step)
    requires TokensOk(s)
    ensures TokensOk(Next(s, step))
  {
    var t := Next(s, step);
    if t != s {
      forall c | 0 <= c < |t.clients| && !t.clients[c].Resting? && t.clients[c].goal.Acquire?
        ensures PendingOk(t, c)
      {
        if c < |s.clients| && !s.clients[c].Resting? && s.clients[c].goal == t.clients[c].goal {
          assert PendingOk(s, c);
        }
      }
    }
  }

  lemma {:induction false} TokensAreFresh(steps: seq<Step>)
    ensures TokensOk(After(steps))
  {
    if steps != [] {
      TokensAreFresh(steps[..|steps| - 1]);
      TokensKeep(After(steps[..|steps| - 1]), steps[|steps| - 1]);
    }
  }
}

/** What the fencing tokens and the priorities give over whole runs. */
module Fencing {
  import opened Prelude
  import opened ResponseSlots
  import opened CoordinatorRefinement

  function At(h: seq<Op>, i: nat): Option<Held>
    requires i <= |h|
  {
    Replay(h[..i])
  }

  lemma {:induction false} StepAt(h: seq<Op>, i: nat)
    requires i < |h|
    ensures At(h, i + 1) == Effect(At(h, i), h[i])
  {
    assert h[..i + 1][..i] == h[..i];
  }

  /** A slot that holds was acquired before. */
  lemma {:induction false} HolderWasGranted(h: seq<Op>, i: nat, token: string) returns (a: nat)
    requires i <= |h| && Holds(At(h, i), token)
    ensures a < i && h[a].Acquired? && h[a].slot.token == token
  {
    StepAt(h, i - 1);
    if Holds(At(h, i - 1), token) {
      a := HolderWasGranted(h, i - 1, token);
    } else {
      a := i - 1;
    }
  }

  /** Once a slot has stopped holding it never holds again, and from then on its release changes
      nothing. */
  lemma {:induction false} LostForGood(h: seq<Op>, i: nat, j: nat, k: nat, token: string)
    requires FreshTokens(h) && i <= j <= k <= |h|
    requires Holds(At(h, i), token) && !Holds(At(h, j), token)
    ensures !Holds(At(h, k), token)
    ensures k < |h| && h[k].Released? && h[k].token == token ==> At(h, k + 1) == At(h, k)
  {
    if k > j {
      LostForGood(h, i, j, k - 1, token);
      StepAt(h, k - 1);
      var a := HolderWasGranted(h, i, token);
    }
    if k < |h| {
      StepAt(h, k);
    }
  }

  /** Priorities of the slots granted in `h[i..j]`. */
  function Granted(h: seq<Op>, i: nat, j: nat): seq<nat>
    requires i <= j <= |h|
  {
    if i == j then []
    else Granted(h, i, j - 1)
         + (if h[j - 1].Acquired? && h[j - 1].granted then [PriorityOf(h[j - 1].slot.source)] else [])
  }

  ghost predicate StrictlyIncreasing(s: seq<nat>) {
    forall a, b :: 0 <= a < b < |s| ==> s[a] < s[b]
  }

  lemma {:induction false} OneHigher(g: seq<nat>, p: nat)
    requires StrictlyIncreasing(g) && (g != [] ==> g[|g| - 1] < p)
    ensures StrictlyIncreasing(g + [p])
  {
    assert forall a :: 0 <= a < |g| ==> g[a] <= g[|g| - 1];
  }

  /** The holder is the slot granted last. */
  ghost predicate LastGrantHolds(h: seq<Op>, i: nat, j: nat)
    requires i <= j <= |h|
  {
    var g := Granted(h, i, j);
    g != [] && At(h, j).Some? && At(h, j).value.priority == g[|g| - 1]
  }

  lemma {:induction false} OneMoreOperation(h: seq<Op>, i: nat, j: nat)
    requires i < j <= |h| && TruthfulAt(h, j - 1) && At(h, j).Some?
    requires StrictlyIncreasing(Granted(h, i, j - 1))
    requires if i == j - 1 then At(h, i).None? else LastGrantHolds(h, i, j - 1)
    ensures StrictlyIncreasing(Granted(h, i, j)) && LastGrantHolds(h, i, j)
  {
    StepAt(h, j - 1);
    if h[j - 1].Acquired? && h[j - 1].granted {
      OneHigher(Granted(h, i, j - 1), PriorityOf(h[j - 1].slot.source));
    }
  }

  /** While the room stays occupied each grant has a strictly higher priority than the one before, and the
      holder is the slot granted last. */
  lemma {:induction false} GrantsClimb(h: seq<Op>, i: nat, j: nat)
    requires AllTruthful(h) && i <= j <= |h| && At(h, i).None?
    requires forall m :: i < m <= j ==> At(h, m).Some?
    ensures StrictlyIncreasing(Granted(h, i, j))
    ensures i < j ==> LastGrantHolds(h, i, j)
  {
    if i < j {
      GrantsClimb(h, i, j - 1);
      assert TruthfulAt(h, j - 1);
      OneMoreOperation(h, i, j);
    }
  }

  lemma {:induction false} GrantsAreBounded(h: seq<Op>, i: nat, j: nat)
    requires i <= j <= |h|
    ensures forall a :: 0 <= a < |Granted(h, i, j)| ==> Granted(h, i, j)[a] <= 3
  {
    if i < j {
      GrantsAreBounded(h, i, j - 1);
    }
  }

  lemma {:induction false} ClimbIsShort(s: seq<nat>, n: nat)
    requires StrictlyIncreasing(s) && n < |s|
    ensures s[n] >= n
  {
    if n > 0 {
      ClimbIsShort(s, n - 1);
    }
  }

  /** Between two moments when the room is free the granted priorities strictly increase, so at most
      four slots are granted. */
  lemma {:induction false} AtMostFourSlotsBetweenFreeMoments(steps: seq<Step>, i: nat, j: nat)
    requires i <= j <= |After(steps).history| && At(After(steps).history, i).None?
    requires forall m :: i < m <= j ==> At(After(steps).history, m).Some?
    ensures StrictlyIncreasing(Granted(After(steps).history, i, j))
    ensures |Granted(After(steps).history, i, j)| <= 4
  {
    LoopsRefineAtomicOperations(steps);
    var g := Granted(After(steps).history, i, j);
    GrantsClimb(After(steps).history, i, j);
    GrantsAreBounded(After(steps).history, i, j);
    if g != [] {
      ClimbIsShort(g, |g| - 1);
    }
  }

  /** In every run of the coordinator, a slot that has been preempted, released or has expired never
      holds again, whatever its owner still sends. */
  lemma {:induction false} SlotsNeverComeBack(steps: seq<Step>, i: nat, j: nat, k: nat, token: string)
    requires i <= j <= k <= |After(steps).history|
    requires Holds(At(After(steps).history, i), token) && !Holds(At(After(steps).history, j), token)
    ensures !Holds(At(After(steps).history, k), token)
  {
    TokensAreFresh(steps);
    LostForGood(After(steps).history, i, j, k, token);
  }
}
