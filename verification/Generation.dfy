/** The worker's use case: acquire, generate, check, record, publish, release. */
module ResponseGeneration {
  import opened Prelude
  import opened ResponseSlots
  import opened RedisCoordinator

  datatype Request = Request(source: ChatSource, prompt: string, repliedTo: Option<string>)

  datatype Reply = Reply(source: ChatSource, text: string)

  /** A transcript row; `repliedTo` links the answer to the comment it answers. */
  datatype Recorded = Recorded(reply: Reply, repliedTo: Option<string>)

  datatype Outcome = NoSlot | Raised | Preempted | Published

  /** What others do to the key meanwhile, and how the foreign calls end. */
  datatype World = World(
    acquiring: seq<Turn>,
    generating: seq<Event>,
    generated: Option<string>,
    recording: bool,
    publishing: seq<Event>,
    published: bool,
    releasing: seq<Turn>)

  ghost predicate CleanWorld(w: World) {
    CleanTurns(w.acquiring) && CleanTokens(w.generating) && CleanTokens(w.publishing) && CleanTurns(w.releasing)
  }

  /** The outcome, from the value found when acquiring and what happened up to the check. */
  function OutcomeOf(found: Option<Held>, slot: Slot, w: World): Outcome {
    if !CanTake(found, slot.source) then NoSlot
    else if w.generated.None? then Raised
    else if !Holds(Played(Some(HeldBy(slot)), w.generating), slot.token) then Preempted
    else if !w.published then Raised
    else Published
  }

  /** Whether the answer got as far as the record. */
  predicate Cleared(found: Option<Held>, slot: Slot, w: World) {
    CanTake(found, slot.source) && w.generated.Some? && Holds(Played(Some(HeldBy(slot)), w.generating), slot.token)
  }

  /** The key when the release begins: the slot was stored, and the others have gone on. */
  function AtRelease(found: Option<Held>, slot: Slot, w: World): Option<Held> {
    var checked := Played(Some(HeldBy(slot)), w.generating);
    if Cleared(found, slot, w) then Played(checked, w.publishing) else checked
  }

  /** The release comes after everything that happened since the grant. */
  lemma {:induction false} ReleaseSeesEverything(found: Option<Held>, slot: Slot, w: World)
    requires CanTake(found, slot.source)
    ensures var held := Played(Some(HeldBy(slot)), w.generating);
            var publishes := w.generated.Some? && held.Some? && held.value.token == slot.token;
            AtRelease(found, slot, w) ==
              Played(Some(HeldBy(slot)), w.generating + if publishes then w.publishing else [])
  {
    PlayedTwice(Some(HeldBy(slot)), w.generating, w.publishing);
    assert w.generating + [] == w.generating;
  }

  class ResponseGenerationService {
    const key: ResponseKey
    var transcript: seq<Recorded>
    var channel: seq<Reply>

    constructor (key: ResponseKey)
      ensures this.key == key && transcript == [] && channel == []
    {
      this.key := key;
      transcript, channel := [], [];
    }

    /** A failed record is swallowed. */
    method Record(request: Request, text: string, up: bool)
      modifies this`transcript
      ensures transcript == old(transcript) +
                            (if up then [Recorded(Reply(request.source, text), request.repliedTo)] else [])
    {
      if up {
        transcript := transcript + [Recorded(Reply(request.source, text), request.repliedTo)];
      }
    }

    /** The answer is recorded and published exactly when the slot was still the stored one at the check;
        as nobody else uses its token, that is when nothing happened to the key since the grant.
        `n` and `k` are the attempts at which acquiring and releasing stopped; after a grant the key holds
        the slot, the others do what they do, and the release removes at most the worker's own slot. */
    method Handle(request: Request, token: string, w: World)
      returns (outcome: Outcome, ghost n: nat, ghost k: nat)
      requires ':' !in token && CleanWorld(w)
      modifies this, key
      ensures StopsAt(old(key.Current()), w.acquiring, n, v => CanTake(v, request.source))
      ensures var found, slot := AtGet(old(key.Current()), w.acquiring, n), Slot(request.source, token);
              var cleared := Cleared(found, slot, w);
              && outcome == OutcomeOf(found, slot, w)
              && transcript == old(transcript) +
                   (if cleared && w.recording
                    then [Recorded(Reply(request.source, w.generated.value), request.repliedTo)] else [])
              && channel == old(channel) +
                   (if cleared && w.published then [Reply(request.source, w.generated.value)] else [])
              && (if outcome.NoSlot? then key.Current() == found
                  else
                    && StopsAt(AtRelease(found, slot, w), w.releasing, k, v => Holds(v, token))
                    && key.Current() == Freed(AtGet(AtRelease(found, slot, w), w.releasing, k), token))
      ensures var found := AtGet(old(key.Current()), w.acquiring, n);
              var checked := Played(Some(HeldBy(Slot(request.source, token))), w.generating);
              && (outcome.NoSlot? <==> found.Some? && PriorityOf(request.source) <= found.value.priority)
              && (|transcript| > |old(transcript)| || |channel| > |old(channel)| ==>
                    !outcome.NoSlot? && w.generated.Some? && checked.Some? && checked.value.token == token)
              && (!outcome.NoSlot? && w.generated.Some? && checked.Some? && checked.value.token == token ==>
                    && (w.recording ==>
                          transcript == old(transcript) + [Recorded(Reply(request.source, w.generated.value), request.repliedTo)])
                    && (w.published ==> channel == old(channel) + [Reply(request.source, w.generated.value)]))
              && (Unused(token, w.generating) && !outcome.NoSlot? && w.generated.Some? && w.published ==>
                    (|channel| == |old(channel)| + 1 <==> w.generating == []))
              && (outcome.Published? <==> |channel| == |old(channel)| + 1)
              && (outcome.Preempted? <==>
                    !outcome.NoSlot? && w.generated.Some? && !(checked.Some? && checked.value.token == token))
              && (outcome.Raised? <==>
                    !outcome.NoSlot? && !outcome.Preempted? && (w.generated.None? || !w.published))
    {
      var slot;
      k := 0;
      slot, n := key.TryAcquire(request.source, token, w.acquiring);
      if slot.None? {
        return NoSlot, n, k;
      }
      key.Interfere(w.generating);
      if Unused(token, w.generating) {
        HeldUntilTouched(slot.value, w.generating);
      }
      if w.generated.None? {
        outcome := Raised;
      } else {
        var holds := key.StillHolds(slot.value);
        if !holds {
          outcome := Preempted;
        } else {
          Record(request, w.generated.value, w.recording);
          key.Interfere(w.publishing);
          if w.published {
            channel := channel + [Reply(request.source, w.generated.value)];
            outcome := Published;
          } else {
            outcome := Raised;
          }
        }
      }
      k := key.Release(slot.value, w.releasing);
    }
  }
}

/** Any number of workers in one room, with preemption and expiry while they generate. */
module GenerationWorkers {
  import opened Prelude
  import opened ResponseSlots

  datatype Worker =
    | Ready
    | Generating(slot: Slot)
    | Checking(slot: Slot)
    | Recording(slot: Slot)
    | Sending(slot: Slot)
    | Releasing(slot: Slot)

  /** What an observer of the room sees. `Checked` carries the value stored at that moment. */
  datatype Event =
    | Granted(token: string)
    | Lost(token: string)                          // preempted, or expired
    | Checked(token: string, stored: Option<Held>)
    | RecordTried(token: string)
    | Published(token: string)
    | ReleaseTried(token: string)

  datatype Sys = Sys(value: Option<Held>, workers: seq<Worker>, tokens: set<string>, log: seq<Event>)

  datatype Step =
    | Join
    | Acquire(worker: nat, slot: Slot)
    | Generate(worker: nat, ok: bool)
    | Check(worker: nat)
    | Record(worker: nat)                          // the attempt; a failure is swallowed
    | Publish(worker: nat, sent: bool)
    | Release(worker: nat)
    | Die(worker: nat)
    | Expire

  const INIT: Sys := Sys(None, [], {}, [])

  function Put(s: Sys, w: nat, x: Worker): Sys
    requires w < |s.workers|
  {
    s.(workers := s.workers[w := x])
  }

  function Seen(s: Sys, es: seq<Event>): Sys { s.(log := s.log + es) }

  function LostNow(v: Option<Held>): seq<Event> {
    if v.Some? then [Lost(v.value.token)] else []
  }

  function Next(s: Sys, step: Step): Sys {
    match step
    case Join => s.(workers := s.workers + [Ready])
    case Acquire(w, slot) =>
      if w < |s.workers| && s.workers[w].Ready? && slot.token !in s.tokens then
        var t := s.(tokens := s.tokens + {slot.token});
        if CanTake(s.value, slot.source) then
          Seen(Put(t, w, Generating(slot)), LostNow(s.value) + [Granted(slot.token)]).(value := Some(HeldBy(slot)))
        else t
      else s
    case Generate(w, ok) =>
      if w < |s.workers| && s.workers[w].Generating? then
        Put(s, w, if ok then Checking(s.workers[w].slot) else Releasing(s.workers[w].slot))
      else s
    case Check(w) =>
      if w < |s.workers| && s.workers[w].Checking? then
        var slot := s.workers[w].slot;
        Seen(Put(s, w, if Holds(s.value, slot.token) then Recording(slot) else Releasing(slot)),
             [Checked(slot.token, s.value)])
      else s
    case Record(w) =>
      if w < |s.workers| && s.workers[w].Recording? then
        Seen(Put(s, w, Sending(s.workers[w].slot)), [RecordTried(s.workers[w].slot.token)])
      else s
    case Publish(w, sent) =>
      if w < |s.workers| && s.workers[w].Sending? then
        Seen(Put(s, w, Releasing(s.workers[w].slot)), if sent then [Published(s.workers[w].slot.token)] else [])
      else s
    case Release(w) =>
      if w < |s.workers| && s.workers[w].Releasing? then
        Seen(Put(s, w, Ready), [ReleaseTried(s.workers[w].slot.token)]).(
          value := Freed(s.value, s.workers[w].slot.token))
      else s
    case Die(w) => if w < |s.workers| then Put(s, w, Ready) else s
    case Expire => Seen(s, LostNow(s.value)).(value := None)
  }

  function After(steps: seq<Step>): Sys {
    if steps == [] then INIT else Next(After(steps[..|steps| - 1]), steps[|steps| - 1])
  }

  // ------------------------------------------------------------------ the discipline of a log

  /** At position `c` the slot was found to be the stored one, and it had not been lost before. */
  ghost predicate Clear(log: seq<Event>, c: nat, token: string) {
    && c < |log| && log[c].Checked? && log[c].token == token && Holds(log[c].stored, token)
    && forall i :: 0 <= i < c ==> log[i] != Lost(token)
  }

  ghost predicate ClearBefore(log: seq<Event>, n: nat, token: string) {
    exists c :: 0 <= c < n && Clear(log, c, token)
  }

  ghost predicate RecordedBefore(log: seq<Event>, n: nat, token: string) {
    exists r :: 0 <= r < n && r < |log| && log[r] == RecordTried(token) && ClearBefore(log, r, token)
  }

  ghost predicate EventOk(log: seq<Event>, i: nat)
    requires i < |log|
  {
    && (log[i].RecordTried? ==> ClearBefore(log, i, log[i].token))
    && (log[i].Published? ==> RecordedBefore(log, i, log[i].token))
  }

  predicate Once(e: Event) { e.Granted? || e.Checked? || e.RecordTried? || e.Published? }

  predicate Repeats(e: Event, f: Event) {
    Once(e) && e.token == f.token
    && (e.Granted? <==> f.Granted?) && (e.Checked? <==> f.Checked?)
    && (e.RecordTried? <==> f.RecordTried?) && (e.Published? <==> f.Published?)
  }

  ghost predicate LogOk(log: seq<Event>) {
    && (forall i :: 0 <= i < |log| ==> EventOk(log, i))
    && (forall i, j :: 0 <= i < j < |log| ==> !Repeats(log[i], log[j]))
  }

  /** How far the slot of a worker has got, seen from the log. */
  ghost predicate NotYet(log: seq<Event>, token: string, check: bool, record: bool, publish: bool) {
    forall i :: 0 <= i < |log| && log[i].token == token ==>
      (check ==> !log[i].Checked?) && (record ==> !log[i].RecordTried?) && (publish ==> !log[i].Published?)
  }

  ghost predicate WorkerOk(s: Sys, w: nat)
    requires w < |s.workers|
  {
    var x := s.workers[w];
    !x.Ready? ==>
      && x.slot.token in s.tokens
      && (x.Generating? || x.Checking? ==> NotYet(s.log, x.slot.token, true, true, true))
      && (x.Recording? ==> NotYet(s.log, x.slot.token, false, true, true) && ClearBefore(s.log, |s.log|, x.slot.token))
      && (x.Sending? ==> NotYet(s.log, x.slot.token, false, false, true) && RecordedBefore(s.log, |s.log|, x.slot.token))
  }

  ghost predicate ApartFrom(x: Worker, y: Worker) {
    !x.Ready? && !y.Ready? ==> x.slot.token != y.slot.token
  }

  ghost predicate Inv(s: Sys) {
    && LogOk(s.log)
    && (forall i :: 0 <= i < |s.log| ==> s.log[i].token in s.tokens)
    && (s.value.Some? ==> s.value.value.token in s.tokens)
    && (forall i :: 0 <= i < |s.log| && s.log[i].Lost? ==> !Holds(s.value, s.log[i].token))
    && (forall w :: 0 <= w < |s.workers| ==> WorkerOk(s, w))
    && (forall w, v :: 0 <= w < |s.workers| && 0 <= v < |s.workers| && w != v ==> ApartFrom(s.workers[w], s.workers[v]))
  }

  lemma {:induction false} ClearStays(log: seq<Event>, more: seq<Event>, n: nat, token: string)
    requires n <= |log|
    ensures ClearBefore(log, n, token) ==> ClearBefore(log + more, n, token)
    ensures RecordedBefore(log, n, token) ==> RecordedBefore(log + more, n, token)
  {
    if ClearBefore(log, n, token) {
      var c :| 0 <= c < n && Clear(log, c, token);
      assert Clear(log + more, c, token);
    }
    if RecordedBefore(log, n, token) {
      var r :| 0 <= r < n && log[r] == RecordTried(token) && ClearBefore(log, r, token);
      var c :| 0 <= c < r && Clear(log, c, token);
      assert Clear(log + more, c, token);
      assert (log + more)[r] == RecordTried(token);
    }
  }

  lemma {:induction false} ClearWidens(log: seq<Event>, n: nat, m: nat, token: string)
    requires n <= m
    ensures ClearBefore(log, n, token) ==> ClearBefore(log, m, token)
    ensures RecordedBefore(log, n, token) ==> RecordedBefore(log, m, token)
  {
  }

  /** One more event keeps the discipline when it is allowed now and is the first of its kind. */
  lemma {:induction false} LogGrows(log: seq<Event>, e: Event)
    requires LogOk(log)
    requires e.RecordTried? ==> ClearBefore(log, |log|, e.token)
    requires e.Published? ==> RecordedBefore(log, |log|, e.token)
    requires forall i :: 0 <= i < |log| ==> !Repeats(log[i], e)
    ensures LogOk(log + [e])
  {
    var more := log + [e];
    forall i | 0 <= i < |more| ensures EventOk(more, i) {
      if i < |log| {
        assert EventOk(log, i);
      }
      ClearStays(log, [e], i, more[i].token);
    }
  }

  /** A worker is not affected by events about other slots. */
  lemma {:induction false} OthersStay(s: Sys, t: Sys, w: nat, e: Event)
    requires w < |s.workers| && WorkerOk(s, w)
    requires w < |t.workers| && t.workers[w] == s.workers[w]
    requires s.tokens <= t.tokens && t.log == s.log + [e]
    requires !s.workers[w].Ready? ==> e.Lost? || e.ReleaseTried? || e.token != s.workers[w].slot.token
    ensures WorkerOk(t, w)
  {
    if !s.workers[w].Ready? {
      ClearStays(s.log, [e], |s.log|, s.workers[w].slot.token);
      ClearWidens(t.log, |s.log|, |t.log|, s.workers[w].slot.token);
    }
  }

  /** One worker moves, one event is seen, the stored value may change. */
  lemma {:induction false} OneEventKeeps(s: Sys, w: nat, x: Worker, e: Event, v: Option<Held>)
    requires Inv(s) && w < |s.workers| && !s.workers[w].Ready?
    requires x.Ready? || x.slot == s.workers[w].slot
    requires e.token == s.workers[w].slot.token && !e.Lost? && !e.Granted?
    requires e.RecordTried? ==> ClearBefore(s.log, |s.log|, e.token)
    requires e.Published? ==> RecordedBefore(s.log, |s.log|, e.token)
    requires forall i :: 0 <= i < |s.log| ==> !Repeats(s.log[i], e)
    requires v == s.value || v.None?
    requires WorkerOk(Seen(Put(s, w, x), [e]), w)
    ensures Inv(Seen(Put(s, w, x), [e]).(value := v))
  {
    var t := Seen(Put(s, w, x), [e]).(value := v);
    assert WorkerOk(s, w);
    LogGrows(s.log, e);
    forall u | 0 <= u < |t.workers| ensures WorkerOk(t, u) {
      if u != w {
        assert ApartFrom(s.workers[u], s.workers[w]);
        OthersStay(s, t, u, e);
      } else {
        assert WorkerOk(Seen(Put(s, w, x), [e]), w);
      }
    }
    forall u, z | 0 <= u < |t.workers| && 0 <= z < |t.workers| && u != z ensures ApartFrom(t.workers[u], t.workers[z]) {
      assert ApartFrom(s.workers[u], s.workers[z]);
    }
  }

  lemma {:induction false} QuietKeeps(s: Sys, w: nat, x: Worker)
    requires Inv(s) && w < |s.workers|
    requires x.Ready? || (!s.workers[w].Ready? && x.slot == s.workers[w].slot)
    requires WorkerOk(Put(s, w, x), w)
    ensures Inv(Put(s, w, x))
  {
    var t := Put(s, w, x);
    forall u | 0 <= u < |t.workers| ensures WorkerOk(t, u) {
      assert u != w ==> WorkerOk(s, u);
    }
    forall u, z | 0 <= u < |t.workers| && 0 <= z < |t.workers| && u != z ensures ApartFrom(t.workers[u], t.workers[z]) {
      assert ApartFrom(s.workers[u], s.workers[z]);
    }
  }

  /** Losing the stored slot, by preemption or expiry. */
  lemma {:induction false} LosingKeeps(s: Sys)
    requires Inv(s)
    ensures Inv(Seen(s, LostNow(s.value)).(value := None))
  {
    var t := Seen(s, LostNow(s.value)).(value := None);
    if s.value.Some? {
      var e := Lost(s.value.value.token);
      LogGrows(s.log, e);
      forall u | 0 <= u < |t.workers| ensures WorkerOk(t, u) {
        OthersStay(s, t, u, e);
      }
    } else {
      assert t.log == s.log;
      forall u | 0 <= u < |t.workers| ensures WorkerOk(t, u) {
        assert WorkerOk(s, u);
      }
    }
  }

  lemma {:induction false} GrantKeeps(s: Sys, w: nat, slot: Slot)
    requires Inv(s) && s.value.None? && w < |s.workers| && s.workers[w].Ready? && slot.token !in s.tokens
    ensures Inv(Seen(Put(s, w, Generating(slot)), [Granted(slot.token)]).(
                  tokens := s.tokens + {slot.token}, value := Some(HeldBy(slot))))
  {
    var t := Seen(Put(s, w, Generating(slot)), [Granted(slot.token)]).(
               tokens := s.tokens + {slot.token}, value := Some(HeldBy(slot)));
    LogGrows(s.log, Granted(slot.token));
    forall u | 0 <= u < |t.workers| ensures WorkerOk(t, u) {
      if u != w {
        assert WorkerOk(s, u);
        OthersStay(s, t, u, Granted(slot.token));
      }
    }
    forall u, z | 0 <= u < |t.workers| && 0 <= z < |t.workers| && u != z ensures ApartFrom(t.workers[u], t.workers[z]) {
      assert ApartFrom(s.workers[u], s.workers[z]);
      assert WorkerOk(s, u) && WorkerOk(s, z);
    }
  }

  lemma {:induction false} AcquireKeeps(s: Sys, w: nat, slot: Slot)
    requires Inv(s) && w < |s.workers| && s.workers[w].Ready? && slot.token !in s.tokens
    ensures Inv(Next(s, Acquire(w, slot)))
  {
    if CanTake(s.value, slot.source) {
      LosingKeeps(s);
      var m := Seen(s, LostNow(s.value)).(value := None);
      GrantKeeps(m, w, slot);
      assert m.log + [Granted(slot.token)] == s.log + (LostNow(s.value) + [Granted(slot.token)]);
    } else {
      var t := s.(tokens := s.tokens + {slot.token});
      forall u | 0 <= u < |t.workers| ensures WorkerOk(t, u) {
        assert WorkerOk(s, u);
      }
    }
  }

  lemma {:induction false} CheckKeeps(s: Sys, w: nat)
    requires Inv(s) && w < |s.workers| && s.workers[w].Checking?
    ensures Inv(Next(s, Check(w)))
  {
    var slot := s.workers[w].slot;
    assert WorkerOk(s, w);
    var e := Checked(slot.token, s.value);
    var x := if Holds(s.value, slot.token) then Recording(slot) else Releasing(slot);
    var t := Seen(Put(s, w, x), [e]);
    if Holds(s.value, slot.token) {
      assert Clear(t.log, |s.log|, slot.token);
    }
    OneEventKeeps(s, w, x, e, s.value);
  }

  lemma {:induction false} RecordKeeps(s: Sys, w: nat)
    requires Inv(s) && w < |s.workers| && s.workers[w].Recording?
    ensures Inv(Next(s, Record(w)))
  {
    var slot := s.workers[w].slot;
    assert WorkerOk(s, w);
    var e := RecordTried(slot.token);
    var t := Seen(Put(s, w, Sending(slot)), [e]);
    ClearStays(s.log, [e], |s.log|, slot.token);
    assert t.log[|s.log|] == e;
    OneEventKeeps(s, w, Sending(slot), e, s.value);
  }

  lemma {:induction false} NextKeeps(s: Sys, step: Step)
    requires Inv(s)
    ensures Inv(Next(s, step))
  {
    var t := Next(s, step);
    if t != s {
      match step
      case Join =>
        forall u | 0 <= u < |t.workers| ensures WorkerOk(t, u) {
          assert u < |s.workers| ==> WorkerOk(s, u);
        }
        forall u, z | 0 <= u < |t.workers| && 0 <= z < |t.workers| && u != z
          ensures ApartFrom(t.workers[u], t.workers[z])
        {
          assert u < |s.workers| && z < |s.workers| ==> ApartFrom(s.workers[u], s.workers[z]);
        }
      case Acquire(w, slot) => AcquireKeeps(s, w, slot);
      case Generate(w, ok) =>
        assert WorkerOk(s, w);
        QuietKeeps(s, w, t.workers[w]);
      case Check(w) => CheckKeeps(s, w);
      case Record(w) => RecordKeeps(s, w);
      case Publish(w, sent) =>
        assert WorkerOk(s, w);
        if sent {
          OneEventKeeps(s, w, Releasing(s.workers[w].slot), Published(s.workers[w].slot.token), s.value);
        } else {
          QuietKeeps(s, w, Releasing(s.workers[w].slot));
          assert t.log == s.log;
        }
      case Release(w) =>
        assert WorkerOk(s, w);
        OneEventKeeps(s, w, Ready, ReleaseTried(s.workers[w].slot.token), t.value);
      case Die(w) => QuietKeeps(s, w, Ready);
      case Expire => LosingKeeps(s);
    }
  }

  lemma {:induction false} AlwaysInv(steps: seq<Step>)
    ensures Inv(After(steps))
  {
    if steps != [] {
      AlwaysInv(steps[..|steps| - 1]);
      NextKeeps(After(steps[..|steps| - 1]), steps[|steps| - 1]);
    }
  }

  // ------------------------------------------------------------------ main results

  /** Every published reply was recorded (or the record tried) before, after a check that found its slot
      stored and not yet lost; and no slot publishes, records or is checked twice. */
  lemma {:induction false} RepliesAreDisciplined(steps: seq<Step>)
    ensures LogOk(After(steps).log)
  {
    AlwaysInv(steps);
  }

  lemma {:induction false} NeverClear(log: seq<Event>, i: nat, n: nat, token: string)
    requires i < |log| && log[i] == Lost(token)
    requires forall c :: 0 <= c < i ==> !(log[c].Checked? && log[c].token == token)
    ensures !ClearBefore(log, n, token)
  {
    forall c | 0 <= c < n ensures !Clear(log, c, token) {
      assert i < c ==> log[i] == Lost(token);
    }
  }

  /** A slot that is preempted or expires before its check never publishes, and never records. */
  lemma {:induction false} LostBeforeCheckNeverPublishes(steps: seq<Step>, i: nat, token: string)
    requires i < |After(steps).log| && After(steps).log[i] == Lost(token)
    requires forall c :: 0 <= c < i ==> !(After(steps).log[c].Checked? && After(steps).log[c].token == token)
    ensures forall p :: 0 <= p < |After(steps).log| ==>
              After(steps).log[p] != Published(token) && After(steps).log[p] != RecordTried(token)
  {
    var log := After(steps).log;
    AlwaysInv(steps);
    forall p | 0 <= p < |log| ensures log[p] != RecordTried(token) {
      assert EventOk(log, p);
      NeverClear(log, i, p, token);
    }
    forall p | 0 <= p < |log| ensures log[p] != Published(token) {
      assert EventOk(log, p);
    }
  }

  /** Position `p` publishes a reply whose slot was already lost. */
  ghost predicate Overtaken(log: seq<Event>, p: nat) {
    p < |log| && log[p].Published? && exists i :: 0 <= i < p && log[i] == Lost(log[p].token)
  }

  /** A published reply had been overtaken exactly when its slot was lost between its check and its
      publish: there is one check, at `c`, and nothing was lost before it. */
  lemma {:induction false} OvertakenExactlyWhen(steps: seq<Step>, p: nat) returns (c: nat)
    requires p < |After(steps).log| && After(steps).log[p].Published?
    ensures var log := After(steps).log;
            && c < p && Clear(log, c, log[p].token)
            && (Overtaken(log, p) <==> exists i :: c < i < p && log[i] == Lost(log[p].token))
  {
    var log := After(steps).log;
    var token := log[p].token;
    AlwaysInv(steps);
    assert EventOk(log, p);
    var r :| 0 <= r < p && log[r] == RecordTried(token) && ClearBefore(log, r, token);
    c :| 0 <= c < r && Clear(log, c, token);
    assert log[c] != Lost(token);
  }

  lemma {:induction false} Onwards(steps: seq<Step>, step: Step) returns (more: seq<Step>)
    ensures After(more) == Next(After(steps), step)
  {
    more := steps + [step];
    assert more[..|steps|] == steps;
  }

  lemma {:induction false} ReplyIsChecked(a: Slot) returns (steps: seq<Step>)
    ensures After(steps) == Sys(Some(HeldBy(a)), [Recording(a), Ready], {a.token},
                                [Granted(a.token), Checked(a.token, Some(HeldBy(a)))])
  {
    steps := Onwards([], Join);
    steps := Onwards(steps, Join);
    assert After(steps) == Sys(None, [Ready, Ready], {}, []);
    steps := Onwards(steps, Acquire(0, a));
    steps := Onwards(steps, Generate(0, true));
    assert After(steps) == Sys(Some(HeldBy(a)), [Checking(a), Ready], {a.token}, [Granted(a.token)]);
    steps := Onwards(steps, Check(0));
  }

  /** A run in which it happens: a superchat takes the room between the check of a chat reply and its
      publish. */
  lemma {:induction false} ReplyCanBeOvertaken() returns (steps: seq<Step>)
    ensures |After(steps).log| == 6 && Overtaken(After(steps).log, 5)
    ensures After(steps).value == Some(Held(3, "b"))
  {
    var a, b := Slot(Chat, "a"), Slot(Superchat, "b");
    steps := ReplyIsChecked(a);
    var log := After(steps).log;
    steps := Onwards(steps, Acquire(1, b));
    log := log + [Lost("a"), Granted("b")];
    assert After(steps) == Sys(Some(HeldBy(b)), [Recording(a), Generating(b)], {"a", "b"}, log);
    steps := Onwards(steps, Record(0));
    log := log + [RecordTried("a")];
    assert After(steps) == Sys(Some(HeldBy(b)), [Sending(a), Generating(b)], {"a", "b"}, log);
    steps := Onwards(steps, Publish(0, true));
    assert After(steps).log == log + [Published("a")];
    assert After(steps).log[2] == Lost("a");
  }

  /** A worker that is ready gets a free room, and a held one exactly when its source may interrupt the
      holder's, who then has lost it. */
  lemma {:induction false} GrantedExactlyWhen(s: Sys, w: nat, slot: Slot, holder: Slot)
    requires w < |s.workers| && s.workers[w].Ready? && slot.token !in s.tokens && slot.token != holder.token
    requires s.value.None? || s.value == Some(HeldBy(holder))
    ensures var t := Next(s, Acquire(w, slot));
            var granted := s.value.None? || (slot.source, holder.source) in PREEMPTS;
            && (t.workers[w] == Generating(slot) <==> granted)
            && (t.value == Some(HeldBy(slot)) <==> granted)
            && (t.log == s.log + [Lost(holder.token), Granted(slot.token)] <==> granted && s.value.Some?)
            && (!granted ==> t == s.(tokens := t.tokens))
  {
    PreemptsExactlyWhen(holder.source, holder.token, slot.source);
    assert s.value.Some? && (slot.source, holder.source) !in PREEMPTS ==> Next(s, Acquire(w, slot)).log == s.log;
    assert |s.log + [Lost(holder.token), Granted(slot.token)]| == |s.log| + 2;
  }

  /** The slot can expire at any moment, and is lost then. */
  lemma {:induction false} ExpiryLosesTheSlot(s: Sys)
    requires s.value.Some?
    ensures Next(s, Expire).value.None? && Next(s, Expire).log == s.log + [Lost(s.value.value.token)]
  {
  }

  /** From the check on, a worker goes through the record, the publish and the release, and the channel sees
      the reply exactly when the publish went through. */
  lemma {:induction false} CheckedWorkerGoesOn(s: Sys, w: nat, sent: bool)
    requires w < |s.workers| && s.workers[w].Checking?
    ensures var slot := s.workers[w].slot;
            var checked := Next(s, Check(w));
            var gone := Next(Next(checked, Record(w)), Publish(w, sent));
            var mine := s.value.Some? && s.value.value.token == slot.token;
            && gone.workers[w] == Releasing(slot) && gone.value == s.value
            && gone.log == s.log + [Checked(slot.token, s.value)]
                 + (if mine then [RecordTried(slot.token)] else [])
                 + (if mine && sent then [Published(slot.token)] else [])
  {
  }

  /** A release removes the stored slot only when it is the worker's own, and no other step of a worker
      removes anything. */
  lemma {:induction false} OnlyOwnSlotIsReleased(s: Sys, step: Step)
    requires !step.Acquire? && !step.Expire?
    ensures Next(s, step).value == s.value
            || (step.Release? && s.workers[step.worker].Releasing?
                && Holds(s.value, s.workers[step.worker].slot.token) && Next(s, step).value.None?)
  {
  }

  predicate Active(s: Sys, token: string) {
    exists w :: 0 <= w < |s.workers| && !s.workers[w].Ready? && s.workers[w].slot.token == token
  }

  lemma {:induction false} ActiveUntilReleased(s: Sys, step: Step, token: string)
    requires Active(s, token) && !step.Die?
    ensures Active(Next(s, step), token) || ReleaseTried(token) in Next(s, step).log
  {
    var t := Next(s, step);
    var w :| 0 <= w < |s.workers| && !s.workers[w].Ready? && s.workers[w].slot.token == token;
    if t.workers[w].Ready? {
      assert t.log[|s.log|] == ReleaseTried(token);
    } else {
      assert t.workers[w].slot.token == token;
    }
  }

  /** Unless the process dies, every exit goes through the release: a granted slot is still being worked
      on or its release has been tried. */
  lemma {:induction false} EveryExitReleases(steps: seq<Step>, i: nat)
    requires forall k :: 0 <= k < |steps| ==> !steps[k].Die?
    requires i < |After(steps).log| && After(steps).log[i].Granted?
    ensures Active(After(steps), After(steps).log[i].token)
            || ReleaseTried(After(steps).log[i].token) in After(steps).log
  {
    var front, s, t := steps[..|steps| - 1], After(steps[..|steps| - 1]), After(steps);
    var token := t.log[i].token;
    if i < |s.log| {
      EveryExitReleases(front, i);
      if ReleaseTried(token) in s.log {
        var k :| 0 <= k < |s.log| && s.log[k] == ReleaseTried(token);
        assert t.log[k] == ReleaseTried(token);
      } else {
        ActiveUntilReleased(s, steps[|steps| - 1], token);
      }
    } else {
      var step := steps[|steps| - 1];
      assert step.Acquire?;
      assert !t.workers[step.worker].Ready?;
    }
  }
}
