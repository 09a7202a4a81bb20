/** `ProgressService.advance`: answer a comment, read a story, or speak first. */
module RoomProgress {
  import opened Prelude
  import opened ResponseSlots
  import opened RedisCoordinator
  import opened StoryQueue
  import opened CandidateBuffers
  import opened LexicalClustering
  import opened CommentSelection
  import opened RoomAbandonment

  const LOCK_TTL: real := 30.0

  /** SET NX with an expiry, and DELETE: no token. */
  class IdleLock {
    var until: Option<real>

    constructor ()
      ensures until.None?
    {
      until := None;
    }

    predicate HeldAt(now: real)
      reads this
    {
      until.Some? && now < until.value
    }

    /** Of two callers within the lock's life, without a release between them, only the first gets in. */
    method Acquire(now: real) returns (ok: bool)
      modifies this
      ensures ok == !old(HeldAt(now))
      ensures until == if ok then Some(now + LOCK_TTL) else old(until)
      ensures ok ==> forall later :: now <= later ==> (HeldAt(later) <==> later < now + 30.0)
    {
      ok := !HeldAt(now);
      if ok {
        until := Some(now + LOCK_TTL);
      }
    }

    method Release()
      modifies this
      ensures forall now :: !HeldAt(now)
    {
      until := None;
    }
  }

  datatype Wanted = AnswerComment(chosen: Scored) | ReadStory(story: nat) | SelfTalk

  function SourceOf(w: Wanted): ChatSource {
    match w
    case AnswerComment(_) => Chat
    case ReadStory(_) => ChatSource.Story
    case SelfTalk => Idle
  }

  datatype GenerationRequest = GenerationRequest(source: ChatSource, wanted: Wanted)

  /** How the calls of one `advance` to Redis, the database and Kafka end; an audience that cannot be
      counted raises. */
  datatype World = World(
    take: Remote, viewers: Option<nat>, clockUp: bool, claim: Remote,
    publish: Remote, mark: Remote, release: Remote)

  datatype Planned = Silent | Speak(wanted: Wanted) | Broken

  datatype Outcome = Skipped | Nothing | Advanced(wanted: Wanted) | Raised

  // ------------------------------------------------------------------ specification

  /** Comments first; unasked speech only to an audience, and only after silence. */
  function Plan(batch: seq<Candidate>, w: World, idle: bool, rows: seq<StoryQueue.Story>, persona: string): Planned {
    var best := SelectBest(TopicsOf(Buckets(batch)));
    if !w.take.Fine? then Broken
    else if batch != [] && best.Some? then Speak(AnswerComment(best.value))
    else if w.viewers.None? then Broken
    else if w.viewers.value == 0 then Silent
    else if !w.clockUp then Broken
    else if !idle then Silent
    else
      var k := FirstPending(rows, persona, {}, 0);
      if w.claim.Down? || (k < |rows| && w.claim.Unheard?) then Broken
      else Speak(if k < |rows| then ReadStory(k) else SelfTalk)
  }

  /** Somebody wanted to claim a story, and the claim committed. */
  predicate Claims(batch: seq<Candidate>, w: World, idle: bool, rows: seq<StoryQueue.Story>, persona: string) {
    && w.take.Fine? && batch == [] && w.viewers.Some? && w.viewers.value > 0 && w.clockUp && idle && !w.claim.Down?
    && FirstPending(rows, persona, {}, 0) < |rows|
  }

  predicate Quiet(last: Option<real>, now: real, threshold: real) {
    var e := Elapsed(last, now);
    e.None? || e.value >= threshold
  }

  function Sent(plan: Planned, w: World): seq<GenerationRequest> {
    if plan.Speak? && !w.publish.Down? then [GenerationRequest(SourceOf(plan.wanted), plan.wanted)] else []
  }

  predicate GoesWell(wanted: Wanted, w: World) {
    w.publish.Fine? && (w.mark.Fine? || !wanted.ReadStory?)
  }

  function OutcomeOf(plan: Planned, w: World): Outcome {
    match plan
    case Silent => Nothing
    case Broken => Raised
    case Speak(wanted) => if GoesWell(wanted, w) then Advanced(wanted) else Raised
  }

  /** Exactly one request more, from this source. */
  predicate Asked(before: seq<GenerationRequest>, after: seq<GenerationRequest>, source: ChatSource) {
    |after| == |before| + 1 && after[..|before|] == before && after[|before|].source == source
  }

  /** Nobody asked, somebody watches, the room is silent, and no story waits. */
  ghost predicate TalksToItself(batch: seq<Candidate>, w: World, idle: bool, rows: seq<StoryQueue.Story>, persona: string) {
    && w.take.Fine? && batch == [] && w.viewers.Some? && w.viewers.value > 0 && w.clockUp && idle && !w.claim.Down?
    && forall i :: 0 <= i < |rows| ==> !(rows[i].persona == persona && rows[i].status == StoryStatus.Pending)
  }

  /** The call succeeds exactly when its request went out unharmed and, for a story, so did the mark. */
  lemma {:induction false} AdvancedExactlyWhen(
    batch: seq<Candidate>, w: World, idle: bool, rows: seq<StoryQueue.Story>, persona: string, wanted: Wanted)
    ensures var plan := Plan(batch, w, idle, rows, persona);
            && (OutcomeOf(plan, w) == Advanced(wanted) <==>
                  && Sent(plan, w) != [] && Sent(plan, w)[0].wanted == wanted
                  && w.publish.Fine? && (wanted.ReadStory? ==> w.mark.Fine?))
            && (OutcomeOf(plan, w).Nothing? <==>
                  w.take.Fine? && batch == [] && w.viewers.Some? && (w.viewers.value == 0 || (w.clockUp && !idle)))
            && !OutcomeOf(plan, w).Skipped?
  {
    NonEmptyBatchYieldsAChoice(batch);
  }

  /** A request carries the source of what it is for: an answer, a story, or unasked talk. */
  lemma {:induction false} RequestsSayWhatTheyAreFor(
    batch: seq<Candidate>, w: World, idle: bool, rows: seq<StoryQueue.Story>, persona: string)
    requires !w.publish.Down?
    ensures var sent := Sent(Plan(batch, w, idle, rows, persona), w);
            && (w.take.Fine? && batch != [] ==> |sent| == 1 && sent[0].source == Chat && sent[0].wanted.AnswerComment?)
            && (Claims(batch, w, idle, rows, persona) && w.claim.Fine? ==>
                  sent == [GenerationRequest(ChatSource.Story, ReadStory(FirstPending(rows, persona, {}, 0)))])
            && (TalksToItself(batch, w, idle, rows, persona) ==> sent == [GenerationRequest(Idle, SelfTalk)])
            && (sent != [] ==> (w.take.Fine? && batch != []) || (Claims(batch, w, idle, rows, persona) && w.claim.Fine?)
                               || TalksToItself(batch, w, idle, rows, persona))
  {
    NonEmptyBatchYieldsAChoice(batch);
  }

  /** What becomes of a claimed story. */
  function Fate(w: World): StoryStatus {
    if !w.claim.Fine? then Reading                                // nobody knows it was claimed
    else if w.publish.Fine? && !w.mark.Down? then StoryStatus.Done
    else if w.release.Down? then Reading
    else StoryStatus.Pending
  }

  /** The stories after a claimed one has been carried out. */
  function Settled(rows: seq<StoryQueue.Story>, k: nat, w: World): seq<StoryQueue.Story> {
    var marked := if w.publish.Fine? && !w.mark.Down? then WithStatus(rows, k, StoryStatus.Done) else rows;
    if (w.publish.Fine? && w.mark.Fine?) || w.release.Down? then marked else Requeued(marked, k)
  }

  lemma {:induction false} SettledIsFate(rows: seq<StoryQueue.Story>, persona: string, w: World)
    requires w.claim.Fine?
    ensures var k := FirstPending(rows, persona, {}, 0);
            k < |rows| ==> Settled(WithStatus(rows, k, Reading), k, w) == WithStatus(rows, k, Fate(w))
  {
    ClaimsAreUndone(rows, persona);
  }

  /** A story is claimed exactly when it is what will be said, or when nobody hears that it was. */
  lemma {:induction false} ClaimedIsToBeRead(
    batch: seq<Candidate>, w: World, idle: bool, rows: seq<StoryQueue.Story>, persona: string)
    ensures var plan, k := Plan(batch, w, idle, rows, persona), FirstPending(rows, persona, {}, 0);
            && (Claims(batch, w, idle, rows, persona) ==>
                  if w.claim.Fine? then plan == Speak(ReadStory(k)) else plan.Broken? && Fate(w) == Reading)
            && (!Claims(batch, w, idle, rows, persona) ==> !(plan.Speak? && plan.wanted.ReadStory?))
  {
    NonEmptyBatchYieldsAChoice(batch);
  }

  class ProgressService {
    const key: ResponseKey
    const lock: IdleLock
    const buffer: CandidateBuffer
    const stories: StoryRepository
    const activity: ActivityTracker
    var requests: seq<GenerationRequest>

    constructor (key: ResponseKey, lock: IdleLock, buffer: CandidateBuffer, stories: StoryRepository,
                 activity: ActivityTracker)
      ensures this.key == key && this.lock == lock && this.buffer == buffer
      ensures this.stories == stories && this.activity == activity && requests == []
    {
      this.key, this.lock, this.buffer, this.stories, this.activity := key, lock, buffer, stories, activity;
      requests := [];
    }

    /** The batch is consumed whatever is planned, unless taking it fails outright; a story only when it is
        to be read. */
    method MakePlan(persona: string, now: real, threshold: real, w: World) returns (plan: Planned)
      requires buffer.Valid() && activity.Valid()
      modifies buffer, stories
      ensures buffer.Valid() && buffer.items == if w.take.Down? then old(buffer.items) else []
      ensures var idle := Quiet(activity.value, now, threshold);
              && plan == Plan(Parsed(old(buffer.items)), w, idle, old(stories.rows), persona)
              && stories.rows ==
                   if Claims(Parsed(old(buffer.items)), w, idle, old(stories.rows), persona)
                   then WithStatus(old(stories.rows), FirstPending(old(stories.rows), persona, {}, 0), Reading)
                   else old(stories.rows)
    {
      NonEmptyBatchYieldsAChoice(Parsed(buffer.items));
      if w.take.Down? {
        return Broken;
      }
      var candidates := buffer.TakeAll();
      if w.take.Unheard? {
        return Broken;
      }
      if candidates != [] {
        var topics := Cluster(candidates);
        var best := SelectBest(topics);
        if best.Some? {
          return Speak(AnswerComment(best.value));
        }
      }
      if w.viewers.None? {
        return Broken;
      }
      if w.viewers.value == 0 {
        return Silent;
      }
      if !w.clockUp {
        return Broken;
      }
      var idle := activity.IsIdle(now, threshold);
      if !idle {
        return Silent;
      }
      if w.claim.Down? {
        return Broken;
      }
      var story := stories.ClaimNextPending(persona);
      if story.Some? && w.claim.Unheard? {
        return Broken;
      }
      return Speak(if story.Some? then ReadStory(story.value) else SelfTalk);
    }

    /** Sends the request and marks a claimed story; whatever raises, a claimed story is released. */
    method CarryOut(wanted: Wanted, w: World) returns (ok: bool)
      modifies this, stories
      ensures ok == GoesWell(wanted, w)
      ensures requests == old(requests) + Sent(Speak(wanted), w)
      ensures stories.rows ==
                if wanted.ReadStory? then Settled(old(stories.rows), wanted.story, w) else old(stories.rows)
    {
      if !w.publish.Down? {
        requests := requests + [GenerationRequest(SourceOf(wanted), wanted)];
      }
      ok := w.publish.Fine?;
      if ok && wanted.ReadStory? {
        if !w.mark.Down? {
          stories.MarkDone(wanted.story);
        }
        ok := w.mark.Fine?;
      }
      if !ok && wanted.ReadStory? && !w.release.Down? {
        stories.Release(wanted.story);
      }
    }

    /** What happens under the lock. */
    method Proceed(persona: string, now: real, threshold: real, w: World) returns (outcome: Outcome)
      requires buffer.Valid() && activity.Valid()
      modifies this, buffer, stories
      ensures buffer.Valid() && buffer.items == if w.take.Down? then old(buffer.items) else []
      ensures var batch, idle, before := Parsed(old(buffer.items)), Quiet(activity.value, now, threshold), old(stories.rows);
              var plan := Plan(batch, w, idle, before, persona);
              && outcome == OutcomeOf(plan, w)
              && requests == old(requests) + Sent(plan, w)
              && stories.rows == if Claims(batch, w, idle, before, persona)
                                 then WithStatus(before, FirstPending(before, persona, {}, 0), Fate(w)) else before
    {
      ClaimedIsToBeRead(Parsed(buffer.items), w, Quiet(activity.value, now, threshold), stories.rows, persona);
      if w.claim.Fine? {
        SettledIsFate(stories.rows, persona, w);
      }
      var plan := MakePlan(persona, now, threshold, w);
      match plan
      case Silent => return Nothing;
      case Broken => return Raised;
      case Speak(wanted) =>
        var ok := CarryOut(wanted, w);
        return if ok then Advanced(wanted) else Raised;
    }

    /** A busy or taken room is left alone: nothing is consumed. Otherwise the batch is consumed whatever
        follows, the lock is free again on every exit, the clock is touched only on success, and a claimed
        story ends DONE when its request went out and its mark was written, READING when nobody could
        give it back, and otherwise where it was. */
    method Advance(persona: string, now: real, threshold: real, w: World) returns (outcome: Outcome)
      requires buffer.Valid() && activity.Valid()
      modifies this, lock, buffer, stories, activity
      ensures buffer.Valid() && activity.Valid()
      ensures key.Current().Some? || old(lock.HeldAt(now)) ==>
                && outcome.Skipped? && requests == old(requests) && buffer.items == old(buffer.items)
                && stories.rows == old(stories.rows) && activity.value == old(activity.value)
                && lock.until == old(lock.until)
      ensures key.Current().None? && !old(lock.HeldAt(now)) ==>
                var batch, idle := Parsed(old(buffer.items)), Quiet(old(activity.value), now, threshold);
                var before := old(stories.rows);
                var plan := Plan(batch, w, idle, before, persona);
                && !lock.HeldAt(now)
                && buffer.items == (if w.take.Down? then old(buffer.items) else [])
                && requests == old(requests) + Sent(plan, w)
                && stories.rows == (if Claims(batch, w, idle, before, persona)
                                    then WithStatus(before, FirstPending(before, persona, {}, 0), Fate(w)) else before)
                && outcome == OutcomeOf(plan, w)
                && activity.value == (if outcome.Advanced? then Some(now) else old(activity.value))
                && (w.publish.Down? ==> requests == old(requests))
                && (!w.publish.Down? && w.take.Fine? && batch != [] ==>
                      Asked(old(requests), requests, Chat))
                && (!w.publish.Down? && Claims(batch, w, idle, before, persona) && w.claim.Fine? ==>
                      Asked(old(requests), requests, ChatSource.Story))
                && (!w.publish.Down? && TalksToItself(batch, w, idle, before, persona) ==>
                      Asked(old(requests), requests, Idle))
    {
      if !w.publish.Down? {
        RequestsSayWhatTheyAreFor(Parsed(buffer.items), w, Quiet(activity.value, now, threshold), stories.rows, persona);
      }
      var busy := key.IsBusy();
      if busy {
        return Skipped;
      }
      var mine := lock.Acquire(now);
      if !mine {
        return Skipped;
      }
      outcome := Proceed(persona, now, threshold, w);
      lock.Release();
      if outcome.Advanced? {
        activity.Touch(now);
      }
    }
  }

  lemma {:induction false} ClaimsAreUndone(rows: seq<StoryQueue.Story>, persona: string)
    ensures var k := FirstPending(rows, persona, {}, 0);
            var claimed := WithStatus(rows, k, Reading);
            && Requeued(claimed, k) == rows
            && (k < |rows| ==>
                  && WithStatus(rows, k, StoryStatus.Pending) == rows
                  && WithStatus(claimed, k, StoryStatus.Done) == WithStatus(rows, k, StoryStatus.Done)
                  && Requeued(WithStatus(claimed, k, StoryStatus.Done), k) == WithStatus(rows, k, StoryStatus.Done))
  {
    ReleaseUndoesClaim(rows, persona);
  }

  // ------------------------------------------------------------------ what it means

  /** The silence that unasked speech waits for: no activity as recent as the threshold, or as an hour. */
  lemma {:induction false} QuietExactlyWhen(created: real, touches: seq<real>, threshold: real, now: real)
    requires History(created, touches, now)
    ensures Quiet(LastTouch(touches), now, threshold) <==>
              forall i :: 0 <= i < |touches| ==> now - touches[i] >= threshold || now - touches[i] >= 3600.0
  {
    IdleExactlyWhen(created, touches, threshold, now);
  }

  /** Consumed comments are always answered: a batch with any readable comment never falls through to a
      story or to self-talk, and the answer is to one of them. */
  lemma {:induction false} ConsumedCommentsAreAnswered(
    batch: seq<Candidate>, w: World, idle: bool, rows: seq<StoryQueue.Story>, persona: string)
    ensures var plan := Plan(batch, w, idle, rows, persona);
            && (plan.Speak? && plan.wanted.AnswerComment? <==> w.take.Fine? && batch != [])
            && (plan.Speak? && plan.wanted.AnswerComment? ==> plan.wanted.chosen.candidate in batch)
  {
    NonEmptyBatchYieldsAChoice(batch);
  }

  ghost predicate HasPending(rows: seq<StoryQueue.Story>, persona: string) {
    exists i :: 0 <= i < |rows| && rows[i].persona == persona && rows[i].status == StoryStatus.Pending
  }

  /** Nobody asked: while nothing raises, the persona speaks exactly when there is no comment, somebody
      watches and the room is silent; then it reads its oldest waiting story, and talks to itself exactly
      when it has none. */
  lemma {:induction false} UnaskedSpeechNeedsASilentAudience(
    batch: seq<Candidate>, w: World, idle: bool, rows: seq<StoryQueue.Story>, persona: string)
    requires w.take.Fine? && w.viewers.Some? && w.clockUp && w.claim.Fine?
    ensures var plan := Plan(batch, w, idle, rows, persona);
            && (plan.Speak? && !plan.wanted.AnswerComment? <==> batch == [] && w.viewers.value > 0 && idle)
            && (plan.Speak? && plan.wanted.SelfTalk? ==> !HasPending(rows, persona))
            && (plan.Speak? && plan.wanted.ReadStory? ==>
                  var k := plan.wanted.story;
                  && k < |rows| && rows[k].persona == persona && rows[k].status == StoryStatus.Pending
                  && !HasPending(rows[..k], persona))
  {
    NonEmptyBatchYieldsAChoice(batch);
  }

  /** A story counts as read only when its request went out; and one whose request went out waits again
      exactly when the publish raised or the mark was not written, and it could be given back. */
  lemma {:induction false} StoriesAreConsumedByRequests(
    batch: seq<Candidate>, w: World, idle: bool, rows: seq<StoryQueue.Story>, persona: string)
    requires Claims(batch, w, idle, rows, persona)
    ensures var plan, k := Plan(batch, w, idle, rows, persona), FirstPending(rows, persona, {}, 0);
            && (Fate(w) == StoryStatus.Done ==> GenerationRequest(ChatSource.Story, ReadStory(k)) in Sent(plan, w))
            && (Sent(plan, w) != [] ==>
                  (Fate(w) == StoryStatus.Pending <==>
                     (w.publish.Unheard? || w.mark.Down?) && !w.release.Down?))
            && (OutcomeOf(plan, w).Advanced? ==> Fate(w) == StoryStatus.Done)
            && (Fate(w) == StoryStatus.Done <==> w.claim.Fine? && w.publish.Fine? && !w.mark.Down?)
            && (Fate(w) == StoryStatus.Pending <==>
                  w.claim.Fine? && (!w.publish.Fine? || w.mark.Down?) && !w.release.Down?)
            && (Fate(w) == Reading <==>
                  !w.claim.Fine? || ((!w.publish.Fine? || w.mark.Down?) && w.release.Down?))
  {
    NonEmptyBatchYieldsAChoice(batch);
  }
}
