/** Read-through caches over an expiring store that may fail at any call. */
module TtlCache {
  import opened Prelude

  /** A stored value that no longer parses reads as nothing. */
  datatype Entry<V> = Entry(value: Option<V>, expiresAt: real)

  /** Which of the store's calls go through. */
  datatype Weather = Weather(readsUp: bool, writesUp: bool, deletesUp: bool)

  predicate Hit<K, V>(cache: map<K, Entry<V>>, k: K, now: real, w: Weather) {
    w.readsUp && k in cache && now < cache[k].expiresAt && cache[k].value.Some?
  }

  /** A live entry that does not parse is deleted before the current value is read. */
  predicate Corrupt<K, V>(cache: map<K, Entry<V>>, k: K, now: real, w: Weather) {
    w.readsUp && k in cache && now < cache[k].expiresAt && cache[k].value.None?
  }

  function Served<K, V>(cache: map<K, Entry<V>>, k: K, now: real, w: Weather, current: V): V {
    if Hit(cache, k, now, w) then cache[k].value.value else current
  }

  function AfterRead<K, V>(cache: map<K, Entry<V>>, k: K, now: real, ttl: real, w: Weather, current: V): map<K, Entry<V>> {
    if Hit(cache, k, now, w) then cache
    else
      var c := if Corrupt(cache, k, now, w) && w.deletesUp then cache - {k} else cache;
      if w.writesUp then c[k := Entry(Some(current), now + ttl)] else c
  }

  function AfterDelete<K, V>(cache: map<K, Entry<V>>, k: K, w: Weather): map<K, Entry<V>> {
    if w.deletesUp then cache - {k} else cache
  }

  /** A read fills the cache: until the entry expires or is dropped, later reads are served from it. */
  lemma {:induction false} ReadFillsTheCache<K, V>(
    cache: map<K, Entry<V>>, k: K, now: real, later: real, ttl: real, w: Weather, current: V, other: V)
    requires !Hit(cache, k, now, w) && w.readsUp && w.writesUp && now <= later < now + ttl
    ensures var filled := AfterRead(cache, k, now, ttl, w, current);
            && Served(filled, k, later, w, other) == current
            && AfterRead(filled, k, later, ttl, w, other) == filled
  {
  }

  // ------------------------------------------------------------------ runs

  /** `past` records the store of truth at every moment so far. */
  datatype Sys<T, K, V> = Sys(truth: T, cache: map<K, Entry<V>>, now: real, past: seq<(real, T)>)

  datatype Step<T, K, V> =
    | Wait(seconds: real)
    | Change(truth: T, drops: Option<K>, weather: Weather)   // a write, and the key it invalidates if any
    | Read(key: K, weather: Weather, answer: V)              // what the database would answer, if asked
    | Garble(key: K)                                         // a stored value in an old format

  function Noted<T, K, V>(s: Sys<T, K, V>): Sys<T, K, V> { s.(past := s.past + [(s.now, s.truth)]) }

  /** `right` says which answers the database may give; there may be several. */
  ghost function Next<T, K, V>(s: Sys<T, K, V>, right: (T, K, V) -> bool, ttl: real, step: Step<T, K, V>): Sys<T, K, V> {
    match step
    case Wait(d) => if d > 0.0 then Noted(s.(now := s.now + d)) else s
    case Change(t, drops, w) =>
      Noted(s.(truth := t, cache := if drops.Some? then AfterDelete(s.cache, drops.value, w) else s.cache))
    case Read(k, w, v) =>
      if right(s.truth, k, v) then Noted(s.(cache := AfterRead(s.cache, k, s.now, ttl, w, v))) else s
    case Garble(k) => if k in s.cache then Noted(s.(cache := s.cache[k := s.cache[k].(value := None)])) else s
  }

  function Start<T, K, V>(truth: T, now: real): Sys<T, K, V> { Sys(truth, map[], now, [(now, truth)]) }

  ghost function After<T, K, V>(truth: T, now: real, right: (T, K, V) -> bool, ttl: real, steps: seq<Step<T, K, V>>)
    : Sys<T, K, V>
  {
    if steps == [] then Start(truth, now)
    else Next(After(truth, now, right, ttl, steps[..|steps| - 1]), right, ttl, steps[|steps| - 1])
  }

  /** At moment `i`, less than `ttl` before the entry expires, the truth was what the entry says. */
  ghost predicate Witness<T, K, V>(past: seq<(real, T)>, right: (T, K, V) -> bool, ttl: real, k: K, e: Entry<V>, i: nat) {
    i < |past| && past[i].0 >= e.expiresAt - ttl && e.value.Some? && right(past[i].1, k, e.value.value)
  }

  ghost predicate EntryOk<T, K, V>(past: seq<(real, T)>, right: (T, K, V) -> bool, ttl: real, k: K, e: Entry<V>) {
    e.value.Some? ==> exists i :: Witness(past, right, ttl, k, e, i)
  }

  ghost predicate Inv<T, K, V>(s: Sys<T, K, V>, right: (T, K, V) -> bool, ttl: real) {
    && s.past != [] && s.past[|s.past| - 1] == (s.now, s.truth)
    && (forall i :: 0 <= i < |s.past| ==> s.past[i].0 <= s.now)
    && (forall k :: k in s.cache ==> EntryOk(s.past, right, ttl, k, s.cache[k]))
  }

  lemma {:induction false} EntryStays<T, K, V>(
    past: seq<(real, T)>, more: seq<(real, T)>, right: (T, K, V) -> bool, ttl: real, k: K, e: Entry<V>)
    requires EntryOk(past, right, ttl, k, e) && past <= more
    ensures EntryOk(more, right, ttl, k, e)
  {
    if e.value.Some? {
      var i :| Witness(past, right, ttl, k, e, i);
      assert Witness(more, right, ttl, k, e, i);
    }
  }

  lemma {:induction false} NextKeeps<T, K, V>(s: Sys<T, K, V>, right: (T, K, V) -> bool, ttl: real, step: Step<T, K, V>)
    requires Inv(s, right, ttl)
    ensures Inv(Next(s, right, ttl, step), right, ttl)
  {
    var t := Next(s, right, ttl, step);
    forall k | k in t.cache ensures EntryOk(t.past, right, ttl, k, t.cache[k]) {
      if k in s.cache && t.cache[k] == s.cache[k] {
        EntryStays(s.past, t.past, right, ttl, k, s.cache[k]);
      } else if step.Read? {
        assert Witness(t.past, right, ttl, k, t.cache[k], |s.past|);
      }
    }
  }

  lemma {:induction false} AlwaysInv<T, K, V>(
    truth: T, now: real, right: (T, K, V) -> bool, ttl: real, steps: seq<Step<T, K, V>>)
    ensures Inv(After(truth, now, right, ttl, steps), right, ttl)
  {
    if steps != [] {
      var front := steps[..|steps| - 1];
      AlwaysInv(truth, now, right, ttl, front);
      NextKeeps(After(truth, now, right, ttl, front), right, ttl, steps[|steps| - 1]);
    }
  }

  /** Any entry can turn unreadable. */
  lemma {:induction false} EntriesCanGarble<T, K, V>(s: Sys<T, K, V>, right: (T, K, V) -> bool, ttl: real, k: K)
    requires k in s.cache
    ensures var t := Next(s, right, ttl, Garble(k)); k in t.cache && t.cache[k].value.None?
  {
  }

  /** Under any pattern of store failures and garbled values, and whichever right answer the database gives
      when asked, what a read serves was a right answer at a moment less than `ttl` ago. */
  lemma {:induction false} ServedWasTrueRecently<T, K, V>(
    truth: T, now: real, right: (T, K, V) -> bool, ttl: real, steps: seq<Step<T, K, V>>, k: K, w: Weather, answer: V)
    returns (i: nat)
    requires ttl > 0.0 && right(After(truth, now, right, ttl, steps).truth, k, answer)
    ensures var s := After(truth, now, right, ttl, steps);
            && i < |s.past|
            && s.now - ttl < s.past[i].0 <= s.now
            && right(s.past[i].1, k, Served(s.cache, k, s.now, w, answer))
  {
    var s := After(truth, now, right, ttl, steps);
    AlwaysInv(truth, now, right, ttl, steps);
    if Hit(s.cache, k, s.now, w) {
      assert EntryOk(s.past, right, ttl, k, s.cache[k]);
      i :| Witness(s.past, right, ttl, k, s.cache[k], i);
    } else {
      i := |s.past| - 1;
    }
  }

  /** A write that changes nothing but what is read under the key it invalidates, with the store up. */
  ghost predicate Announced<T(!new), K(!new), V(!new)>(s: Sys<T, K, V>, right: (T, K, V) -> bool, step: Step<T, K, V>) {
    step.Change? ==>
      && step.weather.deletesUp && step.drops.Some?
      && forall k, v :: k != step.drops.value && right(s.truth, k, v) ==> right(step.truth, k, v)
  }

  ghost predicate AllCurrent<T, K, V>(s: Sys<T, K, V>, right: (T, K, V) -> bool) {
    forall k :: k in s.cache && s.cache[k].value.Some? ==> right(s.truth, k, s.cache[k].value.value)
  }

  /** When every write invalidates its key and no delete fails, a read always serves a current answer. */
  lemma {:induction false} AnnouncedWritesKeepCurrent<T(!new), K(!new), V(!new)>(
    truth: T, now: real, right: (T, K, V) -> bool, ttl: real, steps: seq<Step<T, K, V>>)
    requires forall n :: 0 <= n < |steps| ==> Announced(After(truth, now, right, ttl, steps[..n]), right, steps[n])
    ensures var s := After(truth, now, right, ttl, steps);
            && AllCurrent(s, right)
            && forall k, w, v :: right(s.truth, k, v) ==> right(s.truth, k, Served(s.cache, k, s.now, w, v))
  {
    if steps != [] {
      var n := |steps| - 1;
      var s, step := After(truth, now, right, ttl, steps[..n]), steps[n];
      forall m | 0 <= m < n
        ensures Announced(After(truth, now, right, ttl, steps[..n][..m]), right, steps[..n][m])
      {
        assert steps[..n][..m] == steps[..m];
        assert Announced(After(truth, now, right, ttl, steps[..m]), right, steps[m]);
      }
      AnnouncedWritesKeepCurrent(truth, now, right, ttl, steps[..n]);
      assert Announced(s, right, step);
    }
  }
}

/** Likes and the cached like count. */
module LikeCounts {
  import opened Prelude
  import opened TtlCache

  const TTL: real := 60.0

  type Likes = set<(string, string)>    // (persona, user)

  function LikersOf(likes: Likes, persona: string): set<string> {
    set l | l in likes && l.0 == persona :: l.1
  }

  function CountOf(likes: Likes, persona: string): nat {
    |LikersOf(likes, persona)|
  }

  class CachedLikeRepository {
    var likes: Likes
    var cache: map<string, Entry<nat>>

    constructor ()
      ensures likes == {} && cache == map[]
    {
      likes, cache := {}, map[];
    }

    method Invalidate(persona: string, w: Weather)
      modifies this`cache
      ensures cache == AfterDelete(old(cache), persona, w)
    {
      if w.deletesUp {
        cache := cache - {persona};
      }
    }

    method Add(persona: string, user: string, w: Weather)
      modifies this
      ensures likes == old(likes) + {(persona, user)}
      ensures cache == AfterDelete(old(cache), persona, w)
    {
      if (persona, user) !in likes {
        likes := likes + {(persona, user)};
      }
      Invalidate(persona, w);
    }

    method Remove(persona: string, user: string, w: Weather)
      modifies this
      ensures likes == old(likes) - {(persona, user)}
      ensures cache == AfterDelete(old(cache), persona, w)
    {
      if (persona, user) in likes {
        likes := likes - {(persona, user)};
      }
      Invalidate(persona, w);
    }

    method CountByPersona(persona: string, now: real, w: Weather) returns (count: nat)
      modifies this`cache
      ensures count == Served(old(cache), persona, now, w, CountOf(likes, persona))
      ensures cache == AfterRead(old(cache), persona, now, TTL, w, CountOf(likes, persona))
      ensures !Hit(old(cache), persona, now, w) ==> count == |LikersOf(likes, persona)|
      ensures !Hit(old(cache), persona, now, w) && w.writesUp ==>
                persona in cache && cache[persona] == Entry(Some(count), now + 60.0)
    {
      if w.readsUp && persona in cache && now < cache[persona].expiresAt {
        if cache[persona].value.Some? {
          return cache[persona].value.value;
        }
        Invalidate(persona, w);
      }
      count := CountOf(likes, persona);
      if w.writesUp {
        cache := cache[persona := Entry(Some(count), now + TTL)];
      }
    }
  }

  datatype Use =
    | Like(persona: string, user: string, weather: Weather)
    | Unlike(persona: string, user: string, weather: Weather)
    | Count(persona: string, weather: Weather)
    | Wait(seconds: real)

  /** What a use of the repository is, as a step of the cache. */
  function StepOf(likes: Likes, u: Use): Step<Likes, string, nat> {
    match u
    case Like(p, user, w) => Change(likes + {(p, user)}, Some(p), w)
    case Unlike(p, user, w) => Change(likes - {(p, user)}, Some(p), w)
    case Count(p, w) => Read(p, w, CountOf(likes, p))
    case Wait(d) => Step.Wait(d)
  }

  function StepsOf(us: seq<Use>): seq<Step<Likes, string, nat>> {
    if us == [] then []
    else StepsOf(us[..|us| - 1]) + [StepOf(LikesAfter(us[..|us| - 1]), us[|us| - 1])]
  }

  function LikesAfter(us: seq<Use>): Likes {
    if us == [] then {}
    else
      var before, u := LikesAfter(us[..|us| - 1]), us[|us| - 1];
      match u
      case Like(p, user, _) => before + {(p, user)}
      case Unlike(p, user, _) => before - {(p, user)}
      case _ => before
  }

  predicate IsCount(likes: Likes, persona: string, count: nat) {
    count == CountOf(likes, persona)
  }

  ghost function Run(us: seq<Use>): Sys<Likes, string, nat> {
    After({}, 0.0, IsCount, TTL, StepsOf(us))
  }

  lemma {:induction false} RunTracksLikes(us: seq<Use>)
    ensures Run(us).truth == LikesAfter(us)
  {
    if us != [] {
      RunTracksLikes(us[..|us| - 1]);
      assert StepsOf(us)[..|StepsOf(us)| - 1] == StepsOf(us[..|us| - 1]);
    }
  }

  lemma {:induction false} OnePersonaChanges(likes: Likes, p: string, user: string, k: string)
    requires k != p
    ensures CountOf(likes + {(p, user)}, k) == CountOf(likes, k)
    ensures CountOf(likes - {(p, user)}, k) == CountOf(likes, k)
  {
    forall x ensures x in LikersOf(likes + {(p, user)}, k) <==> x in LikersOf(likes, k) {
      assert x in LikersOf(likes, k) <==> (k, x) in likes;
      assert x in LikersOf(likes + {(p, user)}, k) <==> (k, x) in likes + {(p, user)};
    }
    forall x ensures x in LikersOf(likes - {(p, user)}, k) <==> x in LikersOf(likes, k) {
      assert x in LikersOf(likes, k) <==> (k, x) in likes;
      assert x in LikersOf(likes - {(p, user)}, k) <==> (k, x) in likes - {(p, user)};
    }
    assert LikersOf(likes + {(p, user)}, k) == LikersOf(likes, k);
    assert LikersOf(likes - {(p, user)}, k) == LikersOf(likes, k);
  }

  predicate IsLike(u: Use, persona: string, user: string) {
    u.Like? && u.persona == persona && u.user == user
  }

  predicate IsUnlike(u: Use, persona: string, user: string) {
    u.Unlike? && u.persona == persona && u.user == user
  }

  /** The i-th use is a like of theirs that is never taken back. */
  predicate LikeStands(us: seq<Use>, persona: string, user: string, i: nat) {
    i < |us| && IsLike(us[i], persona, user) && forall j :: i < j < |us| ==> !IsUnlike(us[j], persona, user)
  }

  lemma {:induction false} OneMoreUse(us: seq<Use>, persona: string, user: string, i: nat)
    requires us != [] && i < |us|
    ensures var n := |us| - 1;
            LikeStands(us, persona, user, i) <==>
              if i == n then IsLike(us[n], persona, user)
              else LikeStands(us[..n], persona, user, i) && !IsUnlike(us[n], persona, user)
  {
    var n := |us| - 1;
    forall j | 0 <= j < n ensures us[..n][j] == us[j] {
    }
  }

  /** A user counts for a persona exactly when a like of theirs was never taken back. */
  lemma {:induction false} CountIsOfStandingLikes(us: seq<Use>, persona: string, user: string)
    ensures user in LikersOf(LikesAfter(us), persona) <==> exists i :: LikeStands(us, persona, user, i)
  {
    assert user in LikersOf(LikesAfter(us), persona) <==> (persona, user) in LikesAfter(us);
    if us != [] {
      var n := |us| - 1;
      CountIsOfStandingLikes(us[..n], persona, user);
      assert user in LikersOf(LikesAfter(us[..n]), persona) <==> (persona, user) in LikesAfter(us[..n]);
      forall i: nat | i < |us|
        ensures LikeStands(us, persona, user, i) <==>
                  if i == n then IsLike(us[n], persona, user)
                  else LikeStands(us[..n], persona, user, i) && !IsUnlike(us[n], persona, user)
      {
        OneMoreUse(us, persona, user, i);
      }
      if IsLike(us[n], persona, user) {
        assert LikeStands(us, persona, user, n);
      } else if i :| LikeStands(us[..n], persona, user, i) {
        assert LikeStands(us, persona, user, i) <==> !IsUnlike(us[n], persona, user);
      }
    }
  }

  /** And the count is the number of those users. */
  lemma {:induction false} CountIsTheNumberOfUsers(us: seq<Use>, persona: string, users: set<string>)
    requires forall user :: user in users <==> exists i :: LikeStands(us, persona, user, i)
    ensures CountOf(LikesAfter(us), persona) == |users|
  {
    forall user ensures user in LikersOf(LikesAfter(us), persona) <==> user in users {
      CountIsOfStandingLikes(us, persona, user);
    }
    assert LikersOf(LikesAfter(us), persona) == users;
  }

  /** Under any pattern of Redis failures the like count a reader gets was the true count less than a
      minute ago. */
  lemma {:induction false} LikeCountWasTrueWithinAMinute(us: seq<Use>, persona: string, w: Weather) returns (i: nat)
    ensures var s := Run(us);
            && i < |s.past| && s.now - 60.0 < s.past[i].0 <= s.now
            && Served(s.cache, persona, s.now, w, CountOf(s.truth, persona)) == CountOf(s.past[i].1, persona)
            && s.truth == LikesAfter(us)
  {
    RunTracksLikes(us);
    i := ServedWasTrueRecently({}, 0.0, IsCount, TTL, StepsOf(us), persona, w, CountOf(LikesAfter(us), persona));
  }

  lemma {:induction false} StepsAre(us: seq<Use>, n: nat)
    requires n < |us|
    ensures |StepsOf(us)| == |us| && StepsOf(us)[n] == StepOf(LikesAfter(us[..n]), us[n])
    ensures StepsOf(us)[..n] == StepsOf(us[..n])
  {
    var m := |us| - 1;
    LengthOfSteps(us);
    LengthOfSteps(us[..m]);
    if n < m {
      StepsAre(us[..m], n);
      assert us[..m][..n] == us[..n];
      assert StepsOf(us)[..n] == StepsOf(us[..m])[..n];
    } else {
      assert us[..n] == us[..m];
    }
  }

  lemma {:induction false} LengthOfSteps(us: seq<Use>)
    ensures |StepsOf(us)| == |us|
  {
    if us != [] {
      LengthOfSteps(us[..|us| - 1]);
    }
  }

  /** If no invalidation fails the count is always current: after any likes, unlikes, reads and waits, a
      reader gets the number of users whose like stands. */
  lemma {:induction false} LikeCountIsCurrent(us: seq<Use>, persona: string, w: Weather)
    requires forall n :: 0 <= n < |us| && (us[n].Like? || us[n].Unlike?) ==> us[n].weather.deletesUp
    ensures var s := Run(us);
            Served(s.cache, persona, s.now, w, CountOf(s.truth, persona)) == CountOf(LikesAfter(us), persona)
  {
    RunTracksLikes(us);
    LengthOfSteps(us);
    forall n | 0 <= n < |StepsOf(us)|
      ensures Announced(After({}, 0.0, IsCount, TTL, StepsOf(us)[..n]), IsCount, StepsOf(us)[n])
    {
      StepsAre(us, n);
      RunTracksLikes(us[..n]);
      if us[n].Like? || us[n].Unlike? {
        forall k | k != us[n].persona
          ensures CountOf(StepsOf(us)[n].truth, k) == CountOf(LikesAfter(us[..n]), k)
        {
          OnePersonaChanges(LikesAfter(us[..n]), us[n].persona, us[n].user, k);
        }
      }
    }
    AnnouncedWritesKeepCurrent({}, 0.0, IsCount, TTL, StepsOf(us));
    assert IsCount(LikesAfter(us), persona, CountOf(LikesAfter(us), persona));
  }
}

/** The cached donor ranking: nothing invalidates it, and the limit is part of the key. */
module RankingCache {
  import opened Prelude
  import opened WalletDomain
  import opened DonationRanking
  import opened TtlCache

  const TTL: real := 30.0

  type Key = (Uuid, nat)    // (persona, limit)

  /** The database may list donors with equal total and equal first time in either order. */
  ghost predicate TrueRanking(ds: seq<Donation>, k: Key, rows: seq<DonorTotal>) {
    IsTop(ds, k.0, k.1, rows)
  }

  class CachedDonationRepository {
    var donations: seq<Donation>
    var cache: map<Key, Entry<seq<DonorTotal>>>

    constructor ()
      ensures donations == [] && cache == map[]
    {
      donations, cache := [], map[];
    }

    /** `answer` is what the database would answer, if asked. */
    method ReadTopDonors(persona: Uuid, limit: nat, now: real, w: Weather, answer: seq<DonorTotal>)
      returns (rows: seq<DonorTotal>)
      requires IsTop(donations, persona, limit, answer)
      modifies this`cache
      ensures rows == Served(old(cache), (persona, limit), now, w, answer)
      ensures cache == AfterRead(old(cache), (persona, limit), now, TTL, w, answer)
      ensures !Hit(old(cache), (persona, limit), now, w) ==> IsTop(donations, persona, limit, rows)
      ensures !Hit(old(cache), (persona, limit), now, w) && w.writesUp ==>
                (persona, limit) in cache && cache[(persona, limit)] == Entry(Some(rows), now + 30.0)
    {
      var key := (persona, limit);
      if w.readsUp && key in cache && now < cache[key].expiresAt {
        if cache[key].value.Some? {
          return cache[key].value.value;
        }
        if w.deletesUp {
          cache := cache - {key};
        }
      }
      rows := answer;
      if w.writesUp {
        cache := cache[key := Entry(Some(rows), now + TTL)];
      }
    }
  }

  /** Donations reach the table without passing the cache; each served ranking was a true top-N, for the
      very N asked for, less than thirty seconds ago, however the database ordered ties. */
  lemma {:induction false} RankingWasTrueWithinHalfAMinute(
    ds: seq<Donation>, now: real, steps: seq<Step<seq<Donation>, Key, seq<DonorTotal>>>,
    persona: Uuid, limit: nat, w: Weather, answer: seq<DonorTotal>)
    returns (i: nat)
    requires IsTop(After(ds, now, TrueRanking, TTL, steps).truth, persona, limit, answer)
    ensures var s := After(ds, now, TrueRanking, TTL, steps);
            && i < |s.past| && s.now - 30.0 < s.past[i].0 <= s.now
            && IsTop(s.past[i].1, persona, limit, Served(s.cache, (persona, limit), s.now, w, answer))
  {
    i := ServedWasTrueRecently(ds, now, TrueRanking, TTL, steps, (persona, limit), w, answer);
  }

  /** There is always an answer to give. */
  lemma {:induction false} SomeRankingIsTrue(ds: seq<Donation>, persona: Uuid, limit: nat)
    ensures TrueRanking(ds, (persona, limit), TopDonors(ds, persona, limit))
  {
    TopDonorsIsTop(ds, persona, limit);
  }
}
