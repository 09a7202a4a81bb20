/** Scoring comments and choosing the one to answer. */
module CommentSelection {
  import opened Prelude
  import opened CandidateBuffers
  import opened LexicalClustering

  const MIN_USEFUL := 6
  const IDEAL := 40

  const QUESTION_MARKS: seq<char> := ['?', '？']
  const QUESTION_WORDS: seq<string> := [
    "어떻게", "어떡", "왜", "뭐", "무엇", "언제", "누구", "어디",
    "할까", "될까", "괜찮", "맞나", "맞아", "인가요", "나요"]

  // ------------------------------------------------------------------ one comment

  predicate IsSpace(c: char) {
    || c in {' ', '\t', '\n', '\r', '\U{0B}', '\U{0C}', '\U{85}', '\U{A0}', '\U{1680}'}
    || '\U{1C}' <= c <= '\U{1F}' || '\U{2000}' <= c <= '\U{200A}'
    || c in {'\U{2028}', '\U{2029}', '\U{202F}', '\U{205F}', '\U{3000}'}
  }

  function StripLeft(s: string): string {
    if s != "" && IsSpace(s[0]) then StripLeft(s[1..]) else s
  }

  function StripRight(s: string): string {
    if s != "" && IsSpace(s[|s| - 1]) then StripRight(s[..|s| - 1]) else s
  }

  function Strip(s: string): string { StripRight(StripLeft(s)) }

  predicate Contains(s: string, word: string) {
    exists i :: 0 <= i <= |s| - |word| && word <= s[i..]
  }

  predicate IsQuestion(text: string) {
    var stripped := Strip(text);
    || (stripped != "" && stripped[|stripped| - 1] in QUESTION_MARKS)
    || exists k :: 0 <= k < |QUESTION_WORDS| && Contains(stripped, QUESTION_WORDS[k])
  }

  function LengthScore(text: string): real {
    var n := |Strip(text)|;
    if n < MIN_USEFUL then 0.0
    else if n <= IDEAL then n as real / IDEAL as real
    else if IDEAL as real / n as real < 0.5 then 0.5
    else IDEAL as real / n as real
  }

  /** Rounding to four digits, ties to even. */
  function Round4(x: real): real {
    var n := (x * 10000.0).Floor;
    var rest := x * 10000.0 - n as real;
    if rest < 0.5 || (rest == 0.5 && n % 2 == 0) then n as real / 10000.0
    else (n + 1) as real / 10000.0
  }

  datatype Reason = Question | WellSized | TooShort | HotTopic

  datatype Scored = Scored(candidate: Candidate, score: real, reasons: seq<Reason>)

  function Activity(topicSize: nat, maxSize: nat): real {
    if maxSize == 0 then 0.0 else topicSize as real / maxSize as real
  }

  function Total(text: string, topicSize: nat, maxSize: nat): real {
    0.5 * (if IsQuestion(text) then 1.0 else 0.0) + 0.3 * LengthScore(text) + 0.2 * Activity(topicSize, maxSize)
  }

  function Score(c: Candidate, topicSize: nat, maxSize: nat): Scored {
    var length, activity := LengthScore(c.text), Activity(topicSize, maxSize);
    Scored(c, Round4(Total(c.text, topicSize, maxSize)),
           (if IsQuestion(c.text) then [Question] else [])
           + (if length >= 0.8 then [WellSized] else if length == 0.0 then [TooShort] else [])
           + (if activity >= 0.8 && topicSize > 1 then [HotTopic] else []))
  }

  // ------------------------------------------------------------------ the choice

  function MaxSize(topics: seq<Topic>): nat {
    if topics == [] then 0
    else var m := MaxSize(topics[..|topics| - 1]);
         if |topics[|topics| - 1]| > m then |topics[|topics| - 1]| else m
  }

  function ScoredTopic(topic: Topic, size: nat, maxSize: nat): seq<Scored> {
    seq(|topic|, i requires 0 <= i < |topic| => Score(topic[i], size, maxSize))
  }

  function AllScored(topics: seq<Topic>, maxSize: nat): seq<Scored> {
    if topics == [] then []
    else
      var last := topics[|topics| - 1];
      AllScored(topics[..|topics| - 1], maxSize) + ScoredTopic(last, |last|, maxSize)
  }

  /** A higher score, or the same score and an earlier time. */
  predicate Better(a: Scored, b: Scored) {
    a.score > b.score || (a.score == b.score && a.candidate.at < b.candidate.at)
  }

  /** The first greatest element. */
  function Best(s: seq<Scored>): Scored
    requires s != []
  {
    if |s| == 1 then s[0]
    else var m := Best(s[..|s| - 1]);
         if Better(s[|s| - 1], m) then s[|s| - 1] else m
  }

  function SelectBest(topics: seq<Topic>): Option<Scored> {
    var scored := AllScored(topics, MaxSize(topics));
    if scored == [] then None else Some(Best(scored))
  }

  // ------------------------------------------------------------------ it is the maximum

  lemma {:induction false} BestIsMaximal(s: seq<Scored>)
    requires s != []
    ensures Best(s) in s
    ensures forall x :: x in s ==> !Better(x, Best(s))
  {
    if |s| > 1 {
      BestIsMaximal(s[..|s| - 1]);
      assert s == s[..|s| - 1] + [s[|s| - 1]];
    }
  }

  /** The scored candidate at position `i` of topic `t`. */
  function ScoreAt(topics: seq<Topic>, t: nat, i: nat): Scored
    requires t < |topics| && i < |topics[t]|
  {
    Score(topics[t][i], |topics[t]|, MaxSize(topics))
  }

  ghost predicate OccursIn(topic: Topic, maxSize: nat, x: Scored) {
    exists i :: 0 <= i < |topic| && x == Score(topic[i], |topic|, maxSize)
  }

  ghost predicate Occurs(topics: seq<Topic>, maxSize: nat, x: Scored) {
    exists t :: 0 <= t < |topics| && OccursIn(topics[t], maxSize, x)
  }

  lemma {:induction false} TopicOccurrences(topic: Topic, maxSize: nat, x: Scored)
    ensures x in ScoredTopic(topic, |topic|, maxSize) <==> OccursIn(topic, maxSize, x)
  {
    var s := ScoredTopic(topic, |topic|, maxSize);
    if OccursIn(topic, maxSize, x) {
      var i :| 0 <= i < |topic| && x == Score(topic[i], |topic|, maxSize);
      assert s[i] == x;
    }
  }

  lemma {:induction false} OccurrencesSplit(topics: seq<Topic>, maxSize: nat, x: Scored)
    requires topics != []
    ensures var n := |topics| - 1;
            Occurs(topics, maxSize, x) <==> Occurs(topics[..n], maxSize, x) || OccursIn(topics[n], maxSize, x)
  {
    var n := |topics| - 1;
    if Occurs(topics[..n], maxSize, x) {
      var t :| 0 <= t < n && OccursIn(topics[..n][t], maxSize, x);
      assert OccursIn(topics[t], maxSize, x);
    }
    if Occurs(topics, maxSize, x) {
      var t :| 0 <= t < |topics| && OccursIn(topics[t], maxSize, x);
      assert t < n ==> OccursIn(topics[..n][t], maxSize, x);
    }
  }

  lemma {:induction false} ScoredAreTheCandidates(topics: seq<Topic>, maxSize: nat, x: Scored)
    ensures x in AllScored(topics, maxSize) <==> Occurs(topics, maxSize, x)
  {
    if topics != [] {
      var n := |topics| - 1;
      ScoredAreTheCandidates(topics[..n], maxSize, x);
      OccurrencesSplit(topics, maxSize, x);
      TopicOccurrences(topics[n], maxSize, x);
    }
  }

  /** The choice is one of the candidates, and none beats it on (score, earliest time); there is none
      only when there is no candidate. */
  lemma {:induction false} ChoiceIsTheMaximum(topics: seq<Topic>)
    ensures SelectBest(topics).None? <==> forall t :: 0 <= t < |topics| ==> topics[t] == []
    ensures SelectBest(topics).Some? ==>
              && Occurs(topics, MaxSize(topics), SelectBest(topics).value)
              && forall t, i :: 0 <= t < |topics| && 0 <= i < |topics[t]| ==>
                   var x, best := ScoreAt(topics, t, i), SelectBest(topics).value;
                   x.score < best.score || (x.score == best.score && best.candidate.at <= topics[t][i].at)
  {
    var m := MaxSize(topics);
    var s := AllScored(topics, m);
    forall t, i | 0 <= t < |topics| && 0 <= i < |topics[t]| ensures ScoreAt(topics, t, i) in s {
      assert OccursIn(topics[t], m, ScoreAt(topics, t, i));
      ScoredAreTheCandidates(topics, m, ScoreAt(topics, t, i));
    }
    if s != [] {
      BestIsMaximal(s);
      ScoredAreTheCandidates(topics, m, Best(s));
    }
    forall t | 0 <= t < |topics| ensures topics[t] == [] || s != [] {
      if topics[t] != [] {
        assert ScoreAt(topics, t, 0) in s;
      }
    }
  }

  // ------------------------------------------------------------------ order does not matter

  /** `perm` lists the positions of `ts` in the order of `us`, and each topic is rearranged too. */
  ghost predicate Rearranged(ts: seq<Topic>, us: seq<Topic>, perm: seq<nat>) {
    && |ts| == |us| == |perm|
    && (forall i :: 0 <= i < |perm| ==> perm[i] < |ts| && multiset(us[i]) == multiset(ts[perm[i]]))
    && (forall j :: 0 <= j < |ts| ==> j in perm)
  }

  ghost predicate DistinctTimes(ts: seq<Topic>) {
    forall t, i, u, j :: 0 <= t < |ts| && 0 <= i < |ts[t]| && 0 <= u < |ts| && 0 <= j < |ts[u]| && (t != u || i != j) ==>
      ts[t][i].at != ts[u][j].at
  }

  lemma {:induction false} MaxSizeIsMax(ts: seq<Topic>)
    ensures forall t :: 0 <= t < |ts| ==> |ts[t]| <= MaxSize(ts)
    ensures ts != [] ==> exists t :: 0 <= t < |ts| && |ts[t]| == MaxSize(ts)
    ensures ts == [] ==> MaxSize(ts) == 0
  {
    if ts != [] {
      var n := |ts| - 1;
      MaxSizeIsMax(ts[..n]);
      if |ts[n]| >= MaxSize(ts[..n]) {
        assert |ts[n]| == MaxSize(ts);
      } else {
        var t :| 0 <= t < n && |ts[..n][t]| == MaxSize(ts[..n]);
        assert |ts[t]| == MaxSize(ts);
      }
    }
  }

  lemma {:induction false} SameSizes(ts: seq<Topic>, us: seq<Topic>, perm: seq<nat>, i: nat)
    requires Rearranged(ts, us, perm) && i < |us|
    ensures |us[i]| == |ts[perm[i]]|
  {
    assert |multiset(us[i])| == |multiset(ts[perm[i]])|;
  }

  lemma {:induction false} SameMaxSize(ts: seq<Topic>, us: seq<Topic>, perm: seq<nat>)
    requires Rearranged(ts, us, perm)
    ensures MaxSize(ts) == MaxSize(us)
  {
    MaxSizeIsMax(ts);
    MaxSizeIsMax(us);
    if ts != [] {
      var t :| 0 <= t < |ts| && |ts[t]| == MaxSize(ts);
      assert t in perm;
      var i :| 0 <= i < |perm| && perm[i] == t;
      SameSizes(ts, us, perm, i);
      var u :| 0 <= u < |us| && |us[u]| == MaxSize(us);
      SameSizes(ts, us, perm, u);
    }
  }

  lemma {:induction false} SameOccurrencesInTopic(a: Topic, b: Topic, m: nat, x: Scored)
    requires multiset(a) == multiset(b) && |a| == |b| && OccursIn(a, m, x)
    ensures OccursIn(b, m, x)
  {
    var i :| 0 <= i < |a| && x == Score(a[i], |a|, m);
    assert a[i] in multiset(b);
    var j :| 0 <= j < |b| && b[j] == a[i];
  }

  lemma {:induction false} SameOccurrences(ts: seq<Topic>, us: seq<Topic>, perm: seq<nat>, m: nat, x: Scored)
    requires Rearranged(ts, us, perm)
    ensures Occurs(ts, m, x) <==> Occurs(us, m, x)
  {
    if Occurs(ts, m, x) {
      var t :| 0 <= t < |ts| && OccursIn(ts[t], m, x);
      assert t in perm;
      var u :| 0 <= u < |perm| && perm[u] == t;
      SameSizes(ts, us, perm, u);
      SameOccurrencesInTopic(ts[t], us[u], m, x);
    }
    if Occurs(us, m, x) {
      var u :| 0 <= u < |us| && OccursIn(us[u], m, x);
      SameSizes(ts, us, perm, u);
      SameOccurrencesInTopic(us[u], ts[perm[u]], m, x);
    }
  }

  /** With distinct times the choice does not depend on the order of the topics or of the comments in
      them. */
  lemma {:induction false} ChoiceIgnoresOrder(ts: seq<Topic>, us: seq<Topic>, perm: seq<nat>)
    requires Rearranged(ts, us, perm) && DistinctTimes(ts)
    ensures SelectBest(ts) == SelectBest(us)
  {
    var m := MaxSize(ts);
    SameMaxSize(ts, us, perm);
    var s, r := AllScored(ts, m), AllScored(us, m);
    forall x ensures x in s <==> x in r {
      ScoredAreTheCandidates(ts, m, x);
      ScoredAreTheCandidates(us, m, x);
      SameOccurrences(ts, us, perm, m, x);
    }
    if s != [] {
      BestIsMaximal(s);
      SomethingIn(s);
      BestIsMaximal(r);
      OneAtATime(ts, m, Best(s), Best(r));
    } else {
      SomethingIn(r);
    }
  }

  lemma {:induction false} SomethingIn<T>(r: seq<T>)
    ensures r != [] ==> r[0] in r
  {
  }

  lemma {:induction false} OneAtATime(ts: seq<Topic>, m: nat, a: Scored, b: Scored)
    requires DistinctTimes(ts)
    requires a in AllScored(ts, m) && b in AllScored(ts, m) && a.candidate.at == b.candidate.at
    ensures a == b
  {
    ScoredAreTheCandidates(ts, m, a);
    ScoredAreTheCandidates(ts, m, b);
    var t :| 0 <= t < |ts| && OccursIn(ts[t], m, a);
    var i :| 0 <= i < |ts[t]| && a == Score(ts[t][i], |ts[t]|, m);
    var u :| 0 <= u < |ts| && OccursIn(ts[u], m, b);
    var j :| 0 <= j < |ts[u]| && b == Score(ts[u][j], |ts[u]|, m);
    assert t == u && i == j;
  }

  // ------------------------------------------------------------------ questions win

  lemma {:induction false} RoundingIsMonotone(x: real, y: real)
    requires x <= y
    ensures Round4(x) <= Round4(y)
  {
    var m, n := (x * 10000.0).Floor, (y * 10000.0).Floor;
    assert m <= n;
  }

  lemma {:induction false} RoundingKeepsFourDigits(n: int)
    ensures Round4(n as real / 10000.0) == n as real / 10000.0
  {
    assert n as real / 10000.0 * 10000.0 == n as real;
  }

  /** The length score in whole numbers, for every length. */
  lemma {:induction false} LengthScoreIs(text: string)
    ensures var n, x := |Strip(text)|, LengthScore(text);
            && (n < 6 ==> x == 0.0)
            && (6 <= n <= 40 ==> x * 40.0 == n as real)
            && (40 <= n <= 80 ==> x * n as real == 40.0)
            && (80 <= n ==> x == 0.5)
  {
    var n := |Strip(text)|;
    LongTextsScoreHalf(text);
    if n > 0 {
      assert n as real / 40.0 * 40.0 == n as real && 40.0 / n as real * n as real == 40.0;
      AtLeastFraction(40, n, 1, 2);
    }
  }

  /** Rounding goes to the nearest four-digit number, and a tie to the even one. */
  lemma {:induction false} RoundingIsNearest(x: real) returns (n: int)
    ensures Round4(x) == n as real / 10000.0
    ensures -0.5 <= x * 10000.0 - n as real <= 0.5
    ensures x * 10000.0 - n as real == 0.5 || x * 10000.0 - n as real == -0.5 ==> n % 2 == 0
  {
    var k := (x * 10000.0).Floor;
    var rest := x * 10000.0 - k as real;
    n := if rest < 0.5 || (rest == 0.5 && k % 2 == 0) then k else k + 1;
  }

  /** Stripping removes the white space at both ends and nothing else. */
  lemma {:induction false} StripIsTheMiddle(s: string) returns (i: nat, j: nat)
    ensures i <= j <= |s| && Strip(s) == s[i..j]
    ensures forall k :: 0 <= k < i || j <= k < |s| ==> IsSpace(s[k])
    ensures i < j ==> !IsSpace(s[i]) && !IsSpace(s[j - 1])
  {
    i := LeftIsDropped(s);
    var k := RightIsDropped(s[i..]);
    j := i + k;
    assert s[i..][..k] == s[i..j];
    assert forall m :: j <= m < |s| ==> s[m] == s[i..][m - i];
    assert i < j ==> s[i] == s[i..][0] && s[j - 1] == s[i..][k - 1];
  }

  lemma {:induction false} LeftIsDropped(s: string) returns (i: nat)
    ensures i <= |s| && StripLeft(s) == s[i..] && (forall k :: 0 <= k < i ==> IsSpace(s[k]))
    ensures i < |s| ==> !IsSpace(s[i])
  {
    i := 0;
    if s != "" && IsSpace(s[0]) {
      var j := LeftIsDropped(s[1..]);
      i := j + 1;
      assert forall k :: 0 < k < i ==> s[k] == s[1..][k - 1];
    }
  }

  lemma {:induction false} RightIsDropped(s: string) returns (j: nat)
    ensures j <= |s| && StripRight(s) == s[..j] && (forall k :: j <= k < |s| ==> IsSpace(s[k]))
    ensures j > 0 ==> !IsSpace(s[j - 1])
  {
    j := |s|;
    if s != "" && IsSpace(s[|s| - 1]) {
      j := RightIsDropped(s[..|s| - 1]);
      assert forall k :: j <= k < |s| - 1 ==> s[k] == s[..|s| - 1][k];
    }
  }

  /** `word` stands at position `i` of `s`. */
  predicate StandsAt(s: string, word: string, i: nat) {
    i + |word| <= |s| && s[i..i + |word|] == word
  }

  ghost predicate HoldsQuestionWord(s: string) {
    exists k, i: nat :: 0 <= k < |QUESTION_WORDS| && StandsAt(s, QUESTION_WORDS[k], i)
  }

  lemma {:induction false} ContainsSomewhere(s: string, word: string)
    ensures Contains(s, word) <==> exists i: nat :: StandsAt(s, word, i)
  {
    forall i: nat | i + |word| <= |s| ensures word <= s[i..] <==> StandsAt(s, word, i) {
      assert s[i..][..|word|] == s[i..i + |word|];
    }
    if i: nat :| StandsAt(s, word, i) {
      assert 0 <= i <= |s| - |word| && word <= s[i..];
    }
    if Contains(s, word) {
      var i :| 0 <= i <= |s| - |word| && word <= s[i..];
      assert StandsAt(s, word, i);
    }
  }

  /** A text is a question exactly when, white space at its ends aside, it ends in a question mark or holds
      one of the question words. */
  lemma {:induction false} QuestionsEndInAMarkOrHoldAWord(text: string)
    ensures var t := Strip(text);
            IsQuestion(text) <==> (t != "" && t[|t| - 1] in {'?', '？'}) || HoldsQuestionWord(t)
  {
    var t := Strip(text);
    forall k | 0 <= k < |QUESTION_WORDS|
      ensures Contains(t, QUESTION_WORDS[k]) <==> exists i: nat :: StandsAt(t, QUESTION_WORDS[k], i)
    {
      ContainsSomewhere(t, QUESTION_WORDS[k]);
    }
  }

  /** In particular every text that ends in a question mark. */
  lemma {:induction false} TextEndingInAMarkIsAQuestion(text: string)
    requires text != "" && text[|text| - 1] in {'?', '？'}
    ensures IsQuestion(text)
  {
    var i, j := StripIsTheMiddle(text);
    assert !IsSpace(text[|text| - 1]);
    assert j == |text| && i < j;
    assert Strip(text)[|Strip(text)| - 1] == text[|text| - 1];
  }

  lemma {:induction false} LengthIsAFraction(text: string)
    ensures 0.0 <= LengthScore(text) <= 1.0
  {
  }

  lemma {:induction false} ActivityIsAFraction(size: nat, maxSize: nat)
    requires 1 <= size <= maxSize
    ensures Activity(size, maxSize) <= 1.0
    ensures maxSize <= 50 ==> Activity(size, maxSize) >= 0.02
  {
    var s, m := size as real, maxSize as real;
    QuotientBounds(s, m, 1.0);
    QuotientBounds(s, m, 0.02);
  }

  lemma {:induction false} QuotientBounds(s: real, m: real, c: real)
    requires m > 0.0
    ensures s >= c * m ==> s / m >= c
    ensures s <= c * m ==> s / m <= c
  {
    assert s / m * m == s;
  }

  /** After rounding, a comment that asks nothing scores at most 0.5 and a question in a batch of at
      most fifty at least 0.504. */
  lemma {:induction false} ScoreBounds(c: Candidate, size: nat, maxSize: nat)
    requires 1 <= size <= maxSize
    ensures !IsQuestion(c.text) ==> Score(c, size, maxSize).score <= 0.5
    ensures IsQuestion(c.text) && maxSize <= 50 ==> Score(c, size, maxSize).score >= 0.504
  {
    var total := Total(c.text, size, maxSize);
    LengthIsAFraction(c.text);
    ActivityIsAFraction(size, maxSize);
    RoundingKeepsFourDigits(5000);
    RoundingKeepsFourDigits(5040);
    if !IsQuestion(c.text) {
      RoundingIsMonotone(total, 5000 as real / 10000.0);
    } else if maxSize <= 50 {
      RoundingIsMonotone(5040 as real / 10000.0, total);
    }
  }

  lemma {:induction false} LengthClasses(text: string)
    ensures LengthScore(text) == 0.0 <==> |Strip(text)| < 6
    ensures LengthScore(text) >= 0.8 <==> 32 <= |Strip(text)| <= 50
  {
    var n := |Strip(text)|;
    AtLeastFraction(n, IDEAL, 4, 5);
    if n > 0 {
      AtLeastFraction(IDEAL, n, 4, 5);
      AtLeastFraction(n, IDEAL, 6, 40);
    }
  }

  lemma {:induction false} HotActivity(size: nat, maxSize: nat)
    requires 1 <= maxSize
    ensures Activity(size, maxSize) >= 0.8 <==> 5 * size >= 4 * maxSize
  {
    AtLeastFraction(size, maxSize, 4, 5);
  }

  /** The reasons shown say what the comment was like, in whole numbers. */
  lemma {:induction false} ReasonsSayWhatHappened(c: Candidate, size: nat, maxSize: nat)
    requires 1 <= size <= maxSize
    ensures var n, why := |Strip(c.text)|, Score(c, size, maxSize).reasons;
            && (Question in why <==> IsQuestion(c.text))
            && (TooShort in why <==> n < 6)
            && (WellSized in why <==> 32 <= n <= 50)
            && (HotTopic in why <==> size > 1 && 5 * size >= 4 * maxSize)
  {
    LengthClasses(c.text);
    HotActivity(size, maxSize);
  }

  /** The bounds are met: the weights and the shape of the length score are these. */
  lemma {:induction false} BoundsAreTight(c: Candidate, size: nat, maxSize: nat)
    requires 1 <= size <= maxSize
    ensures var n := |Strip(c.text)|;
            && (!IsQuestion(c.text) && n == 40 && size == maxSize ==> Score(c, size, maxSize).score == 0.5)
            && (!IsQuestion(c.text) && n < 6 && size == maxSize ==> Score(c, size, maxSize).score == 0.2)
            && (IsQuestion(c.text) && n < 6 && size == 1 && maxSize == 50 ==> Score(c, size, maxSize).score == 0.504)
            && (IsQuestion(c.text) && n >= 80 && size == maxSize ==> Score(c, size, maxSize).score == 0.85)
  {
    RoundingKeepsFourDigits(5000);
    RoundingKeepsFourDigits(2000);
    RoundingKeepsFourDigits(5040);
    RoundingKeepsFourDigits(8500);
    LongTextsScoreHalf(c.text);
    QuotientBounds(size as real, maxSize as real, 1.0);
  }

  lemma {:induction false} LongTextsScoreHalf(text: string)
    ensures |Strip(text)| >= 80 ==> LengthScore(text) == 0.5
  {
  }

  lemma {:induction false} MaxSizeOfBatch(cs: seq<Candidate>)
    requires cs != []
    ensures 1 <= MaxSize(TopicsOf(Buckets(cs))) <= |cs|
  {
    TopicsCoverTheBatch(cs);
    MaxSizeIsMax(TopicsOf(Buckets(cs)));
  }

  /** A batch of at most fifty comments that holds a question is answered with a question. */
  lemma {:induction false} QuestionsWin(cs: seq<Candidate>, q: Candidate)
    requires |cs| <= MAX_CANDIDATES && q in cs && IsQuestion(q.text)
    ensures var best := SelectBest(TopicsOf(Buckets(cs)));
            best.Some? && IsQuestion(best.value.candidate.text) && best.value.candidate in cs
  {
    var ts := TopicsOf(Buckets(cs));
    var m := MaxSize(ts);
    TopicsCoverTheBatch(cs);
    MaxSizeOfBatch(cs);
    MaxSizeIsMax(ts);
    var b :| 0 <= b < |ts| && q in ts[b];
    var k :| 0 <= k < |ts[b]| && ts[b][k] == q;
    ScoreBounds(q, |ts[b]|, m);
    ChoiceIsTheMaximum(ts);
    var best := SelectBest(ts).value;
    assert ScoreAt(ts, b, k).score <= best.score;
    var t :| 0 <= t < |ts| && OccursIn(ts[t], m, best);
    var i :| 0 <= i < |ts[t]| && best == Score(ts[t][i], |ts[t]|, m);
    ScoreBounds(ts[t][i], |ts[t]|, m);
    assert ts[t][i] in ts[t];
  }

  /** Whatever has arrived, a non-empty batch from the buffer gives a choice from that batch, and a
      question if the batch holds one. */
  lemma {:induction false} BatchAlwaysYieldsAChoice(all: seq<Candidate>)
    requires all != []
    ensures var batch := Parsed(Buffered(all));
            var best := SelectBest(TopicsOf(Buckets(batch)));
            && batch == Last(all, MAX_CANDIDATES)
            && best.Some? && best.value.candidate in batch
            && ((exists q :: q in batch && IsQuestion(q.text)) ==> IsQuestion(best.value.candidate.text))
  {
    BatchIsTheLastFifty(all);
    var batch := Parsed(Buffered(all));
    NonEmptyBatchYieldsAChoice(batch);
    if q :| q in batch && IsQuestion(q.text) {
      QuestionsWin(batch, q);
    }
  }

  lemma {:induction false} NonEmptyBatchYieldsAChoice(cs: seq<Candidate>)
    ensures cs == [] <==> SelectBest(TopicsOf(Buckets(cs))).None?
    ensures cs != [] ==> SelectBest(TopicsOf(Buckets(cs))).value.candidate in cs
  {
    var ts := TopicsOf(Buckets(cs));
    ChoiceIsTheMaximum(ts);
    if cs != [] {
      TopicsCoverTheBatch(cs);
      assert ts[0] != [];
      var best := SelectBest(ts).value;
      var t :| 0 <= t < |ts| && OccursIn(ts[t], MaxSize(ts), best);
      var i :| 0 <= i < |ts[t]| && best == Score(ts[t][i], |ts[t]|, MaxSize(ts));
      assert ts[t][i] in ts[t];
    }
  }
}
