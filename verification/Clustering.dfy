/** Viewer comments waiting for an answer: the capped buffer of a room. */
module CandidateBuffers {
  /** `lowered` is the text in lower case, `at` the time of arrival. */
  datatype Candidate = Candidate(messageId: string, authorId: string, text: string, lowered: string, at: int)

  /** A list element as stored; an old format no longer parses. */
  datatype Item = Readable(candidate: Candidate) | Unreadable

  const MAX_CANDIDATES := 50

  function Last<T>(s: seq<T>, n: nat): seq<T> {
    if |s| <= n then s else s[|s| - n..]
  }

  function Parsed(items: seq<Item>): seq<Candidate> {
    if items == [] then []
    else Parsed(items[..|items| - 1])
         + (if items[|items| - 1].Readable? then [items[|items| - 1].candidate] else [])
  }

  class CandidateBuffer {
    var items: seq<Item>

    constructor ()
      ensures items == []
    {
      items := [];
    }

    predicate Valid()
      reads this
    {
      |items| <= MAX_CANDIDATES
    }

    /** RPUSH, LTRIM. */
    method Add(candidate: Candidate)
      modifies this
      ensures items == Last(old(items) + [Readable(candidate)], MAX_CANDIDATES)
      ensures Valid()
    {
      items := items + [Readable(candidate)];
      if |items| > MAX_CANDIDATES {
        items := items[|items| - MAX_CANDIDATES..];
      }
    }

    method Expire()
      modifies this
      ensures items == [] && Valid()
    {
      items := [];
    }

    /** LPOP with a count; elements that do not parse are skipped. */
    method TakeAll() returns (candidates: seq<Candidate>)
      requires Valid()
      modifies this
      ensures items == [] && Valid()
      ensures candidates == Parsed(old(items))
    {
      var raw := items;
      items := [];
      candidates := [];
      for i := 0 to |raw|
        invariant candidates == Parsed(raw[..i])
        invariant items == []
      {
        assert raw[..i + 1][..i] == raw[..i];
        if raw[i].Readable? {
          candidates := candidates + [raw[i].candidate];
        }
      }
      assert raw[..|raw|] == raw;
    }
  }

  /** Elements are parsed one by one, in order: a readable one gives its comment, another one nothing, and
      neither affects the rest. */
  lemma {:induction false} ParsedOneByOne(xs: seq<Item>, ys: seq<Item>, c: Candidate)
    ensures Parsed(xs + ys) == Parsed(xs) + Parsed(ys)
    ensures Parsed([Readable(c)]) == [c] && Parsed([Unreadable]) == []
  {
    assert [Readable(c)][..0] == [] && [Unreadable][..0] == [];
    if ys == [] {
      assert xs + ys == xs;
    } else {
      assert (xs + ys)[..|xs + ys| - 1] == xs + ys[..|ys| - 1];
      ParsedOneByOne(xs, ys[..|ys| - 1], c);
    }
  }

  /** The buffer after adding each of `all` in turn. */
  function Buffered(all: seq<Candidate>): seq<Item> {
    if all == [] then []
    else Last(Buffered(all[..|all| - 1]) + [Readable(all[|all| - 1])], MAX_CANDIDATES)
  }

  lemma {:induction false} ParsedReadable(items: seq<Item>)
    requires forall i :: 0 <= i < |items| ==> items[i].Readable?
    ensures |Parsed(items)| == |items|
    ensures forall i :: 0 <= i < |items| ==> Parsed(items)[i] == items[i].candidate
  {
    if items != [] {
      ParsedReadable(items[..|items| - 1]);
    }
  }

  lemma {:induction false} BufferedIsTheEnd(all: seq<Candidate>)
    ensures |Buffered(all)| == |Last(all, MAX_CANDIDATES)|
    ensures forall i :: 0 <= i < |Buffered(all)| ==> Buffered(all)[i] == Readable(Last(all, MAX_CANDIDATES)[i])
  {
    if all != [] {
      var front := Buffered(all[..|all| - 1]);
      var more := front + [Readable(all[|all| - 1])];
      BufferedIsTheEnd(all[..|all| - 1]);
      forall i | 0 <= i < |Buffered(all)| ensures Buffered(all)[i] == Readable(Last(all, MAX_CANDIDATES)[i]) {
        assert Buffered(all)[i] == more[|more| - |Buffered(all)| + i];
      }
    }
  }

  /** However many comments arrive, a batch is the last fifty of them in order. */
  lemma {:induction false} BatchIsTheLastFifty(all: seq<Candidate>)
    ensures Parsed(Buffered(all)) == if |all| <= 50 then all else all[|all| - 50..]
  {
    BufferedIsTheEnd(all);
    ParsedReadable(Buffered(all));
  }
}

/** Greedy first-fit clustering by shared character n-grams. */
module LexicalClustering {
  import opened CandidateBuffers

  const NGRAM := 3
  const SIMILARITY_THRESHOLD: real := 0.12
  const STOPWORDS: set<string> := {
    "그리고", "그래서", "하지만", "근데", "그냥", "너무", "진짜", "완전", "정말",
    "저는", "제가", "나는", "내가", "저도", "나도", "지금", "요즘"}

  // ------------------------------------------------------------------ tokens

  predicate IsTokenChar(c: char) {
    '0' <= c <= '9' || 'A' <= c <= 'Z' || 'a' <= c <= 'z' || '가' <= c <= '힣'
  }

  /** Digits, Latin letters and Hangul syllables, by code point. */
  lemma {:induction false} TokenCharsAre(c: char)
    ensures IsTokenChar(c) <==>
              || 0x30 <= c as int <= 0x39 || 0x41 <= c as int <= 0x5A || 0x61 <= c as int <= 0x7A
              || 0xAC00 <= c as int <= 0xD7A3
  {
  }

  /** The longest run of token characters at the start. */
  function Run(s: string): (r: string)
    ensures |r| <= |s|
  {
    if s == "" || !IsTokenChar(s[0]) then "" else [s[0]] + Run(s[1..])
  }

  /** The matches of `[0-9A-Za-z가-힣]+`, left to right. */
  function Words(s: string): seq<string>
    decreases |s|
  {
    if s == "" then []
    else if !IsTokenChar(s[0]) then Words(s[1..])
    else [Run(s)] + Words(s[|Run(s)|..])
  }

  predicate Meaningful(word: string) { |word| > 1 && word !in STOPWORDS }

  function Gram(word: string, i: nat): string
    requires i + NGRAM <= |word|
  {
    word[i..i + NGRAM]
  }

  function Grams(word: string): set<string> {
    if |word| <= NGRAM then {word}
    else set i | 0 <= i <= |word| - NGRAM :: Gram(word, i)
  }

  function GramsOf(words: seq<string>): set<string> {
    if words == [] then {}
    else GramsOf(words[..|words| - 1])
         + (if Meaningful(words[|words| - 1]) then Grams(words[|words| - 1]) else {})
  }

  function TokensOf(lowered: string): set<string> { GramsOf(Words(lowered)) }

  method Tokens(lowered: string) returns (grams: set<string>)
    ensures grams == TokensOf(lowered)
  {
    var words := Words(lowered);
    grams := {};
    for i := 0 to |words|
      invariant grams == GramsOf(words[..i])
    {
      assert words[..i + 1][..i] == words[..i];
      var word := words[i];
      if Meaningful(word) {
        if |word| <= NGRAM {
          grams := grams + {word};
        } else {
          grams := grams + (set k | 0 <= k <= |word| - NGRAM :: Gram(word, k));
        }
      }
    }
    assert words[..|words|] == words;
  }

  /** `s[i..j]` is a run of token characters that cannot be made longer on either side. */
  predicate MaximalRun(s: string, i: nat, j: nat) {
    && i < j <= |s|
    && (forall k :: i <= k < j ==> IsTokenChar(s[k]))
    && (i > 0 ==> !IsTokenChar(s[i - 1]))
    && (j < |s| ==> !IsTokenChar(s[j]))
  }

  ghost predicate IsWordOf(s: string, w: string) {
    exists i: nat, j: nat :: MaximalRun(s, i, j) && w == s[i..j]
  }

  lemma {:induction false} RunIsMaximal(s: string)
    requires s != "" && IsTokenChar(s[0])
    ensures MaximalRun(s, 0, |Run(s)|) && Run(s) == s[..|Run(s)|]
  {
    if |s| > 1 && IsTokenChar(s[1]) {
      var rest, n := s[1..], |Run(s[1..])|;
      RunIsMaximal(rest);
      assert forall k :: 0 < k < |s| ==> s[k] == rest[k - 1];
      assert s[..n + 1] == [s[0]] + rest[..n];
      forall k | 0 <= k < n + 1 ensures IsTokenChar(s[k]) {
        assert k > 0 ==> s[k] == rest[k - 1];
      }
    } else {
      assert Run(s) == [s[0]] == s[..1];
    }
  }

  /** A cut that is not inside a run keeps the runs after it. */
  lemma {:induction false} RunsAfterCut(s: string, n: nat, i: nat, j: nat)
    requires n <= |s|
    requires n == 0 || n == |s| || !IsTokenChar(s[n - 1]) || !IsTokenChar(s[n])
    ensures MaximalRun(s[n..], i, j) <==> MaximalRun(s, n + i, n + j)
    ensures MaximalRun(s, n + i, n + j) ==> s[n..][i..j] == s[n + i..n + j]
  {
    assert forall k :: n <= k < |s| ==> s[k] == s[n..][k - n];
  }

  lemma {:induction false} NoRunInside(s: string, n: nat, i: nat, j: nat)
    requires 0 < n <= |s|
    requires (n == 1 && !IsTokenChar(s[0])) || MaximalRun(s, 0, n)
    ensures MaximalRun(s, i, j) && i < n ==> i == 0 && j == n && IsTokenChar(s[0])
  {
    assert 0 < i < n && MaximalRun(s, 0, n) ==> IsTokenChar(s[i - 1]);
    assert j < n && MaximalRun(s, 0, n) ==> IsTokenChar(s[j]);
  }

  /** What the search skips or takes at the front, it loses from the words: nothing, or the first run. */
  lemma {:induction false} WordsAfterCut(s: string, n: nat, w: string)
    requires 0 < n <= |s|
    requires (n == 1 && !IsTokenChar(s[0])) || MaximalRun(s, 0, n)
    ensures IsWordOf(s, w) <==> IsWordOf(s[n..], w) || (IsTokenChar(s[0]) && w == s[..n])
  {
    if IsWordOf(s, w) {
      var i: nat, j: nat :| MaximalRun(s, i, j) && w == s[i..j];
      if i >= n {
        RunsAfterCut(s, n, i - n, j - n);
        assert w == s[n..][i - n..j - n];
      } else {
        NoRunInside(s, n, i, j);
      }
    }
    if IsWordOf(s[n..], w) {
      var i: nat, j: nat :| MaximalRun(s[n..], i, j) && w == s[n..][i..j];
      RunsAfterCut(s, n, i, j);
      assert w == s[n + i..n + j];
    }
    if IsTokenChar(s[0]) && w == s[..n] {
      assert w == s[0..n];
    }
  }

  /** The words are exactly the maximal runs of digits, Latin letters and Hangul syllables. */
  lemma {:induction false} WordsAreMaximalRuns(s: string, w: string)
    ensures w in Words(s) <==> IsWordOf(s, w)
    decreases |s|
  {
    if s != "" {
      var n := if IsTokenChar(s[0]) then |Run(s)| else 1;
      if IsTokenChar(s[0]) {
        RunIsMaximal(s);
      }
      WordsAreMaximalRuns(s[n..], w);
      WordsAfterCut(s, n, w);
    }
  }

  lemma {:induction false} GramsOfAll(words: seq<string>, g: string)
    ensures g in GramsOf(words) <==> exists w :: w in words && Meaningful(w) && g in Grams(w)
  {
    if words != [] {
      var front, last := words[..|words| - 1], words[|words| - 1];
      GramsOfAll(front, g);
      assert words == front + [last];
    }
  }

  ghost predicate IsGramOf(w: string, g: string) {
    (|w| <= 3 && g == w) || (|w| > 3 && exists i :: 0 <= i <= |w| - 3 && g == Gram(w, i))
  }

  /** A text's tokens are the three-character pieces of its words, short words whole; words of one
      character and stopwords give none. */
  lemma {:induction false} TokensAreTheGramsOfTheWords(s: string, g: string)
    ensures g in TokensOf(s) <==> exists w :: IsWordOf(s, w) && |w| > 1 && w !in STOPWORDS && IsGramOf(w, g)
  {
    GramsOfAll(Words(s), g);
    forall w ensures w in Words(s) <==> IsWordOf(s, w) {
      WordsAreMaximalRuns(s, w);
    }
    forall w ensures g in Grams(w) <==> IsGramOf(w, g) {
      GramOrNot(w, g);
    }
  }

  lemma {:induction false} GramOrNot(w: string, g: string)
    ensures g in Grams(w) <==> IsGramOf(w, g)
  {
  }

  // ------------------------------------------------------------------ similarity

  /** The overlap coefficient: shared tokens over the smaller side. */
  function Similarity(a: set<string>, b: set<string>): real {
    if |a| == 0 || |b| == 0 then 0.0
    else |a * b| as real / (if |a| < |b| then |a| else |b|) as real
  }

  predicate Similar(a: set<string>, b: set<string>) {
    Similarity(a, b) >= SIMILARITY_THRESHOLD
  }

  lemma {:induction false} AtLeastFraction(s: nat, m: nat, num: nat, den: nat)
    requires m > 0 && den > 0
    ensures s as real / m as real >= num as real / den as real <==> den * s >= num * m
  {
    var x, y, d, n := s as real, m as real, den as real, num as real;
    assert x / y * y == x && n / d * d == n;
    assert (den * s) as real == d * x && (num * m) as real == n * y;
    if x / y >= n / d {
      ProductsKeepOrder(n / d, x / y, y * d);
      assert n / d * (y * d) == n * y && x / y * (y * d) == d * x;
    } else {
      StrictProducts(x / y, n / d, y * d);
      assert n / d * (y * d) == n * y && x / y * (y * d) == d * x;
    }
  }

  lemma {:induction false} ProductsKeepOrder(a: real, b: real, c: real)
    requires a <= b && c > 0.0
    ensures a * c <= b * c
  {
  }

  lemma {:induction false} StrictProducts(a: real, b: real, c: real)
    requires a < b && c > 0.0
    ensures a * c < b * c
  {
  }

  /** The threshold without division: at least 12 percent of the smaller side is shared. */
  lemma {:induction false} SimilarMeansSharedTokens(a: set<string>, b: set<string>)
    ensures Similar(a, b) <==> a != {} && b != {} && 100 * |a * b| >= 12 * (if |a| < |b| then |a| else |b|)
  {
    if a != {} && b != {} {
      AtLeastFraction(|a * b|, if |a| < |b| then |a| else |b|, 12, 100);
    }
  }

  // ------------------------------------------------------------------ clustering

  datatype Bucket = Bucket(tokens: set<string>, members: seq<Candidate>)

  /** The first bucket similar enough, or the number of buckets. */
  function FirstFit(bs: seq<Bucket>, tokens: set<string>): (k: nat)
    ensures k <= |bs|
    ensures forall j :: 0 <= j < k ==> !Similar(tokens, bs[j].tokens)
    ensures k < |bs| ==> Similar(tokens, bs[k].tokens)
  {
    if bs == [] then 0
    else if Similar(tokens, bs[0].tokens) then 0
    else 1 + FirstFit(bs[1..], tokens)
  }

  function Placed(bs: seq<Bucket>, c: Candidate): seq<Bucket> {
    var tokens := TokensOf(c.lowered);
    var k := FirstFit(bs, tokens);
    if k < |bs| then bs[k := Bucket(bs[k].tokens + tokens, bs[k].members + [c])]
    else bs + [Bucket(tokens, [c])]
  }

  function Buckets(cs: seq<Candidate>): seq<Bucket> {
    if cs == [] then [] else Placed(Buckets(cs[..|cs| - 1]), cs[|cs| - 1])
  }

  /** A topic is its comments; its label is only for traces. */
  type Topic = seq<Candidate>

  function TopicsOf(bs: seq<Bucket>): seq<Topic> {
    seq(|bs|, i requires 0 <= i < |bs| => bs[i].members)
  }

  method Cluster(candidates: seq<Candidate>) returns (topics: seq<Topic>)
    ensures topics == TopicsOf(Buckets(candidates))
  {
    var buckets: seq<Bucket> := [];
    for i := 0 to |candidates|
      invariant buckets == Buckets(candidates[..i])
    {
      var candidate := candidates[i];
      var tokens := Tokens(candidate.lowered);
      var k := 0;
      while k < |buckets| && !Similar(tokens, buckets[k].tokens)
        invariant k <= FirstFit(buckets, tokens)
      {
        k := k + 1;
      }
      assert k == FirstFit(buckets, tokens);
      if k < |buckets| {
        buckets := buckets[k := Bucket(buckets[k].tokens + tokens, buckets[k].members + [candidate])];
      } else {
        buckets := buckets + [Bucket(tokens, [candidate])];
      }
      assert candidates[..i + 1][..i] == candidates[..i];
    }
    assert candidates[..|candidates|] == candidates;
    topics := TopicsOf(buckets);
  }

  // ------------------------------------------------------------------ what a partition is

  /** `where[i]` is the topic of candidate `i`. The candidates of topic `b`, in arrival order. */
  function MembersOf(cs: seq<Candidate>, where: seq<nat>, b: nat): seq<Candidate>
    requires |where| == |cs|
  {
    if cs == [] then []
    else
      var n := |cs| - 1;
      MembersOf(cs[..n], where[..n], b) + (if where[n] == b then [cs[n]] else [])
  }

  function UnionOf(cs: seq<Candidate>, where: seq<nat>, b: nat): set<string>
    requires |where| == |cs|
  {
    if cs == [] then {}
    else
      var n := |cs| - 1;
      UnionOf(cs[..n], where[..n], b) + (if where[n] == b then TokensOf(cs[n].lowered) else {})
  }

  /** How many topics have been opened: a candidate opens one by taking the next number. */
  function Opened(where: seq<nat>): nat {
    if where == [] then 0
    else
      var k := Opened(where[..|where| - 1]);
      if where[|where| - 1] == k then k + 1 else k
  }

  /** Candidate `i` joins the first topic whose earlier members' tokens overlap enough with its own, and
      opens a new one only when there is none. */
  ghost predicate JoinsFirstFit(cs: seq<Candidate>, where: seq<nat>, i: nat)
    requires |where| == |cs| && i < |cs|
  {
    var mine := TokensOf(cs[i].lowered);
    && where[i] <= Opened(where[..i])
    && (forall b :: 0 <= b < where[i] ==> !Similar(mine, UnionOf(cs[..i], where[..i], b)))
    && (where[i] < Opened(where[..i]) ==> Similar(mine, UnionOf(cs[..i], where[..i], where[i])))
  }

  ghost predicate Greedy(cs: seq<Candidate>, where: seq<nat>) {
    && |where| == |cs|
    && forall i :: 0 <= i < |cs| ==> JoinsFirstFit(cs, where, i)
  }

  function Assignment(cs: seq<Candidate>): seq<nat> {
    if cs == [] then []
    else
      var n := |cs| - 1;
      Assignment(cs[..n]) + [FirstFit(Buckets(cs[..n]), TokensOf(cs[n].lowered))]
  }

  ghost predicate BucketsMatch(cs: seq<Candidate>, where: seq<nat>, bs: seq<Bucket>) {
    && |where| == |cs|
    && |bs| == Opened(where)
    && forall b :: 0 <= b < |bs| ==> BucketMatches(cs, where, bs[b], b)
  }

  ghost predicate BucketMatches(cs: seq<Candidate>, where: seq<nat>, x: Bucket, b: nat)
    requires |where| == |cs|
  {
    x.members == MembersOf(cs, where, b) && x.tokens == UnionOf(cs, where, b) && x.members != []
  }

  lemma {:induction false} GreedyExtends(cs: seq<Candidate>, where: seq<nat>, c: Candidate, b: nat)
    requires Greedy(cs, where) && JoinsFirstFit(cs + [c], where + [b], |cs|)
    ensures Greedy(cs + [c], where + [b])
  {
    forall i | 0 <= i < |cs| + 1 ensures JoinsFirstFit(cs + [c], where + [b], i) {
      if i < |cs| {
        assert JoinsFirstFit(cs, where, i);
        assert (cs + [c])[..i] == cs[..i] && (where + [b])[..i] == where[..i];
      }
    }
  }

  lemma {:induction false} BeyondOpenedIsEmpty(cs: seq<Candidate>, where: seq<nat>, b: nat)
    requires Greedy(cs, where) && b >= Opened(where)
    ensures MembersOf(cs, where, b) == [] && UnionOf(cs, where, b) == {}
  {
    if cs != [] {
      var n := |cs| - 1;
      assert JoinsFirstFit(cs, where, n);
      GreedyFront(cs, where);
      BeyondOpenedIsEmpty(cs[..n], where[..n], b);
    }
  }

  lemma {:induction false} GreedyFront(cs: seq<Candidate>, where: seq<nat>)
    requires Greedy(cs, where) && cs != []
    ensures Greedy(cs[..|cs| - 1], where[..|cs| - 1])
  {
    var n := |cs| - 1;
    forall i | 0 <= i < n ensures JoinsFirstFit(cs[..n], where[..n], i) {
      assert JoinsFirstFit(cs, where, i);
      assert cs[..n][..i] == cs[..i] && where[..n][..i] == where[..i];
    }
  }

  lemma {:induction false} OneMoreMember(front: seq<Candidate>, where: seq<nat>, c: Candidate, k: nat, b: nat)
    requires |where| == |front|
    ensures MembersOf(front + [c], where + [k], b) == MembersOf(front, where, b) + (if k == b then [c] else [])
    ensures UnionOf(front + [c], where + [k], b) ==
            UnionOf(front, where, b) + (if k == b then TokensOf(c.lowered) else {})
  {
    assert (front + [c])[..|front|] == front && (where + [k])[..|where|] == where;
  }

  lemma {:induction false} FirstFitJoins(front: seq<Candidate>, where: seq<nat>, bs: seq<Bucket>, c: Candidate)
    requires BucketsMatch(front, where, bs)
    ensures JoinsFirstFit(front + [c], where + [FirstFit(bs, TokensOf(c.lowered))], |front|)
  {
    var mine := TokensOf(c.lowered);
    var k := FirstFit(bs, mine);
    assert (front + [c])[..|front|] == front && (where + [k])[..|where|] == where;
    forall b | 0 <= b < k ensures !Similar(mine, UnionOf(front, where, b)) {
      assert BucketMatches(front, where, bs[b], b);
    }
    if k < |bs| {
      assert BucketMatches(front, where, bs[k], k);
    }
  }

  lemma {:induction false} PlacingMatches(front: seq<Candidate>, where: seq<nat>, bs: seq<Bucket>, c: Candidate)
    requires BucketsMatch(front, where, bs)
    requires MembersOf(front, where, |bs|) == [] && UnionOf(front, where, |bs|) == {}
    ensures BucketsMatch(front + [c], where + [FirstFit(bs, TokensOf(c.lowered))], Placed(bs, c))
  {
    var k := FirstFit(bs, TokensOf(c.lowered));
    var placed := Placed(bs, c);
    assert (where + [k])[..|where|] == where;
    forall b | 0 <= b < |placed| ensures BucketMatches(front + [c], where + [k], placed[b], b) {
      OneMoreMember(front, where, c, k, b);
      assert b < |bs| ==> BucketMatches(front, where, bs[b], b);
    }
  }

  /** Clustering is the greedy stable partition: every candidate is in exactly one topic, topics keep
      arrival order, a topic's tokens are those of its members, and each candidate joined the first
      topic that fitted its earlier members. */
  lemma {:induction false} ClusteringIsGreedyPartition(cs: seq<Candidate>)
    ensures Greedy(cs, Assignment(cs))
    ensures BucketsMatch(cs, Assignment(cs), Buckets(cs))
  {
    if cs != [] {
      var n := |cs| - 1;
      var front, c := cs[..n], cs[n];
      ClusteringIsGreedyPartition(front);
      var where, bs := Assignment(front), Buckets(front);
      assert cs == front + [c];
      FirstFitJoins(front, where, bs, c);
      GreedyExtends(front, where, c, FirstFit(bs, TokensOf(c.lowered)));
      BeyondOpenedIsEmpty(front, where, |bs|);
      PlacingMatches(front, where, bs, c);
    }
  }

  /** The greedy partition is unique, so it determines the clustering. */
  lemma {:induction false} GreedyIsUnique(cs: seq<Candidate>, a: seq<nat>, b: seq<nat>)
    requires Greedy(cs, a) && Greedy(cs, b)
    ensures a == b
  {
    if cs != [] {
      var n := |cs| - 1;
      GreedyFront(cs, a);
      GreedyFront(cs, b);
      GreedyIsUnique(cs[..n], a[..n], b[..n]);
      assert JoinsFirstFit(cs, a, n) && JoinsFirstFit(cs, b, n);
      SameChoice(cs, a, b, n);
      assert a == a[..n] + [a[n]] && b == b[..n] + [b[n]];
    }
  }

  lemma {:induction false} SameChoice(cs: seq<Candidate>, a: seq<nat>, b: seq<nat>, n: nat)
    requires |a| == |b| == |cs| && n < |cs| && a[..n] == b[..n]
    requires JoinsFirstFit(cs, a, n) && JoinsFirstFit(cs, b, n)
    ensures a[n] == b[n]
  {
    var mine, front, where := TokensOf(cs[n].lowered), cs[..n], a[..n];
    var fitsA := Similar(mine, UnionOf(front, where, a[n]));
    var fitsB := Similar(mine, UnionOf(front, where, b[n]));
  }

  lemma {:induction false} OpenedCovers(cs: seq<Candidate>, where: seq<nat>, j: nat, m: nat)
    requires Greedy(cs, where) && j < m <= |cs|
    ensures where[j] < Opened(where[..m])
  {
    assert JoinsFirstFit(cs, where, m - 1);
    assert where[..m][..m - 1] == where[..m - 1];
    if j < m - 1 {
      OpenedCovers(cs, where, j, m - 1);
    }
  }

  /** Nobody can join a topic opened without tokens, so it stays without tokens. */
  lemma {:induction false} TokenlessTopicStaysEmpty(cs: seq<Candidate>, where: seq<nat>, i: nat, m: nat)
    requires Greedy(cs, where) && i < m <= |cs|
    requires TokensOf(cs[i].lowered) == {} && where[i] == Opened(where[..i])
    ensures UnionOf(cs[..m], where[..m], where[i]) == {}
    ensures m < |cs| ==> where[m] != where[i]
  {
    var n := m - 1;
    assert cs[..m][..n] == cs[..n] && where[..m][..n] == where[..n];
    if n == i {
      GreedyUpTo(cs, where, i);
      BeyondOpenedIsEmpty(cs[..i], where[..i], where[i]);
    } else {
      TokenlessTopicStaysEmpty(cs, where, i, n);
    }
    if m < |cs| {
      assert JoinsFirstFit(cs, where, m);
      OpenedCovers(cs, where, i, m);
    }
  }

  lemma {:induction false} GreedyUpTo(cs: seq<Candidate>, where: seq<nat>, m: nat)
    requires Greedy(cs, where) && m <= |cs|
    ensures Greedy(cs[..m], where[..m])
  {
    forall i | 0 <= i < m ensures JoinsFirstFit(cs[..m], where[..m], i) {
      assert JoinsFirstFit(cs, where, i);
      assert cs[..m][..i] == cs[..i] && where[..m][..i] == where[..i];
    }
  }

  /** A candidate without tokens opens its own topic and nobody joins it. */
  lemma {:induction false} TokenlessStayAlone(cs: seq<Candidate>, where: seq<nat>, i: nat, j: nat)
    requires Greedy(cs, where) && i < |cs| && j < |cs| && i != j
    requires TokensOf(cs[i].lowered) == {}
    ensures where[i] == Opened(where[..i])
    ensures where[i] != where[j]
  {
    assert JoinsFirstFit(cs, where, i);
    if j < i {
      OpenedCovers(cs, where, j, i);
    } else {
      TokenlessTopicStaysEmpty(cs, where, i, j);
    }
  }

  // ------------------------------------------------------------------ sizes

  lemma {:induction false} TopicsAreSmall(cs: seq<Candidate>, where: seq<nat>, b: nat)
    requires |where| == |cs|
    ensures |MembersOf(cs, where, b)| <= |cs|
    ensures forall c :: c in MembersOf(cs, where, b) ==> c in cs
    ensures forall i :: 0 <= i < |cs| && where[i] == b ==> cs[i] in MembersOf(cs, where, b)
  {
    if cs != [] {
      var n := |cs| - 1;
      TopicsAreSmall(cs[..n], where[..n], b);
      assert cs == cs[..n] + [cs[n]];
      forall i | 0 <= i < |cs| && where[i] == b ensures cs[i] in MembersOf(cs, where, b) {
        if i < n {
          assert cs[..n][i] in MembersOf(cs[..n], where[..n], b);
        }
      }
    }
  }

  /** Every topic has between one member and the size of the batch, and the topics together hold
      exactly the batch. */
  lemma {:induction false} TopicsCoverTheBatch(cs: seq<Candidate>)
    ensures var ts := TopicsOf(Buckets(cs));
            && (forall b :: 0 <= b < |ts| ==> 1 <= |ts[b]| <= |cs|)
            && (forall c :: c in cs <==> exists b :: 0 <= b < |ts| && c in ts[b])
            && (cs != [] ==> ts != [])
  {
    var ts, where := TopicsOf(Buckets(cs)), Assignment(cs);
    ClusteringIsGreedyPartition(cs);
    assert forall b :: 0 <= b < |ts| ==> BucketMatches(cs, where, Buckets(cs)[b], b);
    forall b | 0 <= b < |ts| ensures 1 <= |ts[b]| <= |cs| && forall c :: c in ts[b] ==> c in cs {
      TopicsAreSmall(cs, where, b);
    }
    forall c | c in cs ensures exists b :: 0 <= b < |ts| && c in ts[b] {
      var i :| 0 <= i < |cs| && cs[i] == c;
      TopicsAreSmall(cs, where, where[i]);
      OpenedCovers(cs, where, i, |cs|);
      assert where[..|cs|] == where;
      assert c in ts[where[i]];
    }
    if cs != [] {
      assert cs[0] in cs;
    }
  }
}
