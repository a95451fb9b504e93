/** The spaced-repetition scheduler (ai_tutor_bot/utils/adaptive_learning.py): per user and per
    concept, the chronological list of review times, the next due time on the interval ladder,
    and the due-first ranking of candidate concepts. */
module AdaptiveLearning {
  import opened PyBuiltins
  import Config

  /** A point in time, in seconds. */
  type Timestamp = int

  /** `user_progress`: user -> concept -> review times, oldest first. */
  type Progress = map<string, map<string, seq<Timestamp>>>

  /** `timedelta(days=1)`, in seconds. */
  const SecondsPerDay: int := 86400

  /** The review history of `concept` for `user`, empty when never reviewed. */
  function History(p: Progress, user: string, concept: string): seq<Timestamp> {
    if user in p && concept in p[user] then p[user][concept] else []
  }

  /** The ladder rung used after `reviews` reviews: `min(reviews - 1, len(ladder) - 1)`. */
  function IntervalDays(reviews: nat): nat
    requires reviews >= 1
  {
    Config.RepetitionIntervals[Min(reviews - 1, |Config.RepetitionIntervals| - 1)]
  }

  /** The time a concept with the given history is next due. */
  function DueDate(reviews: seq<Timestamp>): Timestamp
    requires reviews != []
  {
    reviews[|reviews| - 1] + IntervalDays(|reviews|) * SecondsPerDay
  }

  /** Every recorded concept has at least one review: entries are created only to be appended to. */
  ghost predicate WellFormed(p: Progress) {
    forall u, c :: u in p && c in p[u] ==> p[u][c] != []
  }

  predicate Ascending(h: seq<Timestamp>) {
    forall i, j :: 0 <= i < j < |h| ==> h[i] <= h[j]
  }

  /** Every history is in chronological order. */
  ghost predicate Chronological(p: Progress) {
    forall u, c :: u in p && c in p[u] ==> Ascending(p[u][c])
  }

  /** The state after `update_progress(user, concept)` at time `now`. */
  function RecordReview(p: Progress, user: string, concept: string, now: Timestamp): (q: Progress)
    ensures History(q, user, concept) == History(p, user, concept) + [now]
    ensures q.Keys == p.Keys + {user}
    ensures q[user].Keys == (if user in p then p[user].Keys else {}) + {concept}
  {
    var row := if user in p then p[user] else map[];
    var reviews := if concept in row then row[concept] else [];
    p[user := row[concept := reviews + [now]]]
  }

  /** A review changes no other history, and no other user's row. */
  lemma RecordReviewOthers(p: Progress, user: string, concept: string, now: Timestamp)
    ensures forall u, c :: (u != user || c != concept) ==>
      History(RecordReview(p, user, concept, now), u, c) == History(p, u, c)
    ensures forall u :: u in p && u != user ==> RecordReview(p, user, concept, now)[u] == p[u]
  {
  }

  lemma RecordReviewWellFormed(p: Progress, user: string, concept: string, now: Timestamp)
    requires WellFormed(p)
    ensures WellFormed(RecordReview(p, user, concept, now))
  {
    var q := RecordReview(p, user, concept, now);
    RecordReviewOthers(p, user, concept, now);
    forall u, c | u in q && c in q[u] ensures q[u][c] != [] {
      if u == user && c == concept {
        assert History(q, u, c) == q[u][c];
      } else {
        assert History(q, u, c) == History(p, u, c) == q[u][c];
      }
    }
  }

  /** A review no earlier than the last one keeps every history chronological. */
  lemma RecordReviewChronological(p: Progress, user: string, concept: string, now: Timestamp)
    requires Chronological(p)
    requires forall i :: 0 <= i < |History(p, user, concept)| ==> History(p, user, concept)[i] <= now
    ensures Chronological(RecordReview(p, user, concept, now))
  {
    var q := RecordReview(p, user, concept, now);
    RecordReviewOthers(p, user, concept, now);
    forall u, c | u in q && c in q[u] ensures Ascending(q[u][c]) {
      var h := History(p, u, c);
      assert u in p && c in p[u] ==> h == p[u][c];
      if u == user && c == concept {
        assert q[u][c] == h + [now];
      } else {
        assert q[u][c] == h;
      }
    }
  }

  /** The ladder is used rung by rung and then its last rung repeats. */
  lemma IntervalLadder(reviews: nat)
    requires reviews >= 1
    ensures reviews == 1 ==> IntervalDays(reviews) == 1
    ensures reviews == 2 ==> IntervalDays(reviews) == 3
    ensures reviews == 3 ==> IntervalDays(reviews) == 7
    ensures reviews == 4 ==> IntervalDays(reviews) == 14
    ensures reviews >= 5 ==> IntervalDays(reviews) == 30
  {
  }

  /** More reviews never shorten the interval. */
  lemma IntervalMonotone(m: nat, n: nat)
    requires 1 <= m <= n
    ensures IntervalDays(m) <= IntervalDays(n)
  {
  }

  /** A concept's priority: 1 when never reviewed or due, 0 when not yet due. */
  function Priority(p: Progress, user: string, concept: string, now: Timestamp): (priority: nat)
    requires WellFormed(p)
    ensures priority <= 1
    ensures History(p, user, concept) == [] ==> priority == 1
    ensures History(p, user, concept) != [] ==> (priority == 1 <==> DueDate(History(p, user, concept)) <= now)
  {
    if user in p && concept in p[user] then
      (if DueDate(p[user][concept]) <= now then 1 else 0)
    else 1
  }

  /** A concept just reviewed is not due at the moment of the review, and falls due again exactly
      when the interval of the ladder has passed. */
  lemma DueAgainAfterInterval(p: Progress, user: string, concept: string, now: Timestamp, later: Timestamp)
    requires WellFormed(p)
    ensures WellFormed(RecordReview(p, user, concept, now))
    ensures Priority(RecordReview(p, user, concept, now), user, concept, later) == 1
       <==> later >= now + IntervalDays(|History(p, user, concept)| + 1) * SecondsPerDay
    ensures Priority(RecordReview(p, user, concept, now), user, concept, now) == 0
  {
    RecordReviewWellFormed(p, user, concept, now);
  }

  /** A single review 40 days ago is overdue; one a minute ago is not. */
  lemma OneReviewExamples(p: Progress, user: string, concept: string, now: Timestamp)
    requires WellFormed(p) && History(p, user, concept) == [now - 40 * SecondsPerDay]
    ensures Priority(p, user, concept, now) == 1
    ensures Priority(p, user, concept, now - 40 * SecondsPerDay + 60) == 0
  {
  }

  // ---------------------------------------------------------------------------------------------
  // Ranking: sort by (priority descending, name ascending)

  /** A concept paired with its priority, as `prioritized` holds them. */
  type Ranked = (string, nat)

  /** `(-priority, name)` of `a` is at most that of `b`. */
  predicate RanksBefore(a: Ranked, b: Ranked) {
    a.1 > b.1 || (a.1 == b.1 && LexLe(a.0, b.0))
  }

  predicate SortedRanked(s: seq<Ranked>) {
    forall i, j :: 0 <= i < j < |s| ==> RanksBefore(s[i], s[j])
  }

  lemma RanksBeforeTransitive(a: Ranked, b: Ranked, c: Ranked)
    requires RanksBefore(a, b) && RanksBefore(b, c)
    ensures RanksBefore(a, c)
  {
    if a.1 == b.1 == c.1 {
      LexLeTransitive(a.0, b.0, c.0);
    }
  }

  function Insert(x: Ranked, s: seq<Ranked>): (r: seq<Ranked>)
    ensures multiset(r) == multiset(s) + multiset{x}
    decreases |s|
  {
    if s == [] then [x]
    else if RanksBefore(x, s[0]) then [x] + s
    else
      assert s == [s[0]] + s[1..];
      [s[0]] + Insert(x, s[1..])
  }

  lemma {:induction false} InsertSorted(x: Ranked, s: seq<Ranked>)
    requires SortedRanked(s)
    ensures SortedRanked(Insert(x, s))
    decreases |s|
  {
    if s == [] {
    } else if RanksBefore(x, s[0]) {
      forall j | 0 <= j < |s| ensures RanksBefore(x, s[j]) {
        if j > 0 { RanksBeforeTransitive(x, s[0], s[j]); }
      }
    } else {
      LexLeTotal(x.0, s[0].0);
      assert RanksBefore(s[0], x);
      var t := Insert(x, s[1..]);
      InsertSorted(x, s[1..]);
      InsertMembers(x, s[1..]);
      forall j | 0 <= j < |t| ensures RanksBefore(s[0], t[j]) {
        assert t[j] in t;
        if t[j] != x {
          var k :| 0 <= k < |s[1..]| && s[1..][k] == t[j];
          assert s[k + 1] == t[j];
        }
      }
      var r := [s[0]] + t;
      forall i, j | 0 <= i < j < |r| ensures RanksBefore(r[i], r[j]) {
        if i > 0 { assert r[i] == t[i - 1] && r[j] == t[j - 1]; } else { assert r[j] == t[j - 1]; }
      }
    }
  }

  lemma {:induction false} InsertMembers(x: Ranked, s: seq<Ranked>)
    ensures forall y :: y in Insert(x, s) <==> y == x || y in s
    decreases |s|
  {
    if s != [] && !RanksBefore(x, s[0]) {
      InsertMembers(x, s[1..]);
      assert s == [s[0]] + s[1..];
    }
  }

  /** `list.sort(key=lambda x: (-x[1], x[0]))`, as an insertion sort. */
  function SortRanked(s: seq<Ranked>): (r: seq<Ranked>)
    ensures multiset(r) == multiset(s)
    decreases |s|
  {
    if s == [] then []
    else
      assert s == [s[0]] + s[1..];
      Insert(s[0], SortRanked(s[1..]))
  }

  lemma {:induction false} SortRankedSorted(s: seq<Ranked>)
    ensures SortedRanked(SortRanked(s))
    decreases |s|
  {
    if s != [] {
      SortRankedSorted(s[1..]);
      InsertSorted(s[0], SortRanked(s[1..]));
    }
  }

  /** The `(concept, priority)` pairs the loop of `get_learning_context` builds. */
  function Prioritize(p: Progress, user: string, concepts: seq<string>, now: Timestamp): (r: seq<Ranked>)
    requires WellFormed(p)
    ensures |r| == |concepts|
    ensures forall i :: 0 <= i < |r| ==> r[i] == (concepts[i], Priority(p, user, concepts[i], now))
  {
    seq(|concepts|, i requires 0 <= i < |concepts| => (concepts[i], Priority(p, user, concepts[i], now)))
  }

  function Names(s: seq<Ranked>): (r: seq<string>)
    ensures |r| == |s| && forall i :: 0 <= i < |s| ==> r[i] == s[i].0
    decreases |s|
  {
    if s == [] then [] else [s[0].0] + Names(s[1..])
  }

  /** What `get_learning_context(user, concepts)` returns at time `now`. */
  function RankedConcepts(p: Progress, user: string, concepts: seq<string>, now: Timestamp): seq<string>
    requires WellFormed(p)
  {
    Names(SortRanked(Prioritize(p, user, concepts, now)))
  }

  /** `a` comes no later than `b` in a ranking: due before not due, then by name. */
  predicate ConceptBefore(p: Progress, user: string, now: Timestamp, a: string, b: string)
    requires WellFormed(p)
  {
    RanksBefore((a, Priority(p, user, a, now)), (b, Priority(p, user, b, now)))
  }

  /** A ranking of `concepts`: the same concepts, as often each, in `ConceptBefore` order. */
  ghost predicate IsRanking(p: Progress, user: string, now: Timestamp, concepts: seq<string>, ranked: seq<string>)
    requires WellFormed(p)
  {
    multiset(ranked) == multiset(concepts) && Ordered(p, user, now, ranked)
  }

  /** Each concept of `ranked` comes no later, by `ConceptBefore`, than every one after it. */
  ghost predicate Ordered(p: Progress, user: string, now: Timestamp, ranked: seq<string>)
    requires WellFormed(p)
  {
    forall i, j :: 0 <= i < j < |ranked| ==> ConceptBefore(p, user, now, ranked[i], ranked[j])
  }

  lemma OrderedTail(p: Progress, user: string, now: Timestamp, ranked: seq<string>)
    requires WellFormed(p) && Ordered(p, user, now, ranked) && ranked != []
    ensures Ordered(p, user, now, ranked[1..])
  {
    var t := ranked[1..];
    forall i, j | 0 <= i < j < |t| ensures ConceptBefore(p, user, now, t[i], t[j]) {
      assert t[i] == ranked[i + 1] && t[j] == ranked[j + 1];
    }
  }

  lemma {:induction false} NamesInsert(x: Ranked, s: seq<Ranked>)
    ensures multiset(Names(Insert(x, s))) == multiset(Names(s)) + multiset{x.0}
    decreases |s|
  {
    if s == [] {
    } else if RanksBefore(x, s[0]) {
      assert ([x] + s)[1..] == s;
      assert Names(Insert(x, s)) == [x.0] + Names(s);
    } else {
      NamesInsert(x, s[1..]);
      var t := Insert(x, s[1..]);
      assert ([s[0]] + t)[1..] == t;
      assert Names(Insert(x, s)) == [s[0].0] + Names(t);
      assert multiset(Names(Insert(x, s))) == multiset{s[0].0} + multiset(Names(t));
      assert multiset(Names(s)) == multiset{s[0].0} + multiset(Names(s[1..]));
    }
  }

  lemma {:induction false} NamesSort(s: seq<Ranked>)
    ensures multiset(Names(SortRanked(s))) == multiset(Names(s))
    decreases |s|
  {
    if s != [] {
      NamesSort(s[1..]);
      NamesInsert(s[0], SortRanked(s[1..]));
      assert Names(s) == [s[0].0] + Names(s[1..]);
    }
  }

  /** `get_learning_context` returns a permutation of its input, due concepts first and names
      ascending within equal priority. */
  lemma RankedConceptsIsRanking(p: Progress, user: string, concepts: seq<string>, now: Timestamp)
    requires WellFormed(p)
    ensures IsRanking(p, user, now, concepts, RankedConcepts(p, user, concepts, now))
  {
    var pairs := Prioritize(p, user, concepts, now);
    var sorted := SortRanked(pairs);
    var r := Names(sorted);
    NamesSort(pairs);
    assert Names(pairs) == concepts;
    SortRankedSorted(pairs);
    forall i | 0 <= i < |sorted| ensures sorted[i].1 == Priority(p, user, sorted[i].0, now) {
      assert sorted[i] in multiset(pairs);
      var k :| 0 <= k < |pairs| && pairs[k] == sorted[i];
    }
  }

  /** Two rankings of the same concepts start with the same concept. */
  lemma RankingHeads(p: Progress, user: string, now: Timestamp, concepts: seq<string>, r1: seq<string>, r2: seq<string>)
    requires WellFormed(p)
    requires IsRanking(p, user, now, concepts, r1) && IsRanking(p, user, now, concepts, r2)
    requires r1 != []
    ensures r2 != [] && r1[0] == r2[0]
  {
    assert |r1| == |multiset(concepts)| == |r2|;
    var a, b := r1[0], r2[0];
    assert a in multiset(r2) by { assert a in multiset(r1); }
    assert b in multiset(r1) by { assert b in multiset(r2); }
    var i :| 0 <= i < |r2| && r2[i] == a;
    var j :| 0 <= j < |r1| && r1[j] == b;
    if i == 0 {
      LexLeReflexive(a);
    } else {
      assert ConceptBefore(p, user, now, r2[0], r2[i]);
    }
    if j == 0 {
      LexLeReflexive(b);
    } else {
      assert ConceptBefore(p, user, now, r1[0], r1[j]);
    }
    LexLeAntisymmetric(a, b);
  }

  /** Dropping the common head of two rankings leaves two rankings of the same concepts. */
  lemma RankingTails(p: Progress, user: string, now: Timestamp, concepts: seq<string>, r1: seq<string>, r2: seq<string>)
    requires WellFormed(p)
    requires IsRanking(p, user, now, concepts, r1) && IsRanking(p, user, now, concepts, r2)
    requires r1 != [] && r2 != [] && r1[0] == r2[0]
    ensures IsRanking(p, user, now, r1[1..], r1[1..]) && IsRanking(p, user, now, r1[1..], r2[1..])
  {
    assert r1 == [r1[0]] + r1[1..] && r2 == [r1[0]] + r2[1..];
    assert multiset(r1) == multiset{r1[0]} + multiset(r1[1..]);
    assert multiset(r2) == multiset{r1[0]} + multiset(r2[1..]);
    assert multiset(r1) == multiset(concepts) == multiset(r2);
    assert multiset(r1[1..]) == multiset(r1) - multiset{r1[0]} == multiset(r2[1..]);
    OrderedTail(p, user, now, r1);
    OrderedTail(p, user, now, r2);
  }

  /** A ranking is determined by the multiset of concepts: the order in which they were offered
      does not matter. */
  lemma {:induction false} RankingUnique(p: Progress, user: string, now: Timestamp, concepts: seq<string>, r1: seq<string>, r2: seq<string>)
    requires WellFormed(p)
    requires IsRanking(p, user, now, concepts, r1) && IsRanking(p, user, now, concepts, r2)
    ensures r1 == r2
    decreases |r1|
  {
    if r1 != [] {
      RankingHeads(p, user, now, concepts, r1, r2);
      RankingTails(p, user, now, concepts, r1, r2);
      RankingUnique(p, user, now, r1[1..], r1[1..], r2[1..]);
      assert r1 == [r1[0]] + r1[1..] && r2 == [r2[0]] + r2[1..];
    } else {
      assert |r2| == |multiset(concepts)| == |r1|;
    }
  }

  /** The learning system: the review history of every user, updated in place. */
  class AdaptiveLearningSystem {
    var userProgress: Progress

    ghost predicate Valid()
      reads this
    {
      WellFormed(userProgress)
    }

    constructor ()
      ensures Valid() && userProgress == map[]
    {
      userProgress := map[];
    }

    /** Records a review of `concept` by `userId` at `now` and returns when it is next due. */
    method UpdateProgress(userId: string, concept: string, now: Timestamp) returns (nextReview: Timestamp)
      requires Valid()
      modifies this
      ensures Valid()
      ensures userProgress == RecordReview(old(userProgress), userId, concept, now)
      ensures nextReview == DueDate(History(userProgress, userId, concept))
      ensures nextReview == now + IntervalDays(|History(old(userProgress), userId, concept)| + 1) * SecondsPerDay
    {
      ghost var before := userProgress;
      ghost var row0 := if userId in before then before[userId] else map[];
      ghost var reviews0 := if concept in row0 then row0[concept] else [];
      if userId !in userProgress {
        userProgress := userProgress[userId := map[]];
      }
      var row := userProgress[userId];
      assert row == row0;
      if concept !in row {
        row := row[concept := []];
      }
      assert row[concept := row[concept] + [now]] == row0[concept := reviews0 + [now]];
      userProgress := userProgress[userId := row[concept := row[concept] + [now]]];
      assert userProgress == before[userId := row0[concept := reviews0 + [now]]];
      RecordReviewWellFormed(before, userId, concept, now);

      var reviews := userProgress[userId][concept];
      assert reviews == History(userProgress, userId, concept);
      if |reviews| < |Config.RepetitionIntervals| {
        nextReview := reviews[|reviews| - 1] + Config.RepetitionIntervals[|reviews| - 1] * SecondsPerDay;
      } else {
        nextReview := reviews[|reviews| - 1] + Config.RepetitionIntervals[|Config.RepetitionIntervals| - 1] * SecondsPerDay;
      }
    }

    /** Ranks `concepts` for `userId` at time `now`, due or unseen concepts first, names ascending
        among equals. Reads the history and changes nothing. */
    method GetLearningContext(userId: string, concepts: seq<string>, now: Timestamp) returns (ranked: seq<string>)
      requires Valid()
      ensures ranked == RankedConcepts(userProgress, userId, concepts, now)
      ensures IsRanking(userProgress, userId, now, concepts, ranked)
    {
      var prioritized: seq<Ranked> := [];
      for i := 0 to |concepts|
        invariant prioritized == Prioritize(userProgress, userId, concepts[..i], now)
      {
        var concept := concepts[i];
        var priority: nat;
        if userId in userProgress && concept in userProgress[userId] {
          var reviews := userProgress[userId][concept];
          var lastReview := reviews[|reviews| - 1];
          var intervalIdx := Min(|reviews| - 1, |Config.RepetitionIntervals| - 1);
          var dueDate := lastReview + Config.RepetitionIntervals[intervalIdx] * SecondsPerDay;
          priority := if dueDate <= now then 1 else 0;
        } else {
          priority := 1;
        }
        prioritized := prioritized + [(concept, priority)];
      }
      assert concepts[..|concepts|] == concepts;
      prioritized := SortRanked(prioritized);
      ranked := Names(prioritized);
      RankedConceptsIsRanking(userProgress, userId, concepts, now);
    }
  }
}
