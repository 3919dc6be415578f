/**
 * The leaderboard of a room: results are ordered by score (highest first) and then by
 * time taken (shortest first, a missing or zero time last), and get standard competition
 * ranks — tied results share the position of the first of them, and the next result's
 * rank skips past the tie.
 */
module Ranking {
  import opened Wrappers
  import opened Models
  import opened Sorting

  /** A time taken, or the largest duration that stands for a missing one. */
  datatype TimeKey = Finite(t: int) | Worst

  /** The key the results are sorted and grouped by. */
  datatype RankKey = RankKey(score: int, time: TimeKey)

  /** `(int(r.score), r.time_taken or timedelta.max)`: a missing or zero time reads as the largest. */
  function KeyOf(r: QuizResult): (k: RankKey)
    ensures k.score == r.score
    ensures k.time == Worst <==> r.timeTaken == None || r.timeTaken == Some(0)
    ensures k.time.Finite? ==> r.timeTaken == Some(k.time.t)
  {
    match r.timeTaken
    case None => RankKey(r.score, Worst)
    case Some(t) => if t == 0 then RankKey(r.score, Worst) else RankKey(r.score, Finite(t))
  }

  predicate TimeBefore(a: TimeKey, b: TimeKey) {
    a.Finite? && (b.Worst? || a.t < b.t)
  }

  /** `a` sorts strictly ahead of `b`: a higher score, or the same score in less time. */
  predicate Better(a: RankKey, b: RankKey) {
    a.score > b.score || (a.score == b.score && TimeBefore(a.time, b.time))
  }

  /** Keys are strictly and totally ordered: two different keys are never tied. */
  lemma BetterIsStrictTotalOrder(a: RankKey, b: RankKey, c: RankKey)
    ensures !Better(a, a)
    ensures Better(a, b) ==> !Better(b, a)
    ensures Better(a, b) && Better(b, c) ==> Better(a, c)
    ensures a == b || Better(a, b) || Better(b, a)
  {
  }

  /** `r` may come before `s` in `results.sort(key=lambda r: (-score, time or max))`. */
  predicate SortsBefore(r: QuizResult, s: QuizResult) {
    !Better(KeyOf(s), KeyOf(r))
  }

  lemma SortsBeforeIsTotalPreorder()
    ensures TotalPreorder(SortsBefore)
  {
    forall a, b, c | SortsBefore(a, b) && SortsBefore(b, c) ensures SortsBefore(a, c) {
      BetterIsStrictTotalOrder(KeyOf(a), KeyOf(b), KeyOf(c));
      BetterIsStrictTotalOrder(KeyOf(c), KeyOf(a), KeyOf(b));
      BetterIsStrictTotalOrder(KeyOf(b), KeyOf(c), KeyOf(a));
    }
  }

  // ---------------------------------------------------------------------------
  // The rank of a result, independent of any order
  // ---------------------------------------------------------------------------

  /** How many of `rows` have a strictly better key than `k`. */
  function CountBetter(rows: seq<QuizResult>, k: RankKey): (n: nat)
    ensures n <= |rows|
  {
    if rows == [] then 0
    else CountBetter(rows[..|rows| - 1], k) + (if Better(KeyOf(rows[|rows| - 1]), k) then 1 else 0)
  }

  /** Standard competition rank of `r` among `rows`: one more than the results ahead of it. */
  function CompetitionRank(rows: seq<QuizResult>, r: QuizResult): (rank: nat)
    ensures 1 <= rank <= |rows| + 1
  {
    1 + CountBetter(rows, KeyOf(r))
  }

  lemma {:induction false} CountBetterAppend(a: seq<QuizResult>, b: seq<QuizResult>, k: RankKey)
    ensures CountBetter(a + b, k) == CountBetter(a, k) + CountBetter(b, k)
    decreases |b|
  {
    if b == [] {
      assert a + b == a;
    } else {
      var b' := b[..|b| - 1];
      assert (a + b)[..|a + b| - 1] == a + b';
      assert (a + b)[|a + b| - 1] == b[|b| - 1];
      CountBetterAppend(a, b', k);
    }
  }

  /** Counting over a list is counting without its `j`-th row, plus that row. */
  lemma CountBetterRemove(t: seq<QuizResult>, j: nat, k: RankKey)
    requires j < |t|
    ensures CountBetter(t, k) == CountBetter(t[..j] + t[j + 1..], k) + (if Better(KeyOf(t[j]), k) then 1 else 0)
  {
    var x := t[j];
    assert t == t[..j] + ([x] + t[j + 1..]);
    CountBetterAppend(t[..j], [x] + t[j + 1..], k);
    CountBetterAppend([x], t[j + 1..], k);
    CountBetterAppend(t[..j], t[j + 1..], k);
    assert CountBetter([x], k) == (if Better(KeyOf(x), k) then 1 else 0) by {
      assert [x][..0] == [];
    }
  }

  /** The count of better keys does not depend on the order of the rows. */
  lemma {:induction false} CountBetterPermutation(s: seq<QuizResult>, t: seq<QuizResult>, k: RankKey)
    requires multiset(s) == multiset(t)
    ensures CountBetter(s, k) == CountBetter(t, k)
    decreases |s|
  {
    if s != [] {
      var n := |s| - 1;
      var x := s[n];
      assert s == s[..n] + [x];
      assert x in multiset(t);
      var j :| 0 <= j < |t| && t[j] == x;
      RemoveOneKeepsRest(s, t, j);
      CountBetterPermutation(s[..n], t[..j] + t[j + 1..], k);
      CountBetterRemove(t, j, k);
    }
  }

  /** The ids of a list of results. */
  function IdsOf(rows: seq<QuizResult>): set<Id> {
    set i | 0 <= i < |rows| :: rows[i].id
  }

  /** The ids among `ids` whose result has a strictly better key than `k`. */
  function BetterIds(results: map<Id, QuizResult>, ids: set<Id>, k: RankKey): set<Id> {
    set id | id in ids && id in results && Better(KeyOf(results[id]), k)
  }

  /** `rows` lists results of `results` by their ids, each id once. */
  ghost predicate Enumerates(rows: seq<QuizResult>, results: map<Id, QuizResult>) {
    && (forall i :: 0 <= i < |rows| ==> rows[i].id in results && results[rows[i].id] == rows[i])
    && (forall i, j :: 0 <= i < j < |rows| ==> rows[i].id != rows[j].id)
  }

  /** Counting along an enumeration is counting the set of better ids. */
  lemma {:induction false} CountBetterIsSetSize(rows: seq<QuizResult>, results: map<Id, QuizResult>, k: RankKey)
    requires Enumerates(rows, results)
    ensures CountBetter(rows, k) == |BetterIds(results, IdsOf(rows), k)|
    decreases |rows|
  {
    if rows != [] {
      var n := |rows| - 1;
      var init, x := rows[..n], rows[n];
      EnumerationSnoc(rows, results);
      CountBetterIsSetSize(init, results, k);
      BetterIdsAdd(results, IdsOf(init), x.id, k);
    }
  }

  /** An enumeration without its last row is one, and that row's id is new to it. */
  lemma EnumerationSnoc(rows: seq<QuizResult>, results: map<Id, QuizResult>)
    requires Enumerates(rows, results) && rows != []
    ensures var n := |rows| - 1;
      && Enumerates(rows[..n], results)
      && IdsOf(rows) == IdsOf(rows[..n]) + {rows[n].id}
      && rows[n].id !in IdsOf(rows[..n])
      && rows[n].id in results && results[rows[n].id] == rows[n]
  {
    var n := |rows| - 1;
    assert forall i :: 0 <= i < n ==> rows[..n][i] == rows[i];
  }

  /** Adding a new id adds it to the better ids exactly when its result is better. */
  lemma BetterIdsAdd(results: map<Id, QuizResult>, ids: set<Id>, id: Id, k: RankKey)
    requires id !in ids && id in results
    ensures |BetterIds(results, ids + {id}, k)| ==
      |BetterIds(results, ids, k)| + (if Better(KeyOf(results[id]), k) then 1 else 0)
  {
    if Better(KeyOf(results[id]), k) {
      assert BetterIds(results, ids + {id}, k) == BetterIds(results, ids, k) + {id};
    } else {
      assert BetterIds(results, ids + {id}, k) == BetterIds(results, ids, k);
    }
  }

  /**
   * The competition rank of result `r` among the results `ids` of a room: one more than
   * the number of them with a strictly better key. It does not depend on any order.
   */
  function QuizRank(results: map<Id, QuizResult>, ids: set<Id>, r: QuizResult): nat {
    1 + |BetterIds(results, ids, KeyOf(r))|
  }

  /** A subset is no larger, and one of the same size is the whole set. */
  lemma {:induction false} SubsetSize(a: set<Id>, b: set<Id>)
    requires a <= b
    ensures |a| <= |b|
    ensures |a| == |b| ==> a == b
    decreases |b|
  {
    if b != {} {
      var x :| x in b;
      SubsetSize(a - {x}, b - {x});
      assert b == (b - {x}) + {x};
      if x in a {
        assert a == (a - {x}) + {x};
      } else {
        assert a - {x} == a;
      }
    }
  }

  /**
   * A result with a strictly better key than another ranks strictly ahead of it, and
   * results with equal keys share a rank: ordering a room's results by `QuizRank` is
   * ordering them by key.
   */
  lemma QuizRankOrdersByKey(results: map<Id, QuizResult>, ids: set<Id>, a: Id, b: QuizResult)
    requires a in ids && a in results
    ensures Better(KeyOf(results[a]), KeyOf(b)) ==> QuizRank(results, ids, results[a]) < QuizRank(results, ids, b)
    ensures KeyOf(results[a]) == KeyOf(b) ==> QuizRank(results, ids, results[a]) == QuizRank(results, ids, b)
  {
    var ka, kb := KeyOf(results[a]), KeyOf(b);
    if Better(ka, kb) {
      var ahead, behind := BetterIds(results, ids, ka), BetterIds(results, ids, kb);
      forall id | id in ahead ensures id in behind {
        BetterIsStrictTotalOrder(KeyOf(results[id]), ka, kb);
      }
      BetterIsStrictTotalOrder(ka, ka, kb);
      assert a in behind && a !in ahead;
      SubsetSize(ahead, behind);
    }
  }

  /** Any enumeration of the room's results ranks each of them by `QuizRank`. */
  lemma CompetitionRankIsQuizRank(rows: seq<QuizResult>, results: map<Id, QuizResult>, r: QuizResult)
    requires Enumerates(rows, results)
    ensures CompetitionRank(rows, r) == QuizRank(results, IdsOf(rows), r)
  {
    CountBetterIsSetSize(rows, results, KeyOf(r));
  }

  /** A reordering of an enumeration lists the same results, each found in the store. */
  lemma ReorderedRowsAreStored(rows: seq<QuizResult>, s: seq<QuizResult>, results: map<Id, QuizResult>)
    requires Enumerates(rows, results) && multiset(s) == multiset(rows)
    ensures forall j :: 0 <= j < |s| ==> s[j].id in results && results[s[j].id] == s[j] && s[j].id in IdsOf(rows)
    ensures forall k :: k in IdsOf(rows) ==> exists j :: 0 <= j < |s| && s[j].id == k
  {
    forall j | 0 <= j < |s|
      ensures s[j].id in results && results[s[j].id] == s[j] && s[j].id in IdsOf(rows)
    {
      assert s[j] in multiset(rows);
      var i :| 0 <= i < |rows| && rows[i] == s[j];
    }
    forall k | k in IdsOf(rows)
      ensures exists j :: 0 <= j < |s| && s[j].id == k
    {
      var i :| 0 <= i < |rows| && rows[i].id == k;
      assert rows[i] in multiset(s);
      var j :| 0 <= j < |s| && s[j] == rows[i];
    }
  }

  // ---------------------------------------------------------------------------
  // Ranks along a sorted list
  // ---------------------------------------------------------------------------

  /** When the first `i` rows are exactly the better ones, `i` rows are counted. */
  lemma {:induction false} CountBetterOfSplit(s: seq<QuizResult>, i: nat, k: RankKey)
    requires i <= |s|
    requires forall j :: 0 <= j < i ==> Better(KeyOf(s[j]), k)
    requires forall j :: i <= j < |s| ==> !Better(KeyOf(s[j]), k)
    ensures CountBetter(s, k) == i
    decreases |s|
  {
    if s != [] {
      var n := |s| - 1;
      if i <= n {
        CountBetterOfSplit(s[..n], i, k);
      } else {
        CountBetterOfSplit(s[..n], n, k);
      }
    }
  }

  /**
   * In a sorted list, a row that starts a new key group has exactly its index of rows
   * ahead of it, so its competition rank is its 1-based position.
   */
  lemma GroupStartRank(s: seq<QuizResult>, i: nat)
    requires Sorted(s, SortsBefore) && i < |s|
    requires i > 0 ==> KeyOf(s[i - 1]) != KeyOf(s[i])
    ensures CompetitionRank(s, s[i]) == i + 1
  {
    var k := KeyOf(s[i]);
    forall j | 0 <= j < i ensures Better(KeyOf(s[j]), k) {
      BetterIsStrictTotalOrder(KeyOf(s[i - 1]), k, KeyOf(s[j]));
      BetterIsStrictTotalOrder(KeyOf(s[j]), KeyOf(s[i - 1]), k);
    }
    CountBetterOfSplit(s, i, k);
  }

  /** The rows whose stored rank differs from their competition rank among `all`, re-ranked. */
  function Changed(s: seq<QuizResult>, all: seq<QuizResult>): (c: seq<QuizResult>)
    ensures |c| <= |s|
    ensures forall j :: 0 <= j < |c| ==> c[j].rank == CompetitionRank(all, c[j])
  {
    if s == [] then []
    else
      var r := s[|s| - 1];
      var rank := CompetitionRank(all, r);
      Changed(s[..|s| - 1], all) + (if r.rank != rank then [r.(rank := rank)] else [])
  }

  /** Extending the list by one row adds that row, re-ranked, when its rank is wrong. */
  lemma ChangedStep(s: seq<QuizResult>, all: seq<QuizResult>, i: nat)
    requires i < |s|
    ensures var rank := CompetitionRank(all, s[i]);
      Changed(s[..i + 1], all) == Changed(s[..i], all) + (if s[i].rank != rank then [s[i].(rank := rank)] else [])
  {
    assert s[..i + 1][..i] == s[..i];
  }

  /** Nothing is to be written exactly when every rank is already right. */
  lemma {:induction false} ChangedEmptyIff(s: seq<QuizResult>, all: seq<QuizResult>)
    ensures Changed(s, all) == [] <==> forall j :: 0 <= j < |s| ==> s[j].rank == CompetitionRank(all, s[j])
    decreases |s|
  {
    if s != [] {
      var n := |s| - 1;
      ChangedEmptyIff(s[..n], all);
      assert forall j :: 0 <= j < n ==> s[..n][j] == s[j];
    }
  }

  /**
   * Writing the changed rows gives each listed result its competition rank and leaves the
   * rest alone: the rank `bulk_update` writes for `id` is the right one when the stored
   * rank was wrong, and nothing otherwise.
   */
  lemma {:induction false} ChangedRankFor(s: seq<QuizResult>, all: seq<QuizResult>, results: map<Id, QuizResult>, id: Id)
    requires forall j :: 0 <= j < |s| ==> s[j].id in results && results[s[j].id] == s[j]
    ensures (exists j :: 0 <= j < |s| && s[j].id == id && s[j].rank != CompetitionRank(all, s[j])) ==>
      RankFor(Changed(s, all), id) == Some(CompetitionRank(all, results[id]))
    ensures (forall j :: 0 <= j < |s| && s[j].id == id ==> s[j].rank == CompetitionRank(all, s[j])) ==>
      RankFor(Changed(s, all), id) == None
    decreases |s|
  {
    if s != [] {
      var n := |s| - 1;
      var r := s[n];
      ChangedRankFor(s[..n], all, results, id);
      assert forall j :: 0 <= j < n ==> s[..n][j] == s[j];
      var init := Changed(s[..n], all);
      if r.rank != CompetitionRank(all, r) {
        var c := init + [r.(rank := CompetitionRank(all, r))];
        assert Changed(s, all) == c;
        assert c[..|c| - 1] == init;
      } else {
        assert Changed(s, all) == init;
      }
    }
  }

  /** The ranks of the worked example: scores 10, 10, 8, 8, 8, 5 in equal times rank 1, 1, 3, 3, 3, 6. */
  lemma CompetitionRankExample(t: int)
    requires t > 0
    ensures var rows := [QuizResult(1, 1, 1, 10, Some(t), 0), QuizResult(2, 1, 2, 10, Some(t), 0),
                         QuizResult(3, 1, 3, 8, Some(t), 0), QuizResult(4, 1, 4, 8, Some(t), 0),
                         QuizResult(5, 1, 5, 8, Some(t), 0), QuizResult(6, 1, 6, 5, Some(t), 0)];
      && CompetitionRank(rows, rows[0]) == 1 && CompetitionRank(rows, rows[1]) == 1
      && CompetitionRank(rows, rows[2]) == 3 && CompetitionRank(rows, rows[3]) == 3
      && CompetitionRank(rows, rows[4]) == 3 && CompetitionRank(rows, rows[5]) == 6
  {
    var rows := [QuizResult(1, 1, 1, 10, Some(t), 0), QuizResult(2, 1, 2, 10, Some(t), 0),
                 QuizResult(3, 1, 3, 8, Some(t), 0), QuizResult(4, 1, 4, 8, Some(t), 0),
                 QuizResult(5, 1, 5, 8, Some(t), 0), QuizResult(6, 1, 6, 5, Some(t), 0)];
    CountBetterOfSplit(rows, 0, KeyOf(rows[0]));
    CountBetterOfSplit(rows, 2, KeyOf(rows[2]));
    CountBetterOfSplit(rows, 5, KeyOf(rows[5]));
  }

  // ---------------------------------------------------------------------------
  // The walk of `quiz_results`
  // ---------------------------------------------------------------------------

  /** Sorting an enumeration of stored results gives an enumeration of the same results. */
  lemma SortedEnumerates(rows: seq<QuizResult>, results: map<Id, QuizResult>)
    requires Enumerates(rows, results)
    ensures Enumerates(Sort(rows, SortsBefore), results)
    ensures IdsOf(Sort(rows, SortsBefore)) == IdsOf(rows)
  {
    var sorted := Sort(rows, SortsBefore);
    ReorderedRowsAreStored(rows, sorted, results);
    assert Distinct(rows);
    DistinctPermutation(rows, sorted);
    forall k | k in IdsOf(rows) ensures k in IdsOf(sorted) {
      var j :| 0 <= j < |sorted| && sorted[j].id == k;
    }
  }

  /**
   * Restamping the sorted rows with their competition ranks lists every stored result
   * once, best first, each as stored except for its rank.
   */
  lemma RestampedRowsStored(rows: seq<QuizResult>, results: map<Id, QuizResult>, ranked: seq<QuizResult>)
    requires Enumerates(rows, results)
    requires |ranked| == |rows|
    requires forall j :: 0 <= j < |ranked| ==>
      ranked[j] == Sort(rows, SortsBefore)[j].(rank := CompetitionRank(rows, Sort(rows, SortsBefore)[j]))
    ensures forall j :: 0 <= j < |ranked| ==>
      && ranked[j].id in IdsOf(rows) && ranked[j].id in results
      && ranked[j] == results[ranked[j].id].(rank := CompetitionRank(rows, results[ranked[j].id]))
    ensures forall i, j :: 0 <= i < j < |ranked| ==> ranked[i].id != ranked[j].id && SortsBefore(ranked[i], ranked[j])
  {
    var sorted := Sort(rows, SortsBefore);
    SortedEnumerates(rows, results);
    SortsBeforeIsTotalPreorder();
    SortSorted(rows, SortsBefore);
    forall j | 0 <= j < |ranked|
      ensures ranked[j].id in IdsOf(rows) && ranked[j].id in results
      ensures ranked[j] == results[ranked[j].id].(rank := CompetitionRank(rows, results[ranked[j].id]))
    {
      assert sorted[j].id in IdsOf(sorted);
    }
    forall i, j | 0 <= i < j < |ranked|
      ensures ranked[i].id != ranked[j].id && SortsBefore(ranked[i], ranked[j])
    {
      assert SortsBefore(sorted[i], sorted[j]);
    }
  }

  /** The sorted list is sorted and ranks the same as the fetched rows. */
  lemma SortedRanksAgree(rows: seq<QuizResult>)
    ensures Sorted(Sort(rows, SortsBefore), SortsBefore)
    ensures forall k :: CountBetter(Sort(rows, SortsBefore), k) == CountBetter(rows, k)
  {
    SortsBeforeIsTotalPreorder();
    SortSorted(rows, SortsBefore);
    forall k: RankKey ensures CountBetter(Sort(rows, SortsBefore), k) == CountBetter(rows, k) {
      CountBetterPermutation(Sort(rows, SortsBefore), rows, k);
    }
  }

  /**
   * Along `s`, a row that starts a key group ranks at its 1-based position among `all`
   * and a row that continues one shares the rank of the row before it.
   */
  ghost predicate RanksStepwise(s: seq<QuizResult>, all: seq<QuizResult>) {
    forall i :: 0 <= i < |s| ==>
      && (i == 0 || KeyOf(s[i - 1]) != KeyOf(s[i]) ==> CompetitionRank(all, s[i]) == i + 1)
      && (i > 0 && KeyOf(s[i - 1]) == KeyOf(s[i]) ==> CompetitionRank(all, s[i]) == CompetitionRank(all, s[i - 1]))
  }

  /** The sorted rows rank stepwise. */
  lemma SortedRanksStepwise(rows: seq<QuizResult>)
    ensures RanksStepwise(Sort(rows, SortsBefore), rows)
  {
    SortedRanksAgree(rows);
    SortedListRanksStepwise(Sort(rows, SortsBefore), rows);
  }

  /** A sorted list that counts like `all` ranks stepwise among `all`. */
  lemma SortedListRanksStepwise(s: seq<QuizResult>, all: seq<QuizResult>)
    requires Sorted(s, SortsBefore)
    requires forall k :: CountBetter(s, k) == CountBetter(all, k)
    ensures RanksStepwise(s, all)
  {
    forall i | 0 <= i < |s|
      ensures && (i == 0 || KeyOf(s[i - 1]) != KeyOf(s[i]) ==> CompetitionRank(all, s[i]) == i + 1)
              && (i > 0 && KeyOf(s[i - 1]) == KeyOf(s[i]) ==> CompetitionRank(all, s[i]) == CompetitionRank(all, s[i - 1]))
    {
      SortedListRankAt(s, all, i);
    }
  }

  /** The stepwise rank of the `i`-th row of a sorted list that counts like `all`. */
  lemma SortedListRankAt(s: seq<QuizResult>, all: seq<QuizResult>, i: nat)
    requires Sorted(s, SortsBefore) && i < |s|
    requires forall k :: CountBetter(s, k) == CountBetter(all, k)
    ensures i == 0 || KeyOf(s[i - 1]) != KeyOf(s[i]) ==> CompetitionRank(all, s[i]) == i + 1
    ensures i > 0 && KeyOf(s[i - 1]) == KeyOf(s[i]) ==> CompetitionRank(all, s[i]) == CompetitionRank(all, s[i - 1])
  {
    var k := KeyOf(s[i]);
    if i == 0 || KeyOf(s[i - 1]) != k {
      GroupStartRank(s, i);
      assert CountBetter(s, k) == CountBetter(all, k);
    } else {
      assert CompetitionRank(all, s[i - 1]) == 1 + CountBetter(all, k);
    }
  }

  /**
   * `quiz_results` from the fetched rows to the rows to write: sort by key, then walk the
   * list keeping the rank of the current key group, restamping every row and collecting
   * the rows whose rank changed. Each row ends with its competition rank among all the
   * rows, whatever order they were fetched in.
   */
  method RankRows(rows: seq<QuizResult>) returns (ranked: seq<QuizResult>, toUpdate: seq<QuizResult>)
    ensures |ranked| == |rows|
    ensures forall j :: 0 <= j < |ranked| ==>
      ranked[j] == Sort(rows, SortsBefore)[j].(rank := CompetitionRank(rows, Sort(rows, SortsBefore)[j]))
    ensures toUpdate == Changed(Sort(rows, SortsBefore), rows)
  {
    var sorted := Sort(rows, SortsBefore);
    SortedRanksStepwise(rows);
    ranked, toUpdate := Restamp(sorted, rows);
  }

  /**
   * The loop of `quiz_results` over the sorted rows `sorted`: keep the rank of the current
   * key group, restamp every row and collect the rows whose rank changed.
   */
  method Restamp(sorted: seq<QuizResult>, ghost rows: seq<QuizResult>) returns (ranked: seq<QuizResult>, toUpdate: seq<QuizResult>)
    requires RanksStepwise(sorted, rows)
    ensures |ranked| == |sorted|
    ensures forall j :: 0 <= j < |ranked| ==> ranked[j] == sorted[j].(rank := CompetitionRank(rows, sorted[j]))
    ensures toUpdate == Changed(sorted, rows)
  {
    ranked, toUpdate := [], [];
    var currentRank := 0;
    var lastKey: Option<RankKey> := None;
    var i := 0;
    while i < |sorted|
      invariant 0 <= i <= |sorted| && |ranked| == i
      invariant forall j :: 0 <= j < i ==> ranked[j] == sorted[j].(rank := CompetitionRank(rows, sorted[j]))
      invariant i == 0 ==> lastKey == None
      invariant i > 0 ==> lastKey == Some(KeyOf(sorted[i - 1])) && currentRank == CompetitionRank(rows, sorted[i - 1])
      invariant toUpdate == Changed(sorted[..i], rows)
    {
      var r := sorted[i];
      var key := KeyOf(r);
      if Some(key) != lastKey {
        currentRank := i + 1;
        lastKey := Some(key);
      }
      assert currentRank == CompetitionRank(rows, r);
      ChangedStep(sorted, rows, i);
      if r.rank != currentRank {
        toUpdate := toUpdate + [r.(rank := currentRank)];
      }
      ranked := ranked + [r.(rank := currentRank)];
      i := i + 1;
    }
    assert sorted[..i] == sorted;
  }
}
