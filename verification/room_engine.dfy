/**
 * The live quiz-room engine of generate_quiz/views.py: creating a room from notes,
 * joining and leaving its lobby, starting the timed window, answering, and ranking.
 * The site holds the relational store and the expiring cache; each method is one request,
 * and requests are served one at a time.
 */
module RoomEngine {
  import opened Wrappers
  import opened Text
  import opened Sorting
  import opened Models
  import opened Timing
  import opened Intake
  import opened RoomCodes
  import opened Ranking

  /**
   * The fields of the creation form: `title`, `difficulty`, `duration`, `topic_focus` and
   * `num_questions`. The form has no description, so a created quiz keeps the empty default.
   */
  datatype CreationForm = CreationForm(
    title: string,
    difficulty: int,
    duration: int,
    topicFocus: Option<string>,
    numQuestions: Option<int>)

  /**
   * The store after a room is created: the quiz saved from the form with `code`, its
   * questions replaced by `drafts`, and the creator's participant row when asked for.
   */
  function CreatedStore(db: Db, creator: UserId, username: string, form: CreationForm, participates: bool,
                        code: RoomCode, drafts: seq<Draft>, now: int): Db
  {
    var id := db.nextId;
    var built := CreateQuestions(DeleteQuestionsOf(InsertQuiz(db, creator, form.title, "", form.difficulty,
                                                              form.duration, form.topicFocus, code, now), id),
                                 id, drafts);
    if participates then GetOrCreateParticipant(built, id, creator, username, now) else built
  }

  /** What the form's validation lets through: a listed difficulty and a count in 5..100, if any. */
  predicate FormValid(form: CreationForm) {
    IsDifficulty(form.difficulty) && (form.numQuestions.None? || 5 <= form.numQuestions.value <= 100)
  }

  /** The uploaded file's text, or else the pasted text, trimmed. */
  function NotesText(fileText: string, postedText: string): (notes: string)
    ensures notes == [] <==> fileText == [] && Strip(postedText) == []
  {
    if fileText != [] then fileText else Strip(postedText)
  }

  /**
   * The parsed generator reply for a request of `count` questions: None when the call
   * raises or the JSON does not parse.
   */
  function Generated(reply: int -> Option<string>, parse: string -> Option<seq<Item>>, count: int): Option<seq<Item>> {
    if reply(count).None? then None else parse(SafeJsonText(reply(count)))
  }

  /** The question count `upload_notes` asks the generator for. */
  function RequestedCount(form: CreationForm, estimate: int -> int): int {
    QuestionCount(form.numQuestions, estimate(Max(1, form.duration)))
  }

  datatype CreateOutcome =
    | NoNotes
    | InvalidForm
    | NoUniqueCode
    | GenerationFailed
    | NoQuestions
    | Created(code: RoomCode, quiz: Id)

  datatype JoinOutcome = UnknownRoom | RoomAborted | RoomStarted | Joined(quiz: Id)

  datatype LeaveOutcome = LeaveNotFound | NotInRoom | Left(aborted: bool)

  datatype StartOutcome = StartNotFound | NotCreator | Started(startAt: int, endsAt: int)

  datatype PageOutcome = PageNotFound | ToLobby | ToResults | Render(quiz: Id, remaining: int)

  datatype SubmitOutcome = SubmitNotFound | Submitted(score: nat, elapsed: int)

  /** A leaderboard line of `quiz_results`: the result and whether it is the caller's. */
  datatype ResultRow = ResultRow(result: QuizResult, isMe: bool)

  /** A line of `quiz_results_data`; a missing or zero time is shown as a dash (None). */
  datatype DataRow = DataRow(rank: int, name: string, score: int, time: Option<int>, isMe: bool)

  /** A line of `quiz_lobby_status`. */
  datatype LobbyEntry = LobbyEntry(name: string, joinedAt: int, isCreator: bool)

  datatype LobbySnapshot = LobbySnapshot(participants: seq<LobbyEntry>, started: bool, aborted: bool)

  /** The room's abort flag reads true at `now`. */
  predicate IsAborted(cache: Cache, code: string, now: int) {
    Truthy(CacheGet(cache, CacheKey(code, Aborted), now))
  }

  /** The room's start entry is readable at `now`. */
  predicate IsStarted(cache: Cache, code: string, now: int) {
    Truthy(CacheGet(cache, CacheKey(code, StartAt), now))
  }

  /** The start moment of the room's window, as read at `now`. */
  function StartOf(cache: Cache, code: string, now: int): Option<int> {
    StampOf(CacheGet(cache, CacheKey(code, StartAt), now))
  }

  /** The deadline of the room's window, as read at `now`. */
  function EndOf(cache: Cache, code: string, now: int): Option<int> {
    StampOf(CacheGet(cache, CacheKey(code, EndsAt), now))
  }

  /** Some active quiz has this room code. */
  predicate ActiveRoom(db: Db, code: string) {
    exists k :: k in db.quizzes && db.quizzes[k].roomCode == code && db.quizzes[k].isActive
  }

  /** The name a joining user gets: the posted name, trimmed, or else the username. */
  function JoinName(postedName: Option<string>, username: string): (name: string)
    ensures Strip(postedName.GetOr("")) != [] ==> name == Strip(postedName.GetOr(""))
    ensures Strip(postedName.GetOr("")) == [] ==> name == username
  {
    var name := Strip(postedName.GetOr(""));
    if name != [] then name else username
  }

  /** The cache after `start_quiz` opened the window of room `code` at `now`. */
  function OpenWindow(cache: Cache, code: string, duration: int, now: int): Cache {
    var ttl := WindowTtl(duration);
    CacheSet(CacheSet(cache, CacheKey(code, StartAt), Stamp(now), ttl, now),
             CacheKey(code, EndsAt), Stamp(WindowEnd(now, duration)), ttl, now)
  }

  /**
   * Once a room with a positive duration is started, both window entries read back
   * until the deadline, and every other entry of the cache reads as before.
   */
  lemma OpenWindowReadsBack(cache: Cache, code: string, duration: int, now: int, t: int, other: string)
    requires duration >= 1 && now <= t <= WindowEnd(now, duration)
    ensures var c := OpenWindow(cache, code, duration, now);
      && StartOf(c, code, t) == Some(now) && EndOf(c, code, t) == Some(WindowEnd(now, duration))
      && IsStarted(c, code, t)
      && (other != CacheKey(code, StartAt) && other != CacheKey(code, EndsAt) ==>
            CacheGet(c, other, t) == CacheGet(cache, other, t))
  {
    var ttl := WindowTtl(duration);
    var k1, k2 := CacheKey(code, StartAt), CacheKey(code, EndsAt);
    var c1 := CacheSet(cache, k1, Stamp(now), ttl, now);
    WindowEntriesOutliveDeadline(now, duration);
    CacheKeyInjective(code, StartAt, code, EndsAt);
    GetAfterSet(cache, k1, Stamp(now), ttl, now, t, other);
    GetAfterSet(c1, k2, Stamp(WindowEnd(now, duration)), ttl, now, t, other);
    GetAfterSet(c1, k2, Stamp(WindowEnd(now, duration)), ttl, now, t, k1);
  }

  /** The abort flag `leave_quiz` sets reads true for six hours. */
  lemma AbortFlagReadsBack(cache: Cache, code: string, now: int, t: int)
    requires now <= t < now + AbortTtl
    ensures IsAborted(CacheSet(cache, CacheKey(code, Aborted), Flag(true), AbortTtl, now), code, t)
  {
    GetAfterSet(cache, CacheKey(code, Aborted), Flag(true), AbortTtl, now, t, CacheKey(code, Aborted));
  }

  /** The keys among `among` of the questions whose posted answer is the stored correct letter. */
  function CorrectAnswers(db: Db, posted: map<Id, string>, among: set<Id>): (right: set<Id>)
    ensures right <= among && right <= posted.Keys
  {
    set k | k in among && k in db.questions && k in posted && posted[k] == db.questions[k].correctOption
  }

  /** Full marks exactly when every question is answered with its correct letter. */
  lemma FullScoreIff(db: Db, posted: map<Id, string>, among: set<Id>)
    requires among <= db.questions.Keys
    ensures |CorrectAnswers(db, posted, among)| <= |among|
    ensures |CorrectAnswers(db, posted, among)| == |among| <==>
      forall k :: k in among ==> k in posted && posted[k] == db.questions[k].correctOption
  {
    var right := CorrectAnswers(db, posted, among);
    SubsetSize(right, among);
    if forall k :: k in among ==> k in posted && posted[k] == db.questions[k].correctOption {
      assert right == among;
    }
  }

  /** The fetched result rows, in the order of their keys. */
  function RowsOf(results: map<Id, QuizResult>, order: seq<Id>): (rows: seq<QuizResult>)
    requires forall i :: 0 <= i < |order| ==> order[i] in results
    ensures |rows| == |order|
    ensures forall i :: 0 <= i < |rows| ==> rows[i] == results[order[i]]
  {
    seq(|order|, i requires 0 <= i < |order| => results[order[i]])
  }

  /** `order` lists the keys of `ids`, each once. */
  ghost predicate ListsOnce(order: seq<Id>, ids: set<Id>) {
    && |order| == |ids| && Distinct(order)
    && (forall i :: 0 <= i < |order| ==> order[i] in ids)
    && (forall k :: k in ids ==> k in order)
  }

  /** The rows fetched for a room's results enumerate them, so they rank by `QuizRank`. */
  lemma FetchedRowsEnumerate(db: Db, quiz: Id, order: seq<Id>)
    requires Consistent(db) && ListsOnce(order, ResultsOf(db, quiz))
    ensures var rows := RowsOf(db.results, order);
      && Enumerates(rows, db.results) && IdsOf(rows) == ResultsOf(db, quiz)
      && forall r :: CompetitionRank(rows, r) == QuizRank(db.results, ResultsOf(db, quiz), r)
  {
    var rows := RowsOf(db.results, order);
    assert forall i :: 0 <= i < |rows| ==> rows[i].id == order[i];
    assert Enumerates(rows, db.results);
    forall k | k in ResultsOf(db, quiz)
      ensures k in IdsOf(rows)
    {
      var i :| 0 <= i < |order| && order[i] == k;
      assert rows[i].id == k;
    }
    assert IdsOf(rows) == ResultsOf(db, quiz);
    forall r
      ensures CompetitionRank(rows, r) == QuizRank(db.results, IdsOf(rows), r)
    {
      CompetitionRankIsQuizRank(rows, db.results, r);
    }
  }

  /**
   * What `quiz_results` writes: every result of the room gets its competition rank
   * among the room's results and keeps all else; no other result changes. The write is
   * empty exactly when every stored rank is already right.
   */
  lemma RanksWritten(db: Db, quiz: Id, order: seq<Id>)
    requires Consistent(db) && ListsOnce(order, ResultsOf(db, quiz))
    ensures var rows := RowsOf(db.results, order);
      var changed := Changed(Sort(rows, SortsBefore), rows);
      var ids := ResultsOf(db, quiz);
      && (forall k :: k in ids ==>
            WriteRanks(db, changed).results[k] == db.results[k].(rank := QuizRank(db.results, ids, db.results[k])))
      && (forall k :: k in db.results && k !in ids ==> WriteRanks(db, changed).results[k] == db.results[k])
      && (changed == [] <==> forall k :: k in ids ==> db.results[k].rank == QuizRank(db.results, ids, db.results[k]))
  {
    var rows := RowsOf(db.results, order);
    var s := Sort(rows, SortsBefore);
    var changed := Changed(s, rows);
    var ids := ResultsOf(db, quiz);
    FetchedRowsEnumerate(db, quiz, order);
    ReorderedRowsAreStored(rows, s, db.results);
    ChangedEmptyIff(s, rows);
    forall k | k in db.results
      ensures k in ids ==>
        WriteRanks(db, changed).results[k] == db.results[k].(rank := QuizRank(db.results, ids, db.results[k]))
      ensures k !in ids ==> WriteRanks(db, changed).results[k] == db.results[k]
    {
      ChangedRankFor(s, rows, db.results, k);
    }
    if forall k :: k in ids ==> db.results[k].rank == QuizRank(db.results, ids, db.results[k]) {
      forall j | 0 <= j < |s|
        ensures s[j].rank == CompetitionRank(rows, s[j])
      {
        assert s[j] == db.results[s[j].id];
      }
    }
  }

  /** The store after `quiz_results` wrote `toUpdate` and closed the quiz. */
  function CloseRoom(db: Db, quiz: Id, toUpdate: seq<QuizResult>): Db
    requires quiz in db.quizzes
  {
    var written := if toUpdate != [] then WriteRanks(db, toUpdate) else db;
    if written.quizzes[quiz].isActive then DeactivateQuiz(written, quiz) else written
  }

  /**
   * The store a results page of room `quiz` should leave: the quiz closed, and each of
   * its results holding its competition rank among them, whatever order they are
   * fetched in. Nothing else changes.
   */
  function RankedStore(db: Db, quiz: Id): Db
    requires quiz in db.quizzes
  {
    var ids := ResultsOf(db, quiz);
    db.(quizzes := db.quizzes[quiz := db.quizzes[quiz].(isActive := false)],
        results := map k | k in db.results ::
          if k in ids then db.results[k].(rank := QuizRank(db.results, ids, db.results[k])) else db.results[k])
  }

  /** Every result of the room already holds its competition rank. */
  ghost predicate RanksCurrent(db: Db, quiz: Id) {
    var ids := ResultsOf(db, quiz);
    forall k :: k in ids ==> db.results[k].rank == QuizRank(db.results, ids, db.results[k])
  }

  /** Ranking keeps the store consistent. */
  lemma RankedStoreConsistent(db: Db, quiz: Id)
    requires Consistent(db) && quiz in db.quizzes
    ensures Consistent(RankedStore(db, quiz))
  {
    var r := RankedStore(db, quiz);
    RankedStoreLinks(db, quiz);
    SameLinksConsistent(db, r);
  }

  lemma RankedStoreLinks(db: Db, quiz: Id)
    requires quiz in db.quizzes
    ensures SameLinks(db, RankedStore(db, quiz))
  {
  }

  /**
   * After one results page every rank is current, so a second page writes nothing and
   * leaves the store as it is.
   */
  lemma RankedStoreSettles(db: Db, quiz: Id)
    requires quiz in db.quizzes
    ensures RanksCurrent(RankedStore(db, quiz), quiz)
    ensures RankedStore(RankedStore(db, quiz), quiz) == RankedStore(db, quiz)
  {
    var r := RankedStore(db, quiz);
    var ids := ResultsOf(db, quiz);
    assert forall k :: k in r.results ==> KeyOf(r.results[k]) == KeyOf(db.results[k]) && r.results[k].quiz == db.results[k].quiz;
    assert ResultsOf(r, quiz) == ids;
    assert forall key :: BetterIds(r.results, ids, key) == BetterIds(db.results, ids, key);
    assert RanksCurrent(r, quiz);
    assert RankedStore(r, quiz).results == r.results;
  }

  /**
   * Once a results page has ranked the room, ordering its results by stored rank, as
   * `quiz_results_data` does, follows the leaderboard: a better key means a smaller
   * rank, and equal keys mean equal ranks.
   */
  lemma RankedStoreOrdersByKey(db: Db, quiz: Id, j: Id, k: Id)
    requires quiz in db.quizzes && j in ResultsOf(db, quiz) && k in ResultsOf(db, quiz)
    ensures var r := RankedStore(db, quiz);
      && (Better(KeyOf(db.results[j]), KeyOf(db.results[k])) ==> r.results[j].rank < r.results[k].rank)
      && (KeyOf(db.results[j]) == KeyOf(db.results[k]) ==> r.results[j].rank == r.results[k].rank)
  {
    QuizRankOrdersByKey(db.results, ResultsOf(db, quiz), j, db.results[k]);
  }

  /**
   * The steps of `quiz_results` write the ranked store: the rows whose rank changed,
   * written back, and the quiz closed, give `RankedStore`; the write is empty exactly
   * when every rank was current.
   */
  lemma CloseRoomIsRankedStore(db: Db, quiz: Id, changed: seq<QuizResult>)
    requires quiz in db.quizzes
    requires var ids := ResultsOf(db, quiz);
      && (forall k :: k in ids ==>
            WriteRanks(db, changed).results[k] == db.results[k].(rank := QuizRank(db.results, ids, db.results[k])))
      && (forall k :: k in db.results && k !in ids ==> WriteRanks(db, changed).results[k] == db.results[k])
      && (changed == [] ==> RanksCurrent(db, quiz))
    ensures CloseRoom(db, quiz, changed) == RankedStore(db, quiz)
  {
    var written := if changed != [] then WriteRanks(db, changed) else db;
    var goal := RankedStore(db, quiz);
    assert written.results == goal.results;
  }

  /**
   * `page` lists each result of `ids` once as stored in `db`, best first, marking the
   * results of `user`.
   */
  ghost predicate ShowsLeaderboard(db: Db, ids: set<Id>, user: UserId, page: seq<ResultRow>) {
    && |page| == |ids|
    && (forall i, j :: 0 <= i < j < |page| ==> page[i].result.id != page[j].result.id)
    && (forall i :: 0 <= i < |page| ==>
          && page[i].result.id in ids && page[i].result.id in db.results
          && db.results[page[i].result.id] == page[i].result
          && page[i].result.participant in db.participants
          && (page[i].isMe <==> db.participants[page[i].result.participant].user == user))
    && (forall i, j :: 0 <= i < j < |page| ==> SortsBefore(page[i].result, page[j].result))
  }

  /**
   * `ranked` lists the results of room `quiz` each once, best first, each as stored but
   * with its competition rank among them.
   */
  ghost predicate RanksRoom(db: Db, quiz: Id, ranked: seq<QuizResult>) {
    var ids := ResultsOf(db, quiz);
    && |ranked| == |ids|
    && (forall j :: 0 <= j < |ranked| ==>
          && ranked[j].id in ids
          && ranked[j] == db.results[ranked[j].id].(rank := QuizRank(db.results, ids, db.results[ranked[j].id])))
    && (forall i, j :: 0 <= i < j < |ranked| ==> ranked[i].id != ranked[j].id && SortsBefore(ranked[i], ranked[j]))
  }

  /** The rows `RankRows` makes of a room's fetched results rank the room. */
  lemma RankedRowsRankRoom(db: Db, quiz: Id, order: seq<Id>, ranked: seq<QuizResult>)
    requires Consistent(db) && ListsOnce(order, ResultsOf(db, quiz))
    requires var rows := RowsOf(db.results, order);
      && |ranked| == |rows|
      && (forall j :: 0 <= j < |ranked| ==>
            ranked[j] == Sort(rows, SortsBefore)[j].(rank := CompetitionRank(rows, Sort(rows, SortsBefore)[j])))
    ensures RanksRoom(db, quiz, ranked)
  {
    var rows := RowsOf(db.results, order);
    FetchedRowsEnumerate(db, quiz, order);
    RestampedRowsStored(rows, db.results, ranked);
  }

  /** The page `quiz_results` renders lists the ranked store's results of the room, best first. */
  lemma LeaderboardShown(db: Db, quiz: Id, ranked: seq<QuizResult>, user: UserId)
    requires Consistent(db) && quiz in db.quizzes && RanksRoom(db, quiz, ranked)
    ensures forall i :: 0 <= i < |ranked| ==> ranked[i].participant in RankedStore(db, quiz).participants
    ensures ShowsLeaderboard(RankedStore(db, quiz), ResultsOf(db, quiz), user,
                             Leaderboard(RankedStore(db, quiz), ranked, user))
  {
    var after := RankedStore(db, quiz);
    assert forall j :: 0 <= j < |ranked| ==> after.results[ranked[j].id] == ranked[j];
  }

  /**
   * The steps of `quiz_results` from the fetched rows: the writes give the ranked store,
   * and the page lists it.
   */
  lemma ResultsPageSteps(db: Db, quiz: Id, order: seq<Id>, ranked: seq<QuizResult>,
                         toUpdate: seq<QuizResult>, user: UserId)
    requires Consistent(db) && quiz in db.quizzes && ListsOnce(order, ResultsOf(db, quiz))
    requires var rows := RowsOf(db.results, order);
      && |ranked| == |rows|
      && (forall j :: 0 <= j < |ranked| ==>
            ranked[j] == Sort(rows, SortsBefore)[j].(rank := CompetitionRank(rows, Sort(rows, SortsBefore)[j])))
      && toUpdate == Changed(Sort(rows, SortsBefore), rows)
    ensures CloseRoom(db, quiz, toUpdate) == RankedStore(db, quiz)
    ensures Consistent(RankedStore(db, quiz))
    ensures toUpdate == [] <==> RanksCurrent(db, quiz)
    ensures forall i :: 0 <= i < |ranked| ==> ranked[i].participant in RankedStore(db, quiz).participants
    ensures ShowsLeaderboard(RankedStore(db, quiz), ResultsOf(db, quiz), user,
                             Leaderboard(RankedStore(db, quiz), ranked, user))
  {
    RanksWritten(db, quiz, order);
    CloseRoomIsRankedStore(db, quiz, toUpdate);
    RankedRowsRankRoom(db, quiz, order, ranked);
    LeaderboardShown(db, quiz, ranked, user);
    RankedStoreConsistent(db, quiz);
  }

  /** The leaderboard lines: each ranked result, marked when it is the caller's. */
  function Leaderboard(db: Db, ranked: seq<QuizResult>, user: UserId): (rows: seq<ResultRow>)
    requires forall i :: 0 <= i < |ranked| ==> ranked[i].participant in db.participants
    ensures |rows| == |ranked|
    ensures forall i :: 0 <= i < |rows| ==>
      rows[i].result == ranked[i] && (rows[i].isMe <==> db.participants[ranked[i].participant].user == user)
  {
    seq(|ranked|, i requires 0 <= i < |ranked| =>
      ResultRow(ranked[i], db.participants[ranked[i].participant].user == user))
  }

  /**
   * The work of `quiz_results` on the store `db` once the room's results are fetched in
   * the order `order`: rank the rows, write back the ranks that changed, close the quiz,
   * and list the ranked rows. Gives the new store, the page, and how many rows were written.
   */
  method RankAndClose(db: Db, quiz: Id, order: seq<Id>, user: UserId)
    returns (after: Db, page: seq<ResultRow>, written: nat)
    requires Consistent(db) && quiz in db.quizzes && ListsOnce(order, ResultsOf(db, quiz))
    ensures after == RankedStore(db, quiz) && Consistent(after)
    ensures written == 0 <==> RanksCurrent(db, quiz)
    ensures ShowsLeaderboard(after, ResultsOf(db, quiz), user, page)
  {
    var rows := RowsOf(db.results, order);
    var ranked, toUpdate := RankRows(rows);
    ResultsPageSteps(db, quiz, order, ranked, toUpdate, user);
    after := db;
    if toUpdate != [] {
      after := WriteRanks(after, toUpdate);
    }
    if after.quizzes[quiz].isActive {
      after := DeactivateQuiz(after, quiz);
    }
    page := Leaderboard(after, ranked, user);
    written := |toUpdate|;
  }

  // ---------------------------------------------------------------------------
  // Read-only views: the live results list and the lobby
  // ---------------------------------------------------------------------------

  /** A reordering of a list of keys that names each of `ids` once names each once too. */
  lemma ReorderListsOnce(order: seq<Id>, s: seq<Id>, ids: set<Id>)
    requires ListsOnce(order, ids) && multiset(s) == multiset(order)
    ensures ListsOnce(s, ids)
  {
    DistinctPermutation(order, s);
    assert |s| == |multiset(s)| == |multiset(order)| == |order|;
    forall k | k in ids ensures k in s {
      assert k in order;
    }
    forall i | 0 <= i < |s| ensures s[i] in ids {
      assert s[i] in order;
      var j :| 0 <= j < |order| && order[j] == s[i];
    }
  }

  /** The stored rank of result `k`, as `order_by("rank")` reads it. */
  function StoredRank(results: map<Id, QuizResult>, k: Id): int {
    if k in results then results[k].rank else 0
  }

  /** `order_by("rank")` on result keys. */
  function ByRank(results: map<Id, QuizResult>): (Id, Id) -> bool {
    (a: Id, b: Id) => StoredRank(results, a) <= StoredRank(results, b)
  }

  /** The join time of participant `k`, as `order_by("joined_at")` reads it. */
  function JoinTime(participants: map<Id, Participant>, k: Id): int {
    if k in participants then participants[k].joinedAt else 0
  }

  /** `order_by("joined_at")` on participant keys. */
  function ByJoinTime(participants: map<Id, Participant>): (Id, Id) -> bool {
    (a: Id, b: Id) => JoinTime(participants, a) <= JoinTime(participants, b)
  }

  /**
   * Ordering the fetched keys of a room by stored rank lists each result once, with
   * ranks that never decrease.
   */
  lemma ByRankOrder(results: map<Id, QuizResult>, order: seq<Id>, ids: set<Id>)
    requires ListsOnce(order, ids)
    ensures var s := Sort(order, ByRank(results));
      && ListsOnce(s, ids)
      && forall i, j :: 0 <= i < j < |s| ==> StoredRank(results, s[i]) <= StoredRank(results, s[j])
  {
    var s := Sort(order, ByRank(results));
    ReorderListsOnce(order, s, ids);
    assert TotalPreorder(ByRank(results));
    SortSorted(order, ByRank(results));
    assert forall i, j :: 0 <= i < j < |s| ==> ByRank(results)(s[i], s[j]);
  }

  /**
   * Ordering the fetched keys of a lobby by join time lists each participant once,
   * earliest first.
   */
  lemma ByJoinTimeOrder(participants: map<Id, Participant>, order: seq<Id>, ids: set<Id>)
    requires ListsOnce(order, ids)
    ensures var s := Sort(order, ByJoinTime(participants));
      && ListsOnce(s, ids)
      && forall i, j :: 0 <= i < j < |s| ==> JoinTime(participants, s[i]) <= JoinTime(participants, s[j])
  {
    var s := Sort(order, ByJoinTime(participants));
    ReorderListsOnce(order, s, ids);
    assert TotalPreorder(ByJoinTime(participants));
    SortSorted(order, ByJoinTime(participants));
    assert forall i, j :: 0 <= i < j < |s| ==> ByJoinTime(participants)(s[i], s[j]);
  }

  /** The line `quiz_results_data` gives result `r`; a missing or zero time shows as a dash. */
  function DataLine(db: Db, r: QuizResult, user: UserId): (line: DataRow)
    requires r.participant in db.participants
    ensures line.time.None? <==> r.timeTaken == None || r.timeTaken == Some(0)
  {
    var p := db.participants[r.participant];
    DataRow(r.rank, p.name, r.score, if r.timeTaken == Some(0) then None else r.timeTaken, p.user == user)
  }

  /**
   * The loop of `quiz_results_data` over the results of room `quiz` in the order
   * `byRank`: one line per result, in that order.
   */
  method DataLines(db: Db, quiz: Id, byRank: seq<Id>, user: UserId) returns (data: seq<DataRow>)
    requires ResultsOk(db) && ListsOnce(byRank, ResultsOf(db, quiz))
    requires forall i, j :: 0 <= i < j < |byRank| ==> StoredRank(db.results, byRank[i]) <= StoredRank(db.results, byRank[j])
    ensures |data| == |byRank|
    ensures forall i :: 0 <= i < |data| ==> data[i] == DataLine(db, db.results[byRank[i]], user)
    ensures forall i, j :: 0 <= i < j < |data| ==> data[i].rank <= data[j].rank
  {
    ListedResultsStored(db, quiz, byRank);
    data := [];
    var i := 0;
    while i < |byRank|
      invariant 0 <= i <= |byRank| && |data| == i
      invariant forall j :: 0 <= j < i ==> data[j] == DataLine(db, db.results[byRank[j]], user)
      invariant forall j :: 0 <= j < i ==> data[j].rank == StoredRank(db.results, byRank[j])
    {
      var r := db.results[byRank[i]];
      data := data + [DataLine(db, r, user)];
      i := i + 1;
    }
  }

  /** Every key listed for a room's results is a stored result whose participant is stored. */
  lemma ListedResultsStored(db: Db, quiz: Id, byRank: seq<Id>)
    requires ResultsOk(db) && forall i :: 0 <= i < |byRank| ==> byRank[i] in ResultsOf(db, quiz)
    ensures forall i :: 0 <= i < |byRank| ==>
      byRank[i] in db.results && db.results[byRank[i]].participant in db.participants
  {
  }

  /** The lobby line of participant `p` of a quiz created by `creator`. */
  function LobbyLine(p: Participant, creator: UserId): LobbyEntry {
    LobbyEntry(p.name, p.joinedAt, p.user == creator)
  }

  /** The participant list of `quiz_lobby_status` for the participant keys `s`, in that order. */
  function LobbyLines(db: Db, quiz: Id, s: seq<Id>): seq<LobbyEntry>
    requires quiz in db.quizzes && forall i :: 0 <= i < |s| ==> s[i] in db.participants
  {
    seq(|s|, i requires 0 <= i < |s| => LobbyLine(db.participants[s[i]], db.quizzes[quiz].creator))
  }

  /**
   * The save loop of `upload_notes` on the store `db`: up to five codes are generated
   * and saved; a save whose code is already in use fails and the next attempt follows.
   */
  method SaveWithFreshCode(db: Db, draw: nat -> string) returns (saved: Option<RoomCode>)
    requires SixDigitDraws(draw)
    ensures saved == SaveLoop(CodesInUse(db), draw, 0, SaveAttempts).0
  {
    ghost var used := CodesInUse(db);
    saved := None;
    var pos := 0;
    var attempt := 0;
    while attempt < SaveAttempts && saved.None?
      invariant 0 <= attempt <= SaveAttempts
      invariant saved.None? ==> SaveLoop(used, draw, pos, SaveAttempts - attempt) == SaveLoop(used, draw, 0, SaveAttempts)
      invariant saved.Some? ==> saved == SaveLoop(used, draw, 0, SaveAttempts).0
      decreases SaveAttempts - attempt, if saved.None? then 1 else 0
    {
      var candidate, next := GenerateUniqueRoomCode(db, draw, pos);
      pos := next;
      if !CodeInUse(db, candidate) {
        saved := Some(candidate);
      } else {
        attempt := attempt + 1;
      }
    }
  }

  /**
   * The loop of `_store_questions`: the items are checked in order and the accepted ones
   * collected; the first item that raises ends the loop (None).
   */
  method CollectDrafts(items: seq<Item>) returns (objs: Option<seq<Draft>>)
    ensures objs.None? <==> AnyRaises(items)
    ensures objs.Some? ==> objs.value == Accepted(items)
  {
    var drafts: seq<Draft> := [];
    var i := 0;
    while i < |items|
      invariant 0 <= i <= |items|
      invariant drafts == Accepted(items[..i]) && !AnyRaises(items[..i])
    {
      var verdict := Inspect(items[i]);
      if verdict.Raises? {
        return None;
      }
      if verdict.Accept? {
        drafts := drafts + [verdict.draft];
      }
      assert items[..i + 1][..i] == items[..i];
      NoRaiseExtends(items, i);
      i := i + 1;
    }
    assert items[..i] == items;
    return Some(drafts);
  }

  class QuizSite {
    /** The relational store. */
    var db: Db
    /** The expiring key-value cache that holds each room's window and abort flag. */
    var cache: Cache

    ghost predicate Valid()
      reads this
    {
      Consistent(db)
    }

    constructor()
      ensures Valid() && db == EmptyDb && cache == map[]
    {
      db := EmptyDb;
      cache := map[];
      EmptyDbConsistent();
    }

    // -------------------------------------------------------------------------
    // Lookups
    // -------------------------------------------------------------------------

    /** `get_object_or_404(Quiz, room_code=code)`. */
    method FindQuiz(code: string) returns (id: Option<Id>)
      ensures id.Some? <==> CodeInUse(db, code)
      ensures id.Some? ==> id.value in db.quizzes && db.quizzes[id.value].roomCode == code
    {
      if CodeInUse(db, code) {
        var k :| k in db.quizzes && db.quizzes[k].roomCode == code;
        id := Some(k);
      } else {
        id := None;
      }
    }

    /** `Quiz.objects.filter(room_code=code, is_active=True).first()`. */
    method FindActiveQuiz(code: string) returns (id: Option<Id>)
      ensures id.Some? <==> exists k :: k in db.quizzes && db.quizzes[k].roomCode == code && db.quizzes[k].isActive
      ensures id.Some? ==> id.value in db.quizzes && db.quizzes[id.value].roomCode == code && db.quizzes[id.value].isActive
    {
      if k :| k in db.quizzes && db.quizzes[k].roomCode == code && db.quizzes[k].isActive {
        id := Some(k);
      } else {
        id := None;
      }
    }

    /** The participant row of `user` in `quiz`, if any. */
    method FindParticipant(quiz: Id, user: UserId) returns (id: Option<Id>)
      ensures id.Some? <==> HasParticipant(db, quiz, user)
      ensures id.Some? ==>
        id.value in db.participants && db.participants[id.value].quiz == quiz && db.participants[id.value].user == user
    {
      if HasParticipant(db, quiz, user) {
        var k :| k in db.participants && db.participants[k].quiz == quiz && db.participants[k].user == user;
        id := Some(k);
      } else {
        id := None;
      }
    }

    // -------------------------------------------------------------------------
    // Creation
    // -------------------------------------------------------------------------

    /**
     * `_store_questions`: the quiz's questions are deleted first; then the items are
     * checked in order, and the accepted ones are created together. An item that raises
     * aborts the loop after the delete. The result is the number of questions created.
     */
    method StoreQuestions(quiz: Id, items: seq<Item>) returns (count: Option<nat>)
      requires Valid() && quiz in db.quizzes
      modifies this
      ensures Valid() && cache == old(cache)
      ensures AnyRaises(items) ==> count == None && db == DeleteQuestionsOf(old(db), quiz)
      ensures !AnyRaises(items) ==>
        && count == Some(|Accepted(items)|)
        && db == CreateQuestions(DeleteQuestionsOf(old(db), quiz), quiz, Accepted(items))
    {
      DeleteQuestionsKeepsConsistent(db, quiz);
      db := DeleteQuestionsOf(db, quiz);
      var objs := CollectDrafts(items);
      if objs.None? {
        return None;
      }
      CreateQuestionsKeepsConsistent(db, quiz, objs.value);
      db := CreateQuestions(db, quiz, objs.value);
      count := Some(|objs.value|);
    }

    /**
     * The creation path of `upload_notes`. Blank notes and an invalid form are refused
     * before anything is written. Up to five saves are tried with a fresh code each; when
     * all collide nothing is created. Otherwise the room is built from the generator's
     * reply to a request for `RequestedCount` questions. The random room-code candidates
     * are the stream `draw`.
     */
    method UploadNotes(creator: UserId, username: string, fileText: string, postedText: string,
                       form: CreationForm, participates: bool, draw: nat -> string, estimate: int -> int,
                       reply: int -> Option<string>, parse: string -> Option<seq<Item>>, now: int)
      returns (outcome: CreateOutcome)
      requires Valid() && SixDigitDraws(draw)
      modifies this
      ensures Valid() && cache == old(cache)
      ensures outcome == NoNotes <==> NotesText(fileText, postedText) == []
      ensures outcome == InvalidForm <==> NotesText(fileText, postedText) != [] && !FormValid(form)
      ensures outcome == NoUniqueCode <==>
        && NotesText(fileText, postedText) != [] && FormValid(form)
        && AllTaken(CodesInUse(old(db)), draw, 0, 255)
      ensures outcome.NoNotes? || outcome.InvalidForm? || outcome.NoUniqueCode? ==> db == old(db)
      ensures outcome.GenerationFailed? || outcome.NoQuestions? ==> db == old(db).(nextId := db.nextId)
      ensures outcome.GenerationFailed? ==>
        var items := Generated(reply, parse, RequestedCount(form, estimate));
        items.None? || AnyRaises(items.value)
      ensures outcome.NoQuestions? ==>
        var items := Generated(reply, parse, RequestedCount(form, estimate));
        items.Some? && !AnyRaises(items.value) && Accepted(items.value) == []
      ensures outcome.Created? ==>
        && outcome.quiz == old(db).nextId && !CodeInUse(old(db), outcome.code)
        && outcome.quiz in db.quizzes && db.quizzes[outcome.quiz].roomCode == outcome.code
        && db.quizzes[outcome.quiz].isActive && db.quizzes[outcome.quiz].creator == creator
        && QuestionsOf(db, outcome.quiz) != {}
        && (participates ==> HasParticipant(db, outcome.quiz, creator))
      ensures outcome.Created? ==>
        var items := Generated(reply, parse, RequestedCount(form, estimate));
        && Some(outcome.code) == SaveLoop(CodesInUse(old(db)), draw, 0, SaveAttempts).0
        && items.Some?
        && db == CreatedStore(old(db), creator, username, form, participates, outcome.code, Accepted(items.value), now)
    {
      var notes := NotesText(fileText, postedText);
      if notes == [] {
        return NoNotes;
      }
      if !FormValid(form) {
        return InvalidForm;
      }
      var saved := SaveWithFreshCode(db, draw);
      SaveFailsOnlyAfterAllDrawsTaken(CodesInUse(db), draw, 0);
      if saved.None? {
        return NoUniqueCode;
      }
      var items := Generated(reply, parse, RequestedCount(form, estimate));
      outcome := BuildRoom(creator, username, form, participates, saved.value, items, now);
    }

    /**
     * The part of `upload_notes` after the first successful save. The quiz is deleted
     * again if generation or parsing raised (`items` is None), if an item raises, or if no
     * item is accepted, so no quiz is left without questions. On success the creator may
     * also join as a participant.
     */
    method BuildRoom(creator: UserId, username: string, form: CreationForm, participates: bool,
                     code: RoomCode, items: Option<seq<Item>>, now: int)
      returns (outcome: CreateOutcome)
      requires Valid() && IsDifficulty(form.difficulty) && !CodeInUse(db, code)
      modifies this
      ensures Valid() && cache == old(cache)
      ensures outcome.GenerationFailed? || outcome.NoQuestions? || outcome.Created?
      ensures outcome.GenerationFailed? <==> items.None? || AnyRaises(items.value)
      ensures outcome.NoQuestions? <==> items.Some? && !AnyRaises(items.value) && Accepted(items.value) == []
      ensures !outcome.Created? ==> db == old(db).(nextId := db.nextId)
      ensures outcome.Created? ==>
        && outcome.quiz == old(db).nextId && outcome.code == code
        && outcome.quiz in db.quizzes && db.quizzes[outcome.quiz].roomCode == code
        && db.quizzes[outcome.quiz].isActive && db.quizzes[outcome.quiz].creator == creator
        && QuestionsOf(db, outcome.quiz) != {}
        && (participates ==> HasParticipant(db, outcome.quiz, creator))
      ensures outcome.Created? ==>
        items.Some? && db == CreatedStore(old(db), creator, username, form, participates, code, Accepted(items.value), now)
    {
      ghost var db0 := db;
      var id := db.nextId;
      InsertQuizKeepsConsistent(db, creator, form.title, "", form.difficulty, form.duration,
                                form.topicFocus, code, now);
      InsertQuizExtends(db, creator, form.title, "", form.difficulty, form.duration,
                        form.topicFocus, code, now);
      db := InsertQuiz(db, creator, form.title, "", form.difficulty, form.duration,
                       form.topicFocus, code, now);
      if items.None? {
        RollBack(db0, id);
        return GenerationFailed;
      }
      ghost var db1 := db;
      var stored := StoreQuestions(id, items.value);
      DeleteQuestionsExtends(db0, db1, id);
      if stored.None? {
        RollBack(db0, id);
        return GenerationFailed;
      }
      CreateQuestionsExtends(db0, DeleteQuestionsOf(db1, id), id, Accepted(items.value));
      if stored.value == 0 {
        RollBack(db0, id);
        return NoQuestions;
      }
      ghost var base := DeleteQuestionsOf(db1, id).nextId;
      CreatedQuestionsBelong(DeleteQuestionsOf(db1, id), id, Accepted(items.value));
      assert base in QuestionsOf(db, id);
      if participates {
        GetOrCreateKeepsConsistent(db, id, creator, username, now);
        db := GetOrCreateParticipant(db, id, creator, username, now);
        assert base in QuestionsOf(db, id);
      }
      return Created(code, id);
    }

    // -------------------------------------------------------------------------
    // The lobby
    // -------------------------------------------------------------------------

    /**
     * `join_quiz` (POST): the posted code and name are trimmed. An unknown or inactive
     * code, an aborted room and a started room are refused in that order; otherwise the
     * user gets a participant row unless they already have one.
     */
    method JoinQuiz(user: UserId, username: string, postedCode: Option<string>, postedName: Option<string>, now: int)
      returns (outcome: JoinOutcome)
      requires Valid()
      modifies this
      ensures Valid() && cache == old(cache)
      ensures var code := Strip(postedCode.GetOr(""));
        && (outcome == UnknownRoom <==> !ActiveRoom(old(db), code))
        && (outcome == RoomAborted <==> ActiveRoom(old(db), code) && IsAborted(cache, code, now))
        && (outcome == RoomStarted <==>
              ActiveRoom(old(db), code) && !IsAborted(cache, code, now) && IsStarted(cache, code, now))
        && (!outcome.Joined? ==> db == old(db))
        && (outcome.Joined? ==>
              && outcome.quiz in old(db).quizzes && old(db).quizzes[outcome.quiz].roomCode == code
              && old(db).quizzes[outcome.quiz].isActive
              && db == GetOrCreateParticipant(old(db), outcome.quiz, user, JoinName(postedName, username), now)
              && HasParticipant(db, outcome.quiz, user))
    {
      var code := Strip(postedCode.GetOr(""));
      var quiz := FindActiveQuiz(code);
      if quiz.None? {
        return UnknownRoom;
      }
      if IsAborted(cache, code, now) {
        return RoomAborted;
      }
      if IsStarted(cache, code, now) {
        return RoomStarted;
      }
      GetOrCreateKeepsConsistent(db, quiz.value, user, JoinName(postedName, username), now);
      db := GetOrCreateParticipant(db, quiz.value, user, JoinName(postedName, username), now);
      return Joined(quiz.value);
    }

    /**
     * `leave_quiz`: someone who is neither the creator nor a participant is refused. The
     * creator ends the room: the abort flag is set for six hours and every participant is
     * removed, their results with them. A participant removes only their own row.
     */
    method LeaveQuiz(user: UserId, code: string, now: int) returns (outcome: LeaveOutcome)
      requires Valid()
      modifies this
      ensures Valid()
      ensures outcome == LeaveNotFound <==> !CodeInUse(old(db), code)
      ensures outcome.LeaveNotFound? || outcome.NotInRoom? ==> db == old(db) && cache == old(cache)
      ensures CodeInUse(old(db), code) ==>
        var quiz := QuizWithCode(old(db), code);
        var isCreator := old(db).quizzes[quiz].creator == user;
        && (outcome == NotInRoom <==> !isCreator && !HasParticipant(old(db), quiz, user))
        && (outcome == Left(true) <==> isCreator)
        && (outcome == Left(true) ==>
              && cache == CacheSet(old(cache), CacheKey(code, Aborted), Flag(true), AbortTtl, now)
              && db == DeleteParticipants(old(db), ParticipantsOf(old(db), quiz))
              && ParticipantsOf(db, quiz) == {} && ResultsOf(db, quiz) == {})
        && (outcome == Left(false) ==>
              && cache == old(cache)
              && db == DeleteParticipants(old(db), {ParticipationOf(old(db), quiz, user)})
              && !HasParticipant(db, quiz, user))
    {
      var quiz := FindQuiz(code);
      if quiz.None? {
        return LeaveNotFound;
      }
      var q := quiz.value;
      QuizWithCodeUnique(db, code, q);
      var participation := FindParticipant(q, user);
      var isCreator := user == db.quizzes[q].creator;
      if !(participation.Some? || isCreator) {
        return NotInRoom;
      }
      if isCreator {
        cache := CacheSet(cache, CacheKey(code, Aborted), Flag(true), AbortTtl, now);
        AbortClearsRoom(db, q);
        DeleteParticipantsKeepsConsistent(db, ParticipantsOf(db, q));
        db := DeleteParticipants(db, ParticipantsOf(db, q));
        return Left(true);
      }
      ParticipationUnique(db, q, user, participation.value);
      LeaveRemovesMembership(db, participation.value);
      DeleteParticipantsKeepsConsistent(db, {participation.value});
      db := DeleteParticipants(db, {participation.value});
      return Left(false);
    }

    /**
     * `start_quiz`: only the creator may start. The window runs from now for the quiz's
     * duration in minutes (at least one); both of its entries are cached for twice that.
     */
    method StartQuiz(user: UserId, code: string, now: int) returns (outcome: StartOutcome)
      requires Valid()
      modifies this
      ensures Valid() && db == old(db)
      ensures outcome == StartNotFound <==> !CodeInUse(db, code)
      ensures !outcome.Started? ==> cache == old(cache)
      ensures CodeInUse(db, code) ==>
        var quiz := db.quizzes[QuizWithCode(db, code)];
        && (outcome == NotCreator <==> quiz.creator != user)
        && (outcome.Started? ==>
              && outcome == Started(now, WindowEnd(now, quiz.duration))
              && cache == OpenWindow(old(cache), code, quiz.duration, now))
    {
      var quiz := FindQuiz(code);
      if quiz.None? {
        return StartNotFound;
      }
      QuizWithCodeUnique(db, code, quiz.value);
      var q := db.quizzes[quiz.value];
      if q.creator != user {
        return NotCreator;
      }
      cache := OpenWindow(cache, code, q.duration, now);
      return Started(now, WindowEnd(now, q.duration));
    }

    // -------------------------------------------------------------------------
    // The timed quiz
    // -------------------------------------------------------------------------

    /**
     * `quiz_page`: an aborted room, and a room whose window is not readable, send the
     * user back to the lobby; once the deadline has passed the quiz is closed and the user
     * is sent to the results. Otherwise the user gets a participant row if they have none
     * and the page shows the seconds left. The window entries only ever hold timestamps,
     * so reading them as timestamps and testing them for truth agree.
     */
    method QuizPage(user: UserId, username: string, code: string, now: int) returns (outcome: PageOutcome)
      requires Valid()
      modifies this
      ensures Valid() && cache == old(cache)
      ensures outcome == PageNotFound <==> !CodeInUse(old(db), code)
      ensures outcome.PageNotFound? || outcome.ToLobby? ==> db == old(db)
      ensures CodeInUse(old(db), code) ==>
        var quiz := QuizWithCode(old(db), code);
        var start := StartOf(cache, code, now);
        var ends := EndOf(cache, code, now);
        && (outcome == ToLobby <==> IsAborted(cache, code, now) || start.None? || ends.None?)
        && (outcome == ToResults <==>
              !IsAborted(cache, code, now) && start.Some? && ends.Some? && now >= ends.value)
        && (outcome == ToResults ==> db == DeactivateQuiz(old(db), quiz))
        && (outcome.Render? ==>
              && ends.Some? && outcome.quiz == quiz && outcome.remaining == ends.value - now > 0
              && db == GetOrCreateParticipant(old(db), quiz, user, username, now)
              && HasParticipant(db, quiz, user))
    {
      var quiz := FindQuiz(code);
      if quiz.None? {
        return PageNotFound;
      }
      var q := quiz.value;
      QuizWithCodeUnique(db, code, q);
      if IsAborted(cache, code, now) {
        return ToLobby;
      }
      var start := StartOf(cache, code, now);
      var ends := EndOf(cache, code, now);
      if !(start.Some? && ends.Some?) {
        return ToLobby;
      }
      if now >= ends.value {
        DeactivateKeepsConsistent(db, q);
        db := DeactivateQuiz(db, q);
        return ToResults;
      }
      GetOrCreateKeepsConsistent(db, q, user, username, now);
      db := GetOrCreateParticipant(db, q, user, username, now);
      return Render(q, ends.value - now);
    }

    /** The loop of `submit_quiz` over the quiz's questions, counting the correct answers. */
    method ScoreAnswers(quiz: Id, posted: map<Id, string>) returns (score: nat)
      ensures score == |CorrectAnswers(db, posted, QuestionsOf(db, quiz))|
      ensures score <= |QuestionsOf(db, quiz)|
    {
      var store := db;
      var ids := QuestionsOf(store, quiz);
      var order := Fetch(ids);
      score := 0;
      ghost var seen: set<Id> := {};
      var i := 0;
      while i < |order|
        invariant 0 <= i <= |order| && score <= i
        invariant seen <= ids
        invariant forall j :: 0 <= j < i ==> order[j] in seen
        invariant forall j :: i <= j < |order| ==> order[j] !in seen
        invariant score == |CorrectAnswers(store, posted, seen)|
      {
        var k := order[i];
        var right := k in posted && posted[k] == store.questions[k].correctOption;
        if right {
          score := score + 1;
          assert CorrectAnswers(store, posted, seen + {k}) == CorrectAnswers(store, posted, seen) + {k};
        } else {
          assert CorrectAnswers(store, posted, seen + {k}) == CorrectAnswers(store, posted, seen);
        }
        seen := seen + {k};
        i := i + 1;
      }
      assert seen == ids;
    }

    /**
     * `submit_quiz`: the caller must be a participant of the room. The score is the number
     * of questions answered with the stored letter; the elapsed time is taken from the
     * cached window. The participant's score is recorded and their result is written with
     * rank 0, to be ranked by the next results page.
     */
    method SubmitQuiz(user: UserId, code: string, posted: map<Id, string>, now: int) returns (outcome: SubmitOutcome)
      requires Valid()
      modifies this
      ensures Valid() && cache == old(cache)
      ensures outcome == SubmitNotFound <==>
        !CodeInUse(old(db), code) || !HasParticipant(old(db), QuizWithCode(old(db), code), user)
      ensures outcome == SubmitNotFound ==> db == old(db)
      ensures outcome.Submitted? ==>
        && CodeInUse(old(db), code) && HasParticipant(old(db), QuizWithCode(old(db), code), user)
        && var quiz := QuizWithCode(old(db), code);
        var p := ParticipationOf(old(db), quiz, user);
        && outcome.score == |CorrectAnswers(old(db), posted, QuestionsOf(old(db), quiz))|
        && outcome.elapsed == Elapsed(StartOf(cache, code, now), EndOf(cache, code, now), now)
        && db == UpsertResult(RecordScore(old(db), p, outcome.score), p, outcome.score, outcome.elapsed)
        && HasResult(db, p)
    {
      var quiz := FindQuiz(code);
      if quiz.None? {
        return SubmitNotFound;
      }
      var q := quiz.value;
      QuizWithCodeUnique(db, code, q);
      var participant := FindParticipant(q, user);
      if participant.None? {
        return SubmitNotFound;
      }
      var p := participant.value;
      ParticipationUnique(db, q, user, p);
      var score := ScoreAnswers(q, posted);
      var elapsed := Elapsed(StartOf(cache, code, now), EndOf(cache, code, now), now);
      RecordScoreKeepsConsistent(db, p, score);
      var recorded := RecordScore(db, p, score);
      UpsertResultKeepsConsistent(recorded, p, score, elapsed);
      db := UpsertResult(recorded, p, score, elapsed);
      return Submitted(score, elapsed);
    }

    // -------------------------------------------------------------------------
    // Results
    // -------------------------------------------------------------------------

    /**
     * `quiz_results`: the room's results are sorted by key and ranked; the ranks that
     * changed are written back in one bulk update, and the quiz is closed. The page lists
     * the ranked results best first, marking the caller's. `written` is the number of
     * rows the bulk update wrote.
     */
    method QuizResults(user: UserId, code: string) returns (page: Option<seq<ResultRow>>, written: nat)
      requires Valid()
      modifies this
      ensures Valid() && cache == old(cache)
      ensures page.None? <==> !CodeInUse(old(db), code)
      ensures page.None? ==> db == old(db) && written == 0
      ensures page.Some? ==>
        var quiz := QuizWithCode(old(db), code);
        && db == RankedStore(old(db), quiz)
        && (written == 0 <==> RanksCurrent(old(db), quiz))
        && ShowsLeaderboard(db, ResultsOf(old(db), quiz), user, page.value)
    {
      var quiz := FindQuiz(code);
      if quiz.None? {
        return None, 0;
      }
      var q := quiz.value;
      QuizWithCodeUnique(db, code, q);
      var order := Fetch(ResultsOf(db, q));
      var store, board, count := RankAndClose(db, q, order, user);
      db := store;
      page := Some(board);
      written := count;
    }

    /**
     * `quiz_results_data`: the room's results ordered by stored rank, one line each,
     * marking the caller's. Nothing is written. `shown` is the order of the results
     * behind the lines.
     */
    method QuizResultsData(user: UserId, code: string) returns (data: Option<seq<DataRow>>, ghost shown: seq<Id>)
      requires Valid()
      ensures data.None? <==> !CodeInUse(db, code)
      ensures data.Some? ==>
        var quiz := QuizWithCode(db, code);
        && ListsOnce(shown, ResultsOf(db, quiz)) && |data.value| == |shown|
        && (forall i :: 0 <= i < |shown| ==> data.value[i] == DataLine(db, db.results[shown[i]], user))
        && (forall i, j :: 0 <= i < j < |shown| ==> data.value[i].rank <= data.value[j].rank)
    {
      var quiz := FindQuiz(code);
      if quiz.None? {
        return None, [];
      }
      var q := quiz.value;
      QuizWithCodeUnique(db, code, q);
      var order := Fetch(ResultsOf(db, q));
      var byRank := Sort(order, ByRank(db.results));
      ByRankOrder(db.results, order, ResultsOf(db, q));
      var lines := DataLines(db, q, byRank, user);
      data, shown := Some(lines), byRank;
    }

    /**
     * `quiz_lobby_status`: the room's participants by join time, each once, with the
     * creator's row marked; whether the window has been opened; and whether the creator
     * aborted the room, as read at `now`. Nothing is written. `shown` is the order of the
     * participants behind the lines.
     */
    method LobbyStatus(code: string, now: int) returns (snapshot: Option<LobbySnapshot>, ghost shown: seq<Id>)
      requires Valid()
      ensures snapshot.None? <==> !CodeInUse(db, code)
      ensures snapshot.Some? ==>
        var quiz := QuizWithCode(db, code);
        var lines := snapshot.value.participants;
        && snapshot.value.started == IsStarted(cache, code, now)
        && snapshot.value.aborted == IsAborted(cache, code, now)
        && ListsOnce(shown, ParticipantsOf(db, quiz)) && |lines| == |shown|
        && (forall i :: 0 <= i < |shown| ==> lines[i] == LobbyLine(db.participants[shown[i]], db.quizzes[quiz].creator))
        && (forall i, j :: 0 <= i < j < |shown| ==> lines[i].joinedAt <= lines[j].joinedAt)
    {
      var quiz := FindQuiz(code);
      if quiz.None? {
        return None, [];
      }
      var q := quiz.value;
      QuizWithCodeUnique(db, code, q);
      var order := Fetch(ParticipantsOf(db, q));
      var byJoin := Sort(order, ByJoinTime(db.participants));
      ByJoinTimeOrder(db.participants, order, ParticipantsOf(db, q));
      var lines := LobbyLines(db, q, byJoin);
      snapshot := Some(LobbySnapshot(lines, IsStarted(cache, code, now), IsAborted(cache, code, now)));
      shown := byJoin;
    }

    /** `quiz.delete()` of the quiz under construction, which restores the store. */
    method RollBack(ghost db0: Db, id: Id)
      requires Valid() && Consistent(db0) && ExtendsByQuiz(db0, db, id)
      modifies this
      ensures Valid() && db == db0.(nextId := old(db).nextId) && cache == old(cache)
    {
      DeleteNewQuizRestores(db0, db, id);
      DeleteQuizKeepsConsistent(db, id);
      db := DeleteQuiz(db, id);
    }
  }
}
