/**
 * The records of generate_quiz/models.py (Quiz, Question, Participant, QuizResult) and the
 * relational store that holds them: tables keyed by primary key, the uniqueness of
 * `room_code`, the foreign keys with their CASCADE rules, and the field defaults.
 */
module Models {
  import opened Wrappers

  /** A primary key. Every table draws from one counter, as an auto-increment would. */
  type Id = nat

  /** The primary key of a user account (the AUTH_USER_MODEL). */
  type UserId = nat

  /** The `choices` of `Quiz.difficulty`. */
  const DifficultyChoices: map<int, string> :=
    map[1 := "Easy", 2 := "Medium", 3 := "Hard", 4 := "Very Hard", 5 := "Expert"]

  predicate IsDifficulty(d: int) {
    d in DifficultyChoices
  }

  /** `room_code` is a CharField of at most six characters. */
  const RoomCodeMaxLength: nat := 6

  predicate IsDigit(c: char) {
    '0' <= c <= '9'
  }

  /** The shape of every code the application generates: six decimal digits. */
  predicate IsRoomCode(s: string) {
    |s| == RoomCodeMaxLength && forall i :: 0 <= i < |s| ==> IsDigit(s[i])
  }

  type RoomCode = s: string | IsRoomCode(s) witness "000000"

  /** The tags `correct_option` takes: one character naming one of the four option fields. */
  const OptionLabels: seq<string> := ["A", "B", "C", "D"]

  predicate IsOptionLabel(s: string) {
    s in OptionLabels
  }

  datatype Quiz = Quiz(
    id: Id,
    creator: UserId,
    title: string,
    description: string,
    difficulty: int,
    duration: int,            // minutes
    topicFocus: Option<string>,
    roomCode: string,
    createdAt: int,           // seconds
    isActive: bool)

  datatype Question = Question(
    id: Id,
    quiz: Id,
    text: string,
    optionA: string,
    optionB: string,
    optionC: string,
    optionD: string,
    correctOption: string)

  datatype Participant = Participant(
    id: Id,
    quiz: Id,
    user: UserId,
    name: string,
    joinedAt: int,            // seconds
    score: int,
    hasStarted: bool)

  datatype QuizResult = QuizResult(
    id: Id,
    quiz: Id,
    participant: Id,
    score: int,
    timeTaken: Option<int>,   // seconds; the field is nullable
    rank: int)

  /** The fields of a question before it is given a primary key and a quiz. */
  datatype Draft = Draft(
    text: string,
    optionA: string,
    optionB: string,
    optionC: string,
    optionD: string,
    correctOption: string)

  /** The four tables of the store. */
  datatype Db = Db(
    quizzes: map<Id, Quiz>,
    questions: map<Id, Question>,
    participants: map<Id, Participant>,
    results: map<Id, QuizResult>,
    nextId: Id)

  const EmptyDb := Db(map[], map[], map[], map[], 0)

  // ---------------------------------------------------------------------------
  // What the store guarantees of its rows
  // ---------------------------------------------------------------------------

  /** No two quizzes share a room code (`unique=True`). */
  ghost predicate UniqueRoomCodes(quizzes: map<Id, Quiz>) {
    forall a, b :: a in quizzes && b in quizzes && quizzes[a].roomCode == quizzes[b].roomCode ==> a == b
  }

  ghost predicate QuizzesOk(db: Db) {
    && (forall k :: k in db.quizzes ==>
          && db.quizzes[k].id == k && k < db.nextId
          && IsRoomCode(db.quizzes[k].roomCode)
          && IsDifficulty(db.quizzes[k].difficulty))
    && UniqueRoomCodes(db.quizzes)
  }

  ghost predicate QuestionsOk(db: Db) {
    forall k :: k in db.questions ==>
      && db.questions[k].id == k && k < db.nextId
      && db.questions[k].quiz in db.quizzes
      && IsOptionLabel(db.questions[k].correctOption)
  }

  /**
   * Participants point at an existing quiz. The model has no uniqueness constraint on
   * (quiz, user); every insertion goes through get-or-create, so requests handled one at
   * a time never produce two rows for one pair, and the store keeps that as an invariant.
   */
  ghost predicate ParticipantsOk(db: Db) {
    && (forall k :: k in db.participants ==>
          && db.participants[k].id == k && k < db.nextId
          && db.participants[k].quiz in db.quizzes)
    && (forall a, b :: a in db.participants && b in db.participants &&
          db.participants[a].quiz == db.participants[b].quiz &&
          db.participants[a].user == db.participants[b].user
          ==> a == b)
  }

  /** Results point at an existing participant of their own quiz; at most one per participant. */
  ghost predicate ResultsOk(db: Db) {
    && (forall k :: k in db.results ==>
          && db.results[k].id == k && k < db.nextId
          && db.results[k].quiz in db.quizzes
          && db.results[k].participant in db.participants
          && db.participants[db.results[k].participant].quiz == db.results[k].quiz)
    && (forall a, b :: a in db.results && b in db.results &&
          db.results[a].participant == db.results[b].participant
          ==> a == b)
  }

  ghost predicate Consistent(db: Db) {
    QuizzesOk(db) && QuestionsOk(db) && ParticipantsOk(db) && ResultsOk(db)
  }

  /**
   * `r` differs from `db` at most in fields no constraint mentions: whether a quiz is
   * active, a participant's name, join time, score and start flag, a result's score,
   * time and rank.
   */
  ghost predicate SameLinks(db: Db, r: Db) {
    && r.nextId == db.nextId && r.questions == db.questions
    && r.quizzes.Keys == db.quizzes.Keys && r.participants.Keys == db.participants.Keys
    && r.results.Keys == db.results.Keys
    && (forall k :: k in db.quizzes ==>
          && r.quizzes[k].id == db.quizzes[k].id && r.quizzes[k].roomCode == db.quizzes[k].roomCode
          && r.quizzes[k].difficulty == db.quizzes[k].difficulty)
    && (forall k :: k in db.participants ==>
          && r.participants[k].id == db.participants[k].id && r.participants[k].quiz == db.participants[k].quiz
          && r.participants[k].user == db.participants[k].user)
    && (forall k :: k in db.results ==>
          && r.results[k].id == db.results[k].id && r.results[k].quiz == db.results[k].quiz
          && r.results[k].participant == db.results[k].participant)
  }

  /** Changing only unconstrained fields keeps the store consistent. */
  lemma SameLinksConsistent(db: Db, r: Db)
    requires Consistent(db) && SameLinks(db, r)
    ensures Consistent(r)
  {
    SameLinksQuizzes(db, r);
    SameLinksParticipants(db, r);
    SameLinksResults(db, r);
  }

  lemma SameLinksQuizzes(db: Db, r: Db)
    requires Consistent(db) && SameLinks(db, r)
    ensures QuizzesOk(r) && QuestionsOk(r)
  {
  }

  lemma SameLinksParticipants(db: Db, r: Db)
    requires Consistent(db) && SameLinks(db, r)
    ensures ParticipantsOk(r)
  {
  }

  lemma SameLinksResults(db: Db, r: Db)
    requires Consistent(db) && SameLinks(db, r)
    ensures ResultsOk(r)
  {
  }

  // A table whose rows did not change stays well formed when the key counter only grows
  // and the rows it points at are kept.

  lemma QuizzesStayOk(db: Db, r: Db)
    requires QuizzesOk(db) && r.quizzes == db.quizzes && db.nextId <= r.nextId
    ensures QuizzesOk(r)
  {
  }

  lemma QuestionsStayOk(db: Db, r: Db)
    requires QuestionsOk(db) && r.questions == db.questions && db.nextId <= r.nextId
    requires db.quizzes.Keys <= r.quizzes.Keys
    ensures QuestionsOk(r)
  {
  }

  lemma ParticipantsStayOk(db: Db, r: Db)
    requires ParticipantsOk(db) && r.participants == db.participants && db.nextId <= r.nextId
    requires db.quizzes.Keys <= r.quizzes.Keys
    ensures ParticipantsOk(r)
  {
  }

  lemma ResultsStayOk(db: Db, r: Db)
    requires ResultsOk(db) && r.results == db.results && db.nextId <= r.nextId
    requires db.quizzes.Keys <= r.quizzes.Keys
    requires forall k :: k in db.participants ==> k in r.participants && r.participants[k] == db.participants[k]
    ensures ResultsOk(r)
  {
  }

  lemma EmptyDbConsistent()
    ensures Consistent(EmptyDb)
  {
  }

  // ---------------------------------------------------------------------------
  // Lookups
  // ---------------------------------------------------------------------------

  predicate CodeInUse(db: Db, code: string) {
    exists k :: k in db.quizzes && db.quizzes[k].roomCode == code
  }

  /** The participant row of `user` in `quiz`, if one exists. */
  predicate HasParticipant(db: Db, quiz: Id, user: UserId) {
    exists k :: k in db.participants && db.participants[k].quiz == quiz && db.participants[k].user == user
  }

  /** The quiz a room code names. */
  ghost function QuizWithCode(db: Db, code: string): (id: Id)
    requires CodeInUse(db, code)
    ensures id in db.quizzes && db.quizzes[id].roomCode == code
  {
    var k :| k in db.quizzes && db.quizzes[k].roomCode == code; k
  }

  /** Room codes are unique, so a code names exactly one quiz. */
  lemma QuizWithCodeUnique(db: Db, code: string, k: Id)
    requires Consistent(db) && k in db.quizzes && db.quizzes[k].roomCode == code
    ensures CodeInUse(db, code) && QuizWithCode(db, code) == k
  {
  }

  /** The participant row of `user` in `quiz`. */
  ghost function ParticipationOf(db: Db, quiz: Id, user: UserId): (id: Id)
    requires HasParticipant(db, quiz, user)
    ensures id in db.participants && db.participants[id].quiz == quiz && db.participants[id].user == user
  {
    var k :| k in db.participants && db.participants[k].quiz == quiz && db.participants[k].user == user; k
  }

  /** A user has at most one participant row per quiz. */
  lemma ParticipationUnique(db: Db, quiz: Id, user: UserId, k: Id)
    requires Consistent(db) && k in db.participants
    requires db.participants[k].quiz == quiz && db.participants[k].user == user
    ensures HasParticipant(db, quiz, user) && ParticipationOf(db, quiz, user) == k
  {
  }

  /** The set of room codes in use. */
  function CodesInUse(db: Db): (codes: set<string>)
    ensures forall c :: c in codes <==> CodeInUse(db, c)
  {
    set k | k in db.quizzes :: db.quizzes[k].roomCode
  }

  // ---------------------------------------------------------------------------
  // Writes, with the defaults and cascades of the models
  // ---------------------------------------------------------------------------

  /**
   * `quiz.save()` of a new quiz: the row gets the next key, `is_active` defaults to true
   * and `created_at` is the current time. The caller has checked that the code is free;
   * otherwise the store raises IntegrityError and nothing is written.
   */
  function InsertQuiz(db: Db, creator: UserId, title: string, description: string, difficulty: int,
                      duration: int, topicFocus: Option<string>, code: RoomCode, now: int): (r: Db)
    ensures db.nextId in r.quizzes && r.quizzes[db.nextId].isActive
    ensures r.quizzes[db.nextId].roomCode == code && r.quizzes[db.nextId].creator == creator
    ensures r.quizzes[db.nextId].duration == duration && r.quizzes[db.nextId].difficulty == difficulty
    ensures r.nextId == db.nextId + 1
    ensures forall k :: k in r.quizzes <==> k in db.quizzes || k == db.nextId
    ensures forall k :: k in db.quizzes && k != db.nextId ==> r.quizzes[k] == db.quizzes[k]
    ensures r.questions == db.questions && r.participants == db.participants && r.results == db.results
  {
    var q := Quiz(db.nextId, creator, title, description, difficulty, duration, topicFocus, code, now, true);
    db.(quizzes := db.quizzes[db.nextId := q], nextId := db.nextId + 1)
  }

  /** A new quiz with a free code and a valid difficulty keeps the store consistent. */
  lemma InsertQuizKeepsConsistent(db: Db, creator: UserId, title: string, description: string, difficulty: int,
                                  duration: int, topicFocus: Option<string>, code: RoomCode, now: int)
    requires Consistent(db) && IsDifficulty(difficulty) && !CodeInUse(db, code)
    ensures Consistent(InsertQuiz(db, creator, title, description, difficulty, duration, topicFocus, code, now))
  {
    var r := InsertQuiz(db, creator, title, description, difficulty, duration, topicFocus, code, now);
    InsertQuizQuizzesOk(db, creator, title, description, difficulty, duration, topicFocus, code, now);
    QuestionsStayOk(db, r);
    ParticipantsStayOk(db, r);
    ResultsStayOk(db, r);
  }

  lemma InsertQuizQuizzesOk(db: Db, creator: UserId, title: string, description: string, difficulty: int,
                            duration: int, topicFocus: Option<string>, code: RoomCode, now: int)
    requires QuizzesOk(db) && IsDifficulty(difficulty) && !CodeInUse(db, code)
    ensures QuizzesOk(InsertQuiz(db, creator, title, description, difficulty, duration, topicFocus, code, now))
  {
    assert db.nextId !in db.quizzes;
    assert forall k :: k in db.quizzes ==> db.quizzes[k].roomCode != code;
  }

  /**
   * `quiz.delete()`: the quiz goes, and with it (on_delete=CASCADE) its questions, its
   * participants, its results, and every result of a deleted participant.
   */
  function DeleteQuiz(db: Db, id: Id): (r: Db)
    ensures id !in r.quizzes && r.quizzes == db.quizzes - {id}
    ensures forall k :: k in r.questions <==> k in db.questions && db.questions[k].quiz != id
    ensures forall k :: k in r.participants <==> k in db.participants && db.participants[k].quiz != id
    ensures forall k :: k in r.results ==> k in db.results && db.results[k].quiz != id
    ensures forall k :: k in r.questions ==> r.questions[k] == db.questions[k]
    ensures forall k :: k in r.participants ==> r.participants[k] == db.participants[k]
    ensures forall k :: k in r.results ==> r.results[k] == db.results[k]
    ensures r.nextId == db.nextId
  {
    var ps := map k | k in db.participants && db.participants[k].quiz != id :: db.participants[k];
    Db(
      db.quizzes - {id},
      map k | k in db.questions && db.questions[k].quiz != id :: db.questions[k],
      ps,
      map k | k in db.results && db.results[k].quiz != id && db.results[k].participant in ps :: db.results[k],
      db.nextId)
  }

  /**
   * The cascade leaves no dangling reference: in a consistent store, deleting a quiz
   * removes exactly the results of that quiz, and the store stays consistent.
   */
  lemma DeleteQuizKeepsConsistent(db: Db, id: Id)
    requires Consistent(db)
    ensures Consistent(DeleteQuiz(db, id))
    ensures forall k :: k in DeleteQuiz(db, id).results <==> k in db.results && db.results[k].quiz != id
  {
    DeleteQuizQuizzes(db, id);
    DeleteQuizQuestions(db, id);
    DeleteQuizParticipants(db, id);
    DeleteQuizResults(db, id);
    DeleteQuizResultKeys(db, id);
  }

  lemma DeleteQuizQuizzes(db: Db, id: Id)
    requires Consistent(db)
    ensures QuizzesOk(DeleteQuiz(db, id))
  {
  }

  lemma DeleteQuizQuestions(db: Db, id: Id)
    requires Consistent(db)
    ensures QuestionsOk(DeleteQuiz(db, id))
  {
  }

  lemma DeleteQuizParticipants(db: Db, id: Id)
    requires Consistent(db)
    ensures ParticipantsOk(DeleteQuiz(db, id))
  {
  }

  lemma DeleteQuizResults(db: Db, id: Id)
    requires Consistent(db)
    ensures ResultsOk(DeleteQuiz(db, id))
  {
  }

  lemma DeleteQuizResultKeys(db: Db, id: Id)
    requires Consistent(db)
    ensures forall k :: k in DeleteQuiz(db, id).results <==> k in db.results && db.results[k].quiz != id
  {
  }

  /** Deleting participant rows; each deleted participant's results go with it (CASCADE). */
  function DeleteParticipants(db: Db, gone: set<Id>): (r: Db)
    ensures r.quizzes == db.quizzes && r.questions == db.questions && r.nextId == db.nextId
    ensures forall k :: k in r.participants <==> k in db.participants && k !in gone
    ensures forall k :: k in r.results <==> k in db.results && db.results[k].participant !in gone
    ensures forall k :: k in r.participants ==> r.participants[k] == db.participants[k]
    ensures forall k :: k in r.results ==> r.results[k] == db.results[k]
  {
    db.(participants := map k | k in db.participants && k !in gone :: db.participants[k],
        results := map k | k in db.results && db.results[k].participant !in gone :: db.results[k])
  }

  /** Removing participants together with their results leaves no result without its participant. */
  lemma DeleteParticipantsKeepsConsistent(db: Db, gone: set<Id>)
    requires Consistent(db)
    ensures Consistent(DeleteParticipants(db, gone))
  {
  }

  /** A participant who leaves is no longer in the room, and their result goes with them. */
  lemma LeaveRemovesMembership(db: Db, k: Id)
    requires Consistent(db) && k in db.participants
    ensures var r := DeleteParticipants(db, {k});
      && !HasParticipant(r, db.participants[k].quiz, db.participants[k].user)
      && !HasResult(r, k)
      && forall j :: j in db.participants && j != k ==> j in r.participants
  {
    var p := db.participants[k];
    var r := DeleteParticipants(db, {k});
    forall j | j in r.participants
      ensures r.participants[j].quiz != p.quiz || r.participants[j].user != p.user
    {
      assert j in db.participants && j != k;
    }
  }

  /** Ending a room removes every participant of it and, by cascade, every result of it. */
  lemma AbortClearsRoom(db: Db, quiz: Id)
    requires Consistent(db)
    ensures var r := DeleteParticipants(db, ParticipantsOf(db, quiz));
      && ParticipantsOf(r, quiz) == {} && ResultsOf(r, quiz) == {}
      && forall j :: j in db.participants && db.participants[j].quiz != quiz ==> j in r.participants
  {
    var r := DeleteParticipants(db, ParticipantsOf(db, quiz));
    forall j | j in r.results
      ensures r.results[j].quiz != quiz
    {
      var p := db.results[j].participant;
      assert p !in ParticipantsOf(db, quiz);
    }
  }

  /** `Question.objects.filter(quiz=quiz).delete()`. */
  function DeleteQuestionsOf(db: Db, quiz: Id): (r: Db)
    ensures forall k :: k in r.questions <==> k in db.questions && db.questions[k].quiz != quiz
    ensures forall k :: k in r.questions ==> r.questions[k] == db.questions[k]
    ensures r.quizzes == db.quizzes && r.participants == db.participants && r.results == db.results
    ensures r.nextId == db.nextId
  {
    db.(questions := map k | k in db.questions && db.questions[k].quiz != quiz :: db.questions[k])
  }

  lemma DeleteQuestionsKeepsConsistent(db: Db, quiz: Id)
    requires Consistent(db)
    ensures Consistent(DeleteQuestionsOf(db, quiz))
  {
  }

  function QuestionFrom(id: Id, quiz: Id, d: Draft): Question {
    Question(id, quiz, d.text, d.optionA, d.optionB, d.optionC, d.optionD, d.correctOption)
  }

  function NthNew(base: Id, quiz: Id, drafts: seq<Draft>, k: Id): Question
    requires base <= k < base + |drafts|
  {
    QuestionFrom(k, quiz, drafts[k - base])
  }

  /** The rows `bulk_create` makes: consecutive keys from `base`, in list order. */
  function NewQuestions(base: Id, quiz: Id, drafts: seq<Draft>): (m: map<Id, Question>)
    ensures forall k :: k in m <==> base <= k < base + |drafts|
    ensures forall i :: 0 <= i < |drafts| ==> m[base + i] == QuestionFrom(base + i, quiz, drafts[i])
  {
    map k: Id | base <= k < base + |drafts| :: NthNew(base, quiz, drafts, k)
  }

  /** `Question.objects.bulk_create(objs)`: the rows get consecutive keys in list order. */
  function CreateQuestions(db: Db, quiz: Id, drafts: seq<Draft>): (r: Db)
    ensures r.nextId == db.nextId + |drafts|
    ensures r.questions == db.questions + NewQuestions(db.nextId, quiz, drafts)
    ensures r.quizzes == db.quizzes && r.participants == db.participants && r.results == db.results
  {
    db.(questions := db.questions + NewQuestions(db.nextId, quiz, drafts), nextId := db.nextId + |drafts|)
  }

  lemma CreateQuestionsKeepsConsistent(db: Db, quiz: Id, drafts: seq<Draft>)
    requires Consistent(db) && quiz in db.quizzes
    requires forall i :: 0 <= i < |drafts| ==> IsOptionLabel(drafts[i].correctOption)
    ensures Consistent(CreateQuestions(db, quiz, drafts))
  {
    var r := CreateQuestions(db, quiz, drafts);
    forall k | k in r.questions
      ensures r.questions[k].id == k && k < r.nextId && r.questions[k].quiz in r.quizzes
      ensures IsOptionLabel(r.questions[k].correctOption)
    {
      if k >= db.nextId {
        assert r.questions[db.nextId + (k - db.nextId)].correctOption == drafts[k - db.nextId].correctOption;
      }
    }
  }

  /**
   * `Participant.objects.get_or_create(quiz=..., user=..., defaults={"name": ...})`: the
   * existing row is kept as it is; otherwise a row is created with score 0 and
   * `has_started` false.
   */
  function GetOrCreateParticipant(db: Db, quiz: Id, user: UserId, name: string, now: int): (r: Db)
    ensures HasParticipant(r, quiz, user)
    ensures HasParticipant(db, quiz, user) ==> r == db
    ensures !HasParticipant(db, quiz, user) ==>
      && r.participants == db.participants[db.nextId := Participant(db.nextId, quiz, user, name, now, 0, false)]
      && r.nextId == db.nextId + 1
    ensures r.quizzes == db.quizzes && r.questions == db.questions && r.results == db.results
  {
    if HasParticipant(db, quiz, user) then db
    else
      var p := Participant(db.nextId, quiz, user, name, now, 0, false);
      var r := db.(participants := db.participants[db.nextId := p], nextId := db.nextId + 1);
      assert r.participants[db.nextId] == p;
      r
  }

  /** Get-or-create never makes a second row for one (quiz, user) pair. */
  lemma GetOrCreateKeepsConsistent(db: Db, quiz: Id, user: UserId, name: string, now: int)
    requires Consistent(db) && quiz in db.quizzes
    ensures Consistent(GetOrCreateParticipant(db, quiz, user, name, now))
  {
    if !HasParticipant(db, quiz, user) {
      var r := GetOrCreateParticipant(db, quiz, user, name, now);
      CreatedParticipantOk(db, quiz, user, name, now);
      QuizzesStayOk(db, r);
      QuestionsStayOk(db, r);
      ResultsStayOk(db, r);
    }
  }

  lemma CreatedParticipantOk(db: Db, quiz: Id, user: UserId, name: string, now: int)
    requires Consistent(db) && quiz in db.quizzes && !HasParticipant(db, quiz, user)
    ensures ParticipantsOk(GetOrCreateParticipant(db, quiz, user, name, now))
  {
    var r := GetOrCreateParticipant(db, quiz, user, name, now);
    var n := db.nextId;
    assert n !in db.participants;
    forall a, b | a in r.participants && b in r.participants && a != b
      ensures r.participants[a].quiz != r.participants[b].quiz || r.participants[a].user != r.participants[b].user
    {
      if a == n {
        assert b in db.participants && r.participants[b] == db.participants[b];
      } else if b == n {
        assert a in db.participants && r.participants[a] == db.participants[a];
      }
    }
  }

  /** Saving a quiz with `is_active = False`. */
  function DeactivateQuiz(db: Db, id: Id): (r: Db)
    requires id in db.quizzes
    ensures id in r.quizzes && !r.quizzes[id].isActive
    ensures r.quizzes == db.quizzes[id := db.quizzes[id].(isActive := false)]
    ensures r.questions == db.questions && r.participants == db.participants && r.results == db.results
    ensures r.nextId == db.nextId
  {
    db.(quizzes := db.quizzes[id := db.quizzes[id].(isActive := false)])
  }

  lemma DeactivateKeepsConsistent(db: Db, id: Id)
    requires Consistent(db) && id in db.quizzes
    ensures Consistent(DeactivateQuiz(db, id))
  {
    SameLinksConsistent(db, DeactivateQuiz(db, id));
  }

  /** `participant.score = score; participant.has_started = True; participant.save()`. */
  function RecordScore(db: Db, participant: Id, score: int): (r: Db)
    requires participant in db.participants
    ensures r.participants == db.participants[participant := db.participants[participant].(score := score, hasStarted := true)]
    ensures r.quizzes == db.quizzes && r.questions == db.questions && r.results == db.results
    ensures r.nextId == db.nextId
  {
    db.(participants := db.participants[participant := db.participants[participant].(score := score, hasStarted := true)])
  }

  lemma RecordScoreKeepsConsistent(db: Db, participant: Id, score: int)
    requires Consistent(db) && participant in db.participants
    ensures Consistent(RecordScore(db, participant, score))
  {
    SameLinksConsistent(db, RecordScore(db, participant, score));
  }

  /** The participant already has a result row. */
  predicate HasResult(db: Db, participant: Id) {
    exists k :: k in db.results && db.results[k].participant == participant
  }

  /**
   * `QuizResult.objects.update_or_create(quiz=..., participant=..., defaults={score,
   * time_taken, rank: 0})`: afterwards the participant has a result holding the new score
   * and time and rank 0; every other result is untouched.
   */
  function UpsertResult(db: Db, participant: Id, score: int, timeTaken: int): (r: Db)
    requires participant in db.participants && db.nextId !in db.results
    ensures forall k :: k in r.results && r.results[k].participant == participant ==>
      && r.results[k].quiz == db.participants[participant].quiz
      && r.results[k].score == score && r.results[k].timeTaken == Some(timeTaken) && r.results[k].rank == 0
    ensures forall k :: k in db.results ==> k in r.results
    ensures forall k :: k in db.results && db.results[k].participant != participant ==> r.results[k] == db.results[k]
    ensures forall k :: k in r.results && k !in db.results ==> r.results[k].participant == participant
    ensures r.quizzes == db.quizzes && r.questions == db.questions && r.participants == db.participants
    ensures r.nextId >= db.nextId
  {
    var quiz := db.participants[participant].quiz;
    if HasResult(db, participant) then
      db.(results := map k | k in db.results ::
            if db.results[k].participant == participant
            then db.results[k].(quiz := quiz, score := score, timeTaken := Some(timeTaken), rank := 0)
            else db.results[k])
    else
      var row := QuizResult(db.nextId, quiz, participant, score, Some(timeTaken), 0);
      var r := db.(results := db.results[db.nextId := row], nextId := db.nextId + 1);
      assert r.results[db.nextId] == row;
      r
  }

  /** Update-or-create keeps one result per participant. */
  lemma UpsertResultKeepsConsistent(db: Db, participant: Id, score: int, timeTaken: int)
    requires Consistent(db) && participant in db.participants
    ensures Consistent(UpsertResult(db, participant, score, timeTaken))
    ensures HasResult(UpsertResult(db, participant, score, timeTaken), participant)
  {
    var r := UpsertResult(db, participant, score, timeTaken);
    if HasResult(db, participant) {
      UpsertUpdatesResult(db, participant, score, timeTaken);
    } else {
      UpsertAddsResult(db, participant, score, timeTaken);
    }
    QuizzesStayOk(db, r);
    QuestionsStayOk(db, r);
    ParticipantsStayOk(db, r);
  }

  lemma UpsertUpdatesResult(db: Db, participant: Id, score: int, timeTaken: int)
    requires ResultsOk(db) && participant in db.participants && HasResult(db, participant)
    ensures ResultsOk(UpsertResult(db, participant, score, timeTaken))
    ensures HasResult(UpsertResult(db, participant, score, timeTaken), participant)
  {
    var r := UpsertResult(db, participant, score, timeTaken);
    var k :| k in db.results && db.results[k].participant == participant;
    assert r.results[k].participant == participant;
  }

  lemma UpsertAddsResult(db: Db, participant: Id, score: int, timeTaken: int)
    requires ResultsOk(db) && participant in db.participants && !HasResult(db, participant)
    requires db.participants[participant].quiz in db.quizzes
    ensures ResultsOk(UpsertResult(db, participant, score, timeTaken))
    ensures HasResult(UpsertResult(db, participant, score, timeTaken), participant)
  {
    var r := UpsertResult(db, participant, score, timeTaken);
    assert db.nextId !in db.results;
    assert forall k :: k in db.results ==> db.results[k].participant != participant;
    assert r.results[db.nextId].participant == participant;
  }

  /**
   * The rank the rows assign to result `id`: that of the first row naming it, if any, as
   * the `CASE WHEN` that `bulk_update` builds takes the first branch whose id matches.
   */
  function RankFor(rows: seq<QuizResult>, id: Id): (rank: Option<int>)
    ensures rank == None <==> forall i :: 0 <= i < |rows| ==> rows[i].id != id
    ensures forall i :: 0 <= i < |rows| && rows[i].id == id &&
                        (forall j :: 0 <= j < i ==> rows[j].id != id)
                        ==> rank == Some(rows[i].rank)
  {
    if rows == [] then None
    else
      var n := |rows| - 1;
      var earlier := RankFor(rows[..n], id);
      if earlier.Some? then earlier
      else if rows[n].id == id then Some(rows[n].rank)
      else None
  }

  /**
   * `QuizResult.objects.bulk_update(rows, ["rank"])`: each stored row named by one of
   * `rows` takes that row's rank; no other field and no other row changes.
   */
  function WriteRanks(db: Db, rows: seq<QuizResult>): (r: Db)
    ensures r.results.Keys == db.results.Keys
    ensures forall k :: k in db.results ==> r.results[k] == db.results[k].(rank := r.results[k].rank)
    ensures forall k :: k in db.results ==> r.results[k].rank == RankFor(rows, k).GetOr(db.results[k].rank)
    ensures r.quizzes == db.quizzes && r.questions == db.questions && r.participants == db.participants
    ensures r.nextId == db.nextId
  {
    db.(results := map k | k in db.results :: db.results[k].(rank := RankFor(rows, k).GetOr(db.results[k].rank)))
  }

  lemma WriteRanksKeepsConsistent(db: Db, rows: seq<QuizResult>)
    requires Consistent(db)
    ensures Consistent(WriteRanks(db, rows))
  {
    SameLinksConsistent(db, WriteRanks(db, rows));
  }

  // ---------------------------------------------------------------------------
  // Rows by quiz, and fetching them
  // ---------------------------------------------------------------------------

  /** `quiz.questions.all()`. */
  function QuestionsOf(db: Db, quiz: Id): set<Id> {
    set k | k in db.questions && db.questions[k].quiz == quiz
  }

  /** The questions `bulk_create` adds all belong to the quiz they were created for. */
  lemma CreatedQuestionsBelong(db: Db, quiz: Id, drafts: seq<Draft>)
    ensures forall k :: db.nextId <= k < db.nextId + |drafts| ==> k in QuestionsOf(CreateQuestions(db, quiz, drafts), quiz)
  {
    var r := CreateQuestions(db, quiz, drafts);
    forall k | db.nextId <= k < db.nextId + |drafts|
      ensures k in QuestionsOf(r, quiz)
    {
      var i := k - db.nextId;
      assert r.questions[db.nextId + i] == QuestionFrom(db.nextId + i, quiz, drafts[i]);
    }
  }

  /** `quiz.generated_quiz_participations.all()`. */
  function ParticipantsOf(db: Db, quiz: Id): set<Id> {
    set k | k in db.participants && db.participants[k].quiz == quiz
  }

  /** `QuizResult.objects.filter(quiz=quiz)`. */
  function ResultsOf(db: Db, quiz: Id): set<Id> {
    set k | k in db.results && db.results[k].quiz == quiz
  }

  /**
   * The rows of a query, each once, in an order the store chooses: every key of `ids`
   * appears exactly once.
   */
  method Fetch(ids: set<Id>) returns (order: seq<Id>)
    ensures |order| == |ids|
    ensures forall i :: 0 <= i < |order| ==> order[i] in ids
    ensures forall k :: k in ids ==> k in order
    ensures forall i, j :: 0 <= i < j < |order| ==> order[i] != order[j]
  {
    order := [];
    var rest := ids;
    while rest != {}
      invariant rest <= ids
      invariant forall i :: 0 <= i < |order| ==> order[i] in ids && order[i] !in rest
      invariant forall k :: k in ids ==> k in rest || k in order
      invariant forall i, j :: 0 <= i < j < |order| ==> order[i] != order[j]
      invariant |order| + |rest| == |ids|
      decreases |rest|
    {
      var k :| k in rest;
      order := order + [k];
      rest := rest - {k};
    }
  }

  /** A second join by the same user adds no row and keeps the name of the first. */
  lemma GetOrCreateIdempotent(db: Db, quiz: Id, user: UserId, first: string, second: string, t1: int, t2: int)
    ensures var once := GetOrCreateParticipant(db, quiz, user, first, t1);
      GetOrCreateParticipant(once, quiz, user, second, t2) == once
  {
  }

  // ---------------------------------------------------------------------------
  // Undoing a quiz under construction
  // ---------------------------------------------------------------------------

  /** `db1` is `db0` with quiz `n` added, and possibly questions of `n`; nothing else differs. */
  ghost predicate ExtendsByQuiz(db0: Db, db1: Db, n: Id) {
    && n !in db0.quizzes && n in db1.quizzes
    && db1.quizzes == db0.quizzes[n := db1.quizzes[n]]
    && db1.participants == db0.participants && db1.results == db0.results
    && db1.nextId >= db0.nextId
    && (forall k :: k in db0.questions ==> k in db1.questions && db1.questions[k] == db0.questions[k])
    && (forall k :: k in db1.questions && k !in db0.questions ==> db1.questions[k].quiz == n)
  }

  lemma InsertQuizExtends(db: Db, creator: UserId, title: string, description: string, difficulty: int,
                          duration: int, topicFocus: Option<string>, code: RoomCode, now: int)
    requires Consistent(db)
    ensures ExtendsByQuiz(db, InsertQuiz(db, creator, title, description, difficulty, duration, topicFocus, code, now), db.nextId)
  {
    assert db.nextId !in db.quizzes;
  }

  lemma DeleteQuestionsExtends(db0: Db, db1: Db, n: Id)
    requires Consistent(db0) && ExtendsByQuiz(db0, db1, n)
    ensures ExtendsByQuiz(db0, DeleteQuestionsOf(db1, n), n)
  {
    assert forall k :: k in db0.questions ==> db0.questions[k].quiz != n;
  }

  lemma CreateQuestionsExtends(db0: Db, db1: Db, n: Id, drafts: seq<Draft>)
    requires Consistent(db0) && ExtendsByQuiz(db0, db1, n)
    ensures ExtendsByQuiz(db0, CreateQuestions(db1, n, drafts), n)
  {
    var added := NewQuestions(db1.nextId, n, drafts);
    assert forall k :: k in db0.questions ==> k !in added;
    forall k | k in added ensures added[k].quiz == n {
      assert added[k] == NthNew(db1.nextId, n, drafts, k);
    }
  }

  /**
   * Deleting the quiz under construction undoes it completely: with its questions gone
   * by CASCADE, the store is the one before creation, save for the key counter.
   */
  lemma DeleteNewQuizRestores(db0: Db, db1: Db, n: Id)
    requires Consistent(db0) && ExtendsByQuiz(db0, db1, n)
    ensures DeleteQuiz(db1, n) == db0.(nextId := db1.nextId)
  {
    RestoresQuizzes(db0, db1, n);
    RestoresQuestions(db0, db1, n);
    RestoresParticipants(db0, db1, n);
    RestoresResults(db0, db1, n);
  }

  lemma RestoresQuizzes(db0: Db, db1: Db, n: Id)
    requires Consistent(db0) && ExtendsByQuiz(db0, db1, n)
    ensures DeleteQuiz(db1, n).quizzes == db0.quizzes
  {
  }

  lemma RestoresQuestions(db0: Db, db1: Db, n: Id)
    requires Consistent(db0) && ExtendsByQuiz(db0, db1, n)
    ensures DeleteQuiz(db1, n).questions == db0.questions
  {
    assert forall k :: k in db0.questions ==> db0.questions[k].quiz != n;
    KeptQuestionsAreOld(db0, db1, n);
  }

  lemma KeptQuestionsAreOld(db0: Db, db1: Db, n: Id)
    requires ExtendsByQuiz(db0, db1, n)
    requires forall k :: k in db0.questions ==> db0.questions[k].quiz != n
    ensures DeleteQuiz(db1, n).questions == db0.questions
  {
    var r := DeleteQuiz(db1, n).questions;
    forall k ensures k in r <==> k in db0.questions {
      if k in db1.questions && k !in db0.questions {
        assert db1.questions[k].quiz == n;
      }
    }
    forall k | k in r ensures r[k] == db0.questions[k] {
    }
  }

  lemma RestoresParticipants(db0: Db, db1: Db, n: Id)
    requires Consistent(db0) && ExtendsByQuiz(db0, db1, n)
    ensures DeleteQuiz(db1, n).participants == db0.participants
  {
    assert forall k :: k in db0.participants ==> db0.participants[k].quiz != n;
  }

  lemma RestoresResults(db0: Db, db1: Db, n: Id)
    requires Consistent(db0) && ExtendsByQuiz(db0, db1, n)
    ensures DeleteQuiz(db1, n).results == db0.results
  {
    RestoresParticipants(db0, db1, n);
    assert forall k :: k in db0.results ==> db0.results[k].quiz != n;
  }
}
