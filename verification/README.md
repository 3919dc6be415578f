# Quiz rooms, modelled in Dafny

This project models the core of a Django quiz site, which has two parts.

**The live quiz-room engine** (`generate_quiz/views.py` over the records of `generate_quiz/models.py`):
- A creator uploads notes. A generator turns them into multiple-choice items. `_store_questions` keeps the well-formed A–D items.
- The quiz gets a fresh six-digit room code. It is rolled back when no question survives or generation fails.
- Players join the lobby, or leave it. When the creator leaves, the room is aborted and emptied.
- The creator starts a timed window, kept in an expiring cache.
- Players answer. `submit_quiz` counts exact label matches and clamps the elapsed time to the window.
- `quiz_results` ranks the answers with standard competition ranks, writes only the ranks that changed, and closes the room.
- `quiz_results_data` and `quiz_lobby_status` are read-only snapshots.

**The single-player scorer** (`quizzes/views.py`):
- It cleans a markdown fence off the generator's reply.
- It scores answers ignoring case and surrounding whitespace.

## Structure

| module | file | what it holds |
|---|---|---|
| `Wrappers` | `wrappers.dfy` | `Option` |
| `Text` | `text.dfy` | Python's `strip`, ``strip("`")``, `startswith`, `replace(pat, "")` and `lower` |
| `Sorting` | `sorting.dfy` | a stable insertion sort; it stands for `list.sort` and `order_by` |
| `Models` | `models.dfy` | the records, the store `Db` and its invariant `Consistent`, and the store operations |
| `Timing` | `timing.dfy` | the cache keys, an expiring cache with explicit expiry times, the window arithmetic and the elapsed time |
| `Intake` | `intake.dfy` | the item check of `_store_questions`, the reply cleanup and the question count |
| `RoomCodes` | `room_codes.dfy` | `_generate_unique_room_code` and the five-attempt save loop |
| `Ranking` | `ranking.dfy` | the sort key, competition ranks and the ranking walk |
| `RoomEngine` | `room_engine.dfy` | class `QuizSite`, one method per view |
| `SoloQuiz` | `solo_quiz.dfy` | class `Session`, for `generate_quiz` and `submit_quiz` of `quizzes/views.py` |

The store is a value: one map per table, keyed by primary key, plus the next free key. `QuizSite` holds it in a field, next to the cache. A view that changes state is a method that reassigns those fields.

Queries whose order the database does not fix are enumerated by `Models.Fetch`, which returns an arbitrary order. The leaderboard is proved to be the same for every such order.

### Where the code departs from the evident design

The model follows the code:

- After fifty colliding candidates, `_generate_unique_room_code` returns a fifty-first code without checking it (`RoomCodes.Pick`). Only the five-attempt save loop reports failure (`RoomCodes.SaveLoop`).
- `Participant` has no uniqueness constraint on (quiz, user). The model keeps "one row per (quiz, user)" as part of the invariant `Consistent`. Every view preserves it, because rows are only ever added by get-or-create, one request at a time.
- `Quiz` has no `status` field, so the `status` branches never fire. The abort flag in the cache is the only abort signal.
- `r.time_taken or timedelta.max` treats a zero time as missing, so it ranks last (`Ranking.KeyOf`).
- A duration of zero or less gives the window entries a non-positive cache timeout. Django then stores nothing, so such a room never reads as started (`Timing.WindowEntriesOutliveDeadline`).

## Model

| member | source | states |
|---|---|---|
| `Timing.CacheKey` | generate_quiz/views.py:46-52 | the key is `quiz:` followed by the room code and the slot name |
| `Timing.CacheKeyInjective` | generate_quiz/views.py:46-52 | two cache keys are equal exactly when their codes and slots are, so the three slots of every room are separate entries |
| `Timing.StampOf` | generate_quiz/views.py:329-330 | a stored timestamp reads back as itself; anything else reads as no time |
| `Timing.CacheGet` | generate_quiz/views.py:263-266 | a key reads back exactly when it is stored and not yet expired, with its stored value |
| `Timing.CacheSet` | generate_quiz/views.py:305-306 | a positive timeout stores the value until now + timeout; a non-positive one leaves the key absent; other keys are untouched |
| `Timing.GetAfterSet` | generate_quiz/views.py:169 | a key set at `now` reads back its value until it expires and is absent afterwards; other keys read as before |
| `Timing.WindowEnd` | generate_quiz/views.py:304 | the deadline is at least a minute after the start, and exactly `duration` minutes after it when duration ≥ 1 |
| `Timing.WindowTtl` | generate_quiz/views.py:305-306 | the cache timeout of the window entries is `duration * 120` seconds; `Timing.WindowEntriesOutliveDeadline` states what it guarantees |
| `Timing.Truthy` | generate_quiz/views.py:143 | a cache reading is truthy when a timestamp is stored, or a flag that is true |
| `Timing.WindowEntriesOutliveDeadline` | generate_quiz/views.py:304-306 | with duration ≥ 1 the cache entries outlive the deadline; with duration ≤ 0 their timeout is non-positive |
| `Timing.Elapsed` | generate_quiz/views.py:361-363 | 0 without a start; now − start without a deadline; min(now, deadline) − start otherwise |
| `Timing.ElapsedWithinWindow` | generate_quiz/views.py:361-363 | the elapsed time of a submission after the start lies between 0 and the window length |
| `Intake.SafeJsonText` | generate_quiz/views.py:90-96 | the cleaned text is a substring of the reply; an unfenced reply is only trimmed; a fenced reply loses its backticks at both ends, and when what is left starts with `json` those four letters are dropped and the rest is trimmed; without the tag no backtick is left at either end |
| `Intake.SafeJsonTextDropsFence` | generate_quiz/views.py:90-96 | a reply fenced with a `json` tag cleans to its payload |
| `Intake.AnswerIndex` | generate_quiz/views.py:104-105 | an integer index is accepted exactly when it is in 0..3, and then as itself; a boolean passes the integer test as 1 or 0; a missing or other value is rejected |
| `Intake.InspectVerdicts` | generate_quiz/views.py:101-115 | an item is accepted exactly when it is an object with a non-blank string question, a list or string of four options and an integer answer index in 0..3; the accepted draft is the trimmed question, the four options and the A–D label of the index; it raises exactly for a non-object item, a question that is neither absent nor a string, or a non-blank question whose options are a scalar, or an object with four keys and a valid index; every other item is skipped |
| `Intake.WellFormedItemAccepted` | generate_quiz/views.py:101-115 | an object with a non-blank question, four listed options and a valid index becomes the draft with the trimmed question, those options in order and the label of the index |
| `Intake.Inspect` | generate_quiz/views.py:101-115 | one pass of the loop body: accept, skip or raise, as `Intake.InspectVerdicts` states |
| `Intake.AnyRaises` | generate_quiz/views.py:101-106 | some item of the list makes the loop body raise, which aborts `_store_questions` after the deletion |
| `Intake.Collect` | generate_quiz/views.py:101-116 | the drafts of the accepted items, in item order; its properties are `Intake.CollectAppend`, `Intake.CollectEmptyIff`, `Intake.CollectedWereAccepted` and `Intake.CollectShorter` |
| `Intake.BooleanAnswerSelectsB` | generate_quiz/views.py:105 | a boolean `true` answer index passes the integer test and selects "B" |
| `Intake.NoRaiseExtends` | generate_quiz/views.py:101-106 | a prefix with no raising item, extended by a non-raising item, still has none |
| `Intake.CollectAppend` | generate_quiz/views.py:101-116 | collecting is done item by item: collecting a concatenation concatenates the results |
| `Intake.CollectEmptyIff` | generate_quiz/views.py:101-117 | nothing is collected exactly when no item is accepted |
| `Intake.CollectedWereAccepted` | generate_quiz/views.py:101-116 | every collected draft comes from an accepted item |
| `Intake.CollectShorter` | generate_quiz/views.py:101-117 | no more drafts than items |
| `Intake.Accepted` | generate_quiz/views.py:101-117 | no more questions than items; every stored question has non-blank text and an A–D label; which items are accepted is stated by `Intake.InspectVerdicts` |
| `Intake.AcceptedAppend` | generate_quiz/views.py:101-116 | questions keep the order of the input items |
| `Intake.AcceptedEmptyIff` | generate_quiz/views.py:228 | the count is zero exactly when no item is accepted |
| `Intake.QuestionCount` | generate_quiz/views.py:209-215 | a requested count in 5..100 is used as is; otherwise the estimate clamped to 5..50, so an estimate above 50 gives 50 and one below 5 gives 5 |
| `Models.QuizWithCode` | generate_quiz/models.py:29 | the quiz found for a code in use has that code |
| `Models.QuizWithCodeUnique` | generate_quiz/models.py:29 | in a consistent store, a quiz with a given code is the only one |
| `Models.ParticipationOf` | generate_quiz/views.py:350 | the participation found belongs to that quiz and user |
| `Models.ParticipationUnique` | generate_quiz/views.py:162 | in a consistent store, a user has at most one participation per quiz |
| `Models.CodesInUse` | generate_quiz/views.py:57 | the set of codes in use is exactly the codes of stored quizzes |
| `Models.InsertQuiz` | generate_quiz/models.py:5-34 | the new quiz gets the next key, is active by default, and has the given code, creator, duration and difficulty; no other row changes |
| `Models.InsertQuizKeepsConsistent` | generate_quiz/models.py:13-29 | inserting a quiz with a listed difficulty and an unused code keeps the store consistent: codes stay unique |
| `Models.InsertQuizQuizzesOk` | generate_quiz/models.py:13-29 | the quiz table stays well formed, with six-digit unique codes and difficulties 1..5 |
| `Models.DeleteQuiz` | generate_quiz/models.py:41-69 | deleting a quiz removes it with its questions, participants and results, and keeps every other row unchanged |
| `Models.DeleteQuizKeepsConsistent` | generate_quiz/models.py:41-69 | the cascade leaves a consistent store and removes exactly the quiz's results |
| `Models.DeleteQuizQuizzes` | generate_quiz/models.py:29 | after a quiz deletion the quiz table stays well formed |
| `Models.DeleteQuizQuestions` | generate_quiz/models.py:41 | no question is left pointing at the deleted quiz |
| `Models.DeleteQuizParticipants` | generate_quiz/models.py:54-56 | no participant is left pointing at the deleted quiz |
| `Models.DeleteQuizResults` | generate_quiz/models.py:68-69 | no result is left pointing at the deleted quiz or its participants |
| `Models.DeleteQuizResultKeys` | generate_quiz/models.py:68 | the results kept are exactly those of other quizzes |
| `Models.DeleteParticipants` | generate_quiz/models.py:69 | deleting participants removes exactly them and exactly their results |
| `Models.DeleteParticipantsKeepsConsistent` | generate_quiz/models.py:69 | the cascade from participants to results keeps the store consistent |
| `Models.LeaveRemovesMembership` | generate_quiz/views.py:176 | a leaving participant loses their row and results; everyone else stays |
| `Models.AbortClearsRoom` | generate_quiz/views.py:173 | deleting all of a room's participants leaves it with no participants and no results; other rooms keep theirs |
| `Models.DeleteQuestionsOf` | generate_quiz/views.py:99 | exactly the quiz's questions are removed |
| `Models.DeleteQuestionsKeepsConsistent` | generate_quiz/views.py:99 | removing a quiz's questions keeps the store consistent |
| `Models.NewQuestions` | generate_quiz/views.py:107-116 | the i-th draft becomes the question with the i-th new key |
| `Models.CreateQuestions` | generate_quiz/views.py:116 | a bulk create adds exactly the new questions and advances the key counter by their number |
| `Models.CreateQuestionsKeepsConsistent` | generate_quiz/models.py:40-47 | questions with A–D labels for an existing quiz keep the store consistent |
| `Models.CreatedQuestionsBelong` | generate_quiz/views.py:107-116 | every created question belongs to the quiz |
| `Models.GetOrCreateParticipant` | generate_quiz/views.py:270-273 | afterwards the user participates; an existing row is left as it is; otherwise one row with score 0 and not started is added |
| `Models.GetOrCreateIdempotent` | generate_quiz/views.py:270-273 | a second get-or-create by the same user changes nothing, whatever name it brings |
| `Models.GetOrCreateKeepsConsistent` | generate_quiz/models.py:53-61 | get-or-create keeps one participation per (quiz, user) |
| `Models.CreatedParticipantOk` | generate_quiz/models.py:53-61 | a newly created participation keeps the participant table well formed |
| `Models.DeactivateQuiz` | generate_quiz/views.py:332-333 | only the quiz's `is_active` flag changes, to false |
| `Models.DeactivateKeepsConsistent` | generate_quiz/views.py:332-333 | deactivating keeps the store consistent |
| `Models.RecordScore` | generate_quiz/views.py:365-367 | only the participant's score and started flag change |
| `Models.RecordScoreKeepsConsistent` | generate_quiz/views.py:365-367 | recording a score keeps the store consistent |
| `Models.UpsertResult` | generate_quiz/views.py:369-372 | every result of the participant has the new score and time and rank 0; other results are untouched; a new row belongs to the participant |
| `Models.UpsertResultKeepsConsistent` | generate_quiz/views.py:369-372 | after the upsert the participant has exactly one result, and the store is consistent |
| `Models.UpsertUpdatesResult` | generate_quiz/views.py:369-372 | an upsert over an existing result updates it in place |
| `Models.UpsertAddsResult` | generate_quiz/models.py:67-75 | an upsert without an existing result adds one well-formed row |
| `Models.RankFor` | generate_quiz/views.py:394 | a result absent from the update list keeps its rank; otherwise it takes the rank of its first entry, as the `CASE WHEN` of `bulk_update` does |
| `Models.WriteRanks` | generate_quiz/views.py:393-394 | a bulk update changes only the rank column of the listed results |
| `Models.WriteRanksKeepsConsistent` | generate_quiz/views.py:393-394 | writing ranks keeps the store consistent |
| `Models.Fetch` | generate_quiz/views.py:378 | a query returns each matching key exactly once, in some order |
| `Models.InsertQuizExtends` | generate_quiz/views.py:194-201 | saving a new quiz only adds that quiz |
| `Models.DeleteQuestionsExtends` | generate_quiz/views.py:99 | replacing the new quiz's questions still only adds to the old store |
| `Models.CreateQuestionsExtends` | generate_quiz/views.py:116 | creating the new quiz's questions still only adds to the old store |
| `Models.DeleteNewQuizRestores` | generate_quiz/views.py:228-235 | deleting the new quiz restores the store as it was before creation, apart from the key counter |
| `Models.RestoresQuizzes` | generate_quiz/views.py:229 | the rollback restores the quiz table |
| `Models.RestoresQuestions` | generate_quiz/views.py:229 | the rollback restores the question table |
| `Models.KeptQuestionsAreOld` | generate_quiz/views.py:229 | the questions that survive the rollback are the old ones |
| `Models.RestoresParticipants` | generate_quiz/views.py:233 | the rollback restores the participant table |
| `Models.RestoresResults` | generate_quiz/views.py:233 | the rollback restores the result table |
| `Models.SameLinksConsistent` | generate_quiz/views.py:389-398 | changing fields other than keys and links keeps the store consistent |
| `RoomCodes.PickFrom` | generate_quiz/views.py:55-59 | the chosen candidate follows only taken candidates, and is free unless every checked candidate was taken |
| `RoomCodes.Pick` | generate_quiz/views.py:54-59 | the first free code among fifty draws, or the fifty-first draw unchecked |
| `RoomCodes.PickFromAfterTaken` | generate_quiz/views.py:55-58 | after n taken draws, the pick is the next draw |
| `RoomCodes.PickCollidesIff` | generate_quiz/views.py:59 | the returned code is taken exactly when all fifty-one draws were taken |
| `RoomCodes.GenerateUniqueRoomCode` | generate_quiz/views.py:54-59 | the loop returns exactly `Pick`: a six-digit code and the position of the next draw |
| `RoomCodes.SaveLoop` | generate_quiz/views.py:196-207 | a saved code is not in use |
| `RoomCodes.SaveLoopFailsIff` | generate_quiz/views.py:196-207 | saving fails exactly when every draw the attempts read was taken |
| `RoomCodes.FailsOnlyIfTaken` | generate_quiz/views.py:205-207 | a reported failure means every draw read was taken |
| `RoomCodes.FailsIfTaken` | generate_quiz/views.py:196-204 | if every draw the attempts can read is taken, saving fails |
| `RoomCodes.SaveFailsOnlyAfterAllDrawsTaken` | generate_quiz/views.py:196-207 | with five attempts, failure needs 255 taken draws in a row, and they force it |
| `Ranking.KeyOf` | generate_quiz/views.py:379 | the key holds the score, and the time unless the time is missing or zero, which ranks as worst |
| `Ranking.BetterIsStrictTotalOrder` | generate_quiz/views.py:379 | "higher score, then shorter time" is a strict total order on keys |
| `Ranking.SortsBeforeIsTotalPreorder` | generate_quiz/views.py:379 | the sort comparison is a total preorder |
| `Ranking.CompetitionRank` | generate_quiz/views.py:384-388 | a rank is between 1 and the row count + 1 |
| `Ranking.CountBetterAppend` | generate_quiz/views.py:384-388 | counting better rows is additive over concatenation |
| `Ranking.CountBetterPermutation` | generate_quiz/views.py:378-379 | the rank of a row does not depend on the order the rows were fetched in |
| `Ranking.CountBetterIsSetSize` | generate_quiz/views.py:378 | the count over fetched rows equals the number of stored results with a better key |
| `Ranking.CompetitionRankIsQuizRank` | generate_quiz/views.py:378-388 | the rank over fetched rows is the rank defined on the stored result set |
| `Ranking.QuizRankOrdersByKey` | generate_quiz/views.py:384-391 | a better key gets a strictly smaller rank, and equal keys share a rank |
| `Ranking.GroupStartRank` | generate_quiz/views.py:386-387 | in sorted order, the first row of a group of equal keys has rank = its 1-based position |
| `Ranking.Changed` | generate_quiz/views.py:389-391 | the update list is no longer than the rows, and holds only corrected ranks |
| `Ranking.ChangedStep` | generate_quiz/views.py:389-391 | each step appends the row exactly when its rank changes |
| `Ranking.ChangedEmptyIff` | generate_quiz/views.py:389-394 | nothing is written exactly when every stored rank is already correct |
| `Ranking.ChangedRankFor` | generate_quiz/views.py:389-394 | a result whose rank changes gets its competition rank; every other result is not in the update list |
| `Ranking.CompetitionRankExample` | generate_quiz/views.py:384-391 | scores 10,10,8,8,8,5 with equal times get ranks 1,1,3,3,3,6 |
| `Ranking.SortedEnumerates` | generate_quiz/views.py:379 | sorting keeps the same stored results, each once |
| `Ranking.RestampedRowsStored` | generate_quiz/views.py:379-391 | every ranked row is a stored result with its competition rank; the rows come in sort order, each once |
| `Ranking.SortedRanksAgree` | generate_quiz/views.py:379 | the sorted rows are sorted and rank exactly as the fetched ones |
| `Ranking.SortedRanksStepwise` | generate_quiz/views.py:379-388 | after the sort, a key change starts a new rank equal to the position, and an equal key repeats the rank |
| `Ranking.SortedListRanksStepwise` | generate_quiz/views.py:384-388 | the same, for any sorted list with the same better-counts |
| `Ranking.SortedListRankAt` | generate_quiz/views.py:384-388 | the same, at one position |
| `Ranking.RankRows` | generate_quiz/views.py:379-391 | sorting then walking gives every row its competition rank, and exactly the changed rows to update |
| `Ranking.Restamp` | generate_quiz/views.py:381-391 | the walk with `current_rank` and `last_key` assigns every row its competition rank and collects the changed rows |
| `Sorting.Insert` | generate_quiz/views.py:379 | insertion adds one element, and keeps the rest |
| `Sorting.Sort` | generate_quiz/views.py:379 | sorting is a permutation |
| `Sorting.InsertSorted` | generate_quiz/views.py:379 | insertion into a sorted list keeps it sorted |
| `Sorting.SortSorted` | generate_quiz/views.py:379 | under a total preorder the result is sorted |
| `RoomEngine.JoinName` | generate_quiz/views.py:256-272 | a joining user's name is the posted name trimmed, or else the username |
| `RoomEngine.CreatedStore` | generate_quiz/views.py:193-241 | the store after creation: the quiz saved from the form's title, difficulty, duration and topic with an empty description, its questions replaced by the drafts, and the creator's participant row when asked for |
| `RoomEngine.FormValid` | generate_quiz/views.py:193 | the form passes when its difficulty is listed and its count, if given, is in 5..100 |
| `RoomEngine.NotesText` | generate_quiz/views.py:186-187 | the notes are empty exactly when no file text was extracted and the pasted text is blank |
| `RoomEngine.Generated` | generate_quiz/views.py:217-227 | the generator reply for the count, cleaned and parsed; None when the call or the parse fails |
| `RoomEngine.IsAborted` | generate_quiz/views.py:263 | the room reads as aborted while its abort flag is stored and true |
| `RoomEngine.IsStarted` | generate_quiz/views.py:266 | the room reads as started while its start entry is stored |
| `RoomEngine.StartOf` | generate_quiz/views.py:324 | the stored start of the window, if any |
| `RoomEngine.EndOf` | generate_quiz/views.py:325 | the stored deadline of the window, if any |
| `RoomEngine.OpenWindow` | generate_quiz/views.py:302-306 | both window entries set at `now` with timeout `duration * 120`; `RoomEngine.OpenWindowReadsBack` states what they read back |
| `RoomEngine.CorrectAnswers` | generate_quiz/views.py:352-355 | the questions counted as correct are among those asked and those answered |
| `RoomEngine.CloseRoom` | generate_quiz/views.py:393-398 | bulk-update the changed ranks when there are any, then deactivate the quiz if active; `RoomEngine.CloseRoomIsRankedStore` states the result |
| `RoomEngine.RankedStore` | generate_quiz/views.py:389-398 | the store with every result of the quiz at its competition rank and the quiz inactive; its properties are the `RankedStore…` lemmas |
| `RoomEngine.LobbyLine` | generate_quiz/views.py:135-139 | a lobby line holds the name, the join time and whether the participant is the creator |
| `RoomEngine.LobbyLines` | generate_quiz/views.py:133-141 | one lobby line per participant, in the given order |
| `RoomEngine.OpenWindowReadsBack` | generate_quiz/views.py:302-306 | once a room with duration ≥ 1 starts, it reads as started, with its start and deadline, until the deadline; other keys are untouched |
| `RoomEngine.AbortFlagReadsBack` | generate_quiz/views.py:169 | the abort flag reads true for six hours after a creator leaves |
| `RoomEngine.FullScoreIff` | generate_quiz/views.py:352-355 | the score is at most the question count, and equals it exactly when every answer matches its correct label |
| `RoomEngine.RowsOf` | generate_quiz/views.py:378 | the fetched rows are the stored results in the fetched order |
| `RoomEngine.FetchedRowsEnumerate` | generate_quiz/views.py:378-388 | the fetched rows list the quiz's results once each, and their ranks are those over the stored results |
| `RoomEngine.RanksWritten` | generate_quiz/views.py:389-394 | after the bulk update, every result of the quiz has its competition rank and no other result changes; nothing is written exactly when every rank is current |
| `RoomEngine.RankedStoreConsistent` | generate_quiz/views.py:389-398 | the ranked and closed store is consistent |
| `RoomEngine.RankedStoreSettles` | generate_quiz/views.py:389-394 | after ranking, every rank is current, so ranking again writes nothing and changes nothing |
| `RoomEngine.RankedStoreOrdersByKey` | generate_quiz/views.py:379-391 | in the ranked store a better result has a strictly smaller rank, and equal keys share a rank |
| `RoomEngine.CloseRoomIsRankedStore` | generate_quiz/views.py:393-398 | writing the changed ranks and closing the room gives the ranked store |
| `RoomEngine.RankedRowsRankRoom` | generate_quiz/views.py:378-391 | the ranked rows list each of the quiz's results once, in sort order, with its rank |
| `RoomEngine.LeaderboardShown` | generate_quiz/views.py:392-400 | the page lists each result once, in sort order, marking exactly the caller's own |
| `RoomEngine.ResultsPageSteps` | generate_quiz/views.py:375-400 | the steps of `quiz_results` give the ranked store, write nothing exactly when ranks are current, and show the leaderboard |
| `RoomEngine.Leaderboard` | generate_quiz/views.py:392 | each line holds its result, marked as the caller's exactly when the caller is its participant's user |
| `RoomEngine.RankAndClose` | generate_quiz/views.py:378-398 | ranking and closing yields the ranked store, writes nothing exactly when ranks are current, and shows the leaderboard |
| `RoomEngine.ReorderListsOnce` | generate_quiz/views.py:406 | reordering a key list keeps each key listed once |
| `RoomEngine.ByRankOrder` | generate_quiz/views.py:406 | ordering by rank lists each result once, ranks non-decreasing |
| `RoomEngine.ByJoinTimeOrder` | generate_quiz/views.py:133 | ordering by join time lists each participant once, join times non-decreasing |
| `RoomEngine.DataLine` | generate_quiz/views.py:409-415 | the time is shown as a dash exactly when it is missing or zero |
| `RoomEngine.DataLines` | generate_quiz/views.py:407-415 | one line per result in rank order, built from the stored result and its participant |
| `RoomEngine.SaveWithFreshCode` | generate_quiz/views.py:196-207 | the loop saves exactly the code `SaveLoop` describes, or reports failure |
| `RoomEngine.CollectDrafts` | generate_quiz/views.py:100-116 | the loop collects exactly the accepted items, in order, or stops when an item raises |
| `RoomEngine.QuizSite.constructor` | generate_quiz/models.py:5-75 | an empty store is consistent |
| `RoomEngine.QuizSite.FindQuiz` | generate_quiz/views.py:158 | a quiz is found exactly when the code is in use, and it has that code |
| `RoomEngine.QuizSite.FindActiveQuiz` | generate_quiz/views.py:257 | a quiz is found exactly when an active quiz has the code |
| `RoomEngine.QuizSite.FindParticipant` | generate_quiz/views.py:162 | a participation is found exactly when the user has one in the quiz |
| `RoomEngine.QuizSite.StoreQuestions` | generate_quiz/views.py:98-117 | the old questions are deleted, exactly the accepted items are stored in order, and their number is returned; an item that raises stops after the deletion |
| `RoomEngine.QuizSite.UploadNotes` | generate_quiz/views.py:182-244 | no notes, an invalid form, or 255 taken draws leave the store as it was; a generation failure or zero questions rolls the quiz back; a created room has the code the save loop picks, and the new store is exactly `CreatedStore` of the accepted items of the generated reply |
| `RoomEngine.QuizSite.BuildRoom` | generate_quiz/views.py:209-242 | after the save, a failure or zero questions deletes the quiz; otherwise the store is exactly `CreatedStore`: the quiz from the form, exactly the accepted items as its questions, the creator's row only when asked, and nothing else changed |
| `RoomEngine.QuizSite.JoinQuiz` | generate_quiz/views.py:252-275 | an unknown or inactive room is rejected, then an aborted one, then a started one, with no change; otherwise get-or-create under the trimmed name |
| `RoomEngine.QuizSite.LeaveQuiz` | generate_quiz/views.py:154-177 | a stranger changes nothing; the creator sets the abort flag and empties the room; a participant removes only their own row |
| `RoomEngine.QuizSite.StartQuiz` | generate_quiz/views.py:295-314 | only the creator starts; the window is now .. now + max(1, duration) minutes, overwriting any earlier one; the store is untouched |
| `RoomEngine.QuizSite.QuizPage` | generate_quiz/views.py:317-344 | aborted or without a window goes to the lobby; past the deadline the quiz is deactivated and goes to results; otherwise get-or-create and a positive remaining time |
| `RoomEngine.QuizSite.ScoreAnswers` | generate_quiz/views.py:352-355 | the score is the number of questions whose posted label equals the correct option, at most the question count |
| `RoomEngine.QuizSite.SubmitQuiz` | generate_quiz/views.py:346-373 | without a participation nothing changes; otherwise the score and clamped time are recorded and one result is upserted with rank 0 |
| `RoomEngine.QuizSite.QuizResults` | generate_quiz/views.py:375-400 | the store becomes the ranked and closed store; nothing is written exactly when ranks were current; the page is the leaderboard |
| `RoomEngine.QuizSite.QuizResultsData` | generate_quiz/views.py:402-416 | one line per result of the quiz, in rank order, with name, score, time or dash, and whether it is the caller's |
| `RoomEngine.QuizSite.LobbyStatus` | generate_quiz/views.py:130-152 | the participants in join order, marking the creator, with the started and aborted flags as the cache reads them |
| `RoomEngine.QuizSite.RollBack` | generate_quiz/views.py:229-233 | deleting the new quiz restores the store from before it was saved |
| `Text.LeadingCount` | quizzes/views.py:60 | the count is the length of the longest prefix of stripped characters |
| `Text.TrailingCount` | quizzes/views.py:60 | the count is the length of the longest suffix of stripped characters |
| `Text.Trim` | generate_quiz/views.py:102 | stripping never lengthens a string |
| `Text.TrimSpec` | generate_quiz/views.py:102 | stripping leaves the slice between a prefix and a suffix of stripped characters, which neither starts nor ends with a stripped character; it is empty exactly when every character is stripped, and is the string itself when neither end is stripped |
| `Text.TrimBounds` | generate_quiz/views.py:102 | the bounds of the kept slice: everything before and after them is stripped, and the slice is empty only at the end of the string |
| `Text.TrimUnique` | generate_quiz/views.py:102 | two slices that both meet the clauses of `TrimSpec` are equal, so those clauses determine what `strip` returns |
| `Text.Strip` | generate_quiz/views.py:102 | `strip()` with no argument: `Trim` over whitespace |
| `Text.StripUnpadded` | quizzes/views.py:89 | text with no whitespace at either end is left as it is |
| `Text.StartsWith` | generate_quiz/views.py:92 | `startswith`: the text begins with the prefix |
| `Text.RemoveAll` | quizzes/views.py:60 | removing a substring never lengthens the string; what it removes is stated in `Text.RemoveAllAtFirst` |
| `Text.RemoveAllUnchangedIff` | quizzes/views.py:60 | `replace("json", "")` changes the text exactly when "json" occurs in it |
| `Text.RemoveAllShrinks` | quizzes/views.py:60 | when the pattern occurs, the result is strictly shorter |
| `Text.RemoveAllAtFirst` | quizzes/views.py:60 | with the first occurrence of the pattern at `i`, the result is the text before `i` followed by the removal applied to the text after the occurrence: every occurrence the scan meets is dropped, and nothing else |
| `Text.RemoveAllFrom` | quizzes/views.py:60 | the same, for the suffix from any position up to the first occurrence |
| `Text.RemoveAllStepAt` | quizzes/views.py:60 | at an occurrence, the scan drops it and continues after it |
| `Text.RemoveAllStepPast` | quizzes/views.py:60 | where no occurrence starts, the scan keeps the character and continues with the next one |
| `Text.RemoveAllIsSinglePass` | quizzes/views.py:60 | the replacement is one left-to-right pass: "jsjsonon" becomes "json" |
| `Text.LowerChar` | quizzes/views.py:89 | an upper-case ASCII letter becomes the matching lower-case letter (its code plus 32); every other character is kept |
| `Text.Lower` | quizzes/views.py:89 | lowering keeps the length |
| `SoloQuiz.FenceCleanup` | quizzes/views.py:56-60 | an unfenced reply is only trimmed; a fenced one loses its backticks at both ends and every "json", and is trimmed |
| `SoloQuiz.FenceCleanupRemovesPayloadJson` | quizzes/views.py:59-60 | every "json" is removed, including one inside the payload |
| `SoloQuiz.IsCorrect` | quizzes/views.py:89 | a posted answer is correct when it is non-empty and equals the stored one after trimming and lower-casing |
| `SoloQuiz.IsCorrectForStoredAnswer` | quizzes/views.py:88-89 | the stored answer is correct for itself; a missing or empty answer never counts |
| `SoloQuiz.IsCorrectIgnoresCaseAndSpace` | quizzes/views.py:89 | " PARIS " is a correct answer to "paris", and "Lyon" is not |
| `SoloQuiz.Posted` | quizzes/views.py:88 | the posted value for question `idx`, or None when the form has no such field |
| `SoloQuiz.Marks` | quizzes/views.py:87-91 | one mark per question, true exactly when the posted answer matches after trimming and lower-casing |
| `SoloQuiz.CountTrue` | quizzes/views.py:84-91 | the score never exceeds the number of questions counted |
| `SoloQuiz.FullMarksIff` | quizzes/views.py:84-91 | full marks exactly when every answer is correct |
| `SoloQuiz.ResultLine` | quizzes/views.py:93-98 | each line keeps the question, its options and the answer; an empty or missing user answer becomes None |
| `SoloQuiz.Session.constructor` | quizzes/views.py:33 | a session starts with the notes and no questions |
| `SoloQuiz.Session.Generate` | quizzes/views.py:31-74 | without notes it redirects; a cleaned and parsed reply replaces the session's questions; a failure keeps them |
| `SoloQuiz.Session.Submit` | quizzes/views.py:77-104 | without questions it redirects; otherwise the score counts the correct answers, at most the total, with one result line per question in order |

## Left out

- The generator service is left out: its API keys, the model call and the prompt. Its reply is a parameter (`reply`), and None stands for a call that raises.
- `json.loads` is left out. Parsing is a parameter (`parse`), and None stands for malformed JSON. In the room engine, items are modelled by the shapes of their fields (`Intake.Item`), so items that make `_store_questions` raise are modelled too.
- Text extraction from uploads (`fitz`, UTF-8 decoding) is left out. The extracted text is a parameter.
- `_parse_iso` is left out, and so are time zones and ISO formatting. Times are integer seconds, and the cache stores the stamps themselves rather than their ISO strings.
- `str(opts[i])` is left out. Options are strings already.
- `str(r.time_taken)` is left out: `DataRow` shows the time as `Some(seconds)`, or None for the dash.
- Cache expiry is modelled as an expiry time on each entry. A reading is "at time `now`". No scheduler evicts entries.
- `round(duration / 1.7)` is floating point. It is the parameter `estimate`, and only the 5..50 clamp is modelled.
- `random.randint` is left out. The draws are the stream `draw`, and each draw is six decimal digits (`RoomCodes.SixDigitDraws`).
- Concurrent requests are left out. Views run one at a time, so the "one participation per (quiz, user)" invariant holds with no database constraint behind it. The window in which the cache and the store disagree is also left out.
- The `status` branches are left out: `Quiz` has no such field, so they never run.
- Rendering, messages and redirect URLs are left out. They are reduced to the outcome datatypes.
- So are the `quiz_url` and `redirect` fields of the lobby JSON, the AJAX check of `start_quiz`, and the `is_me` attribute set on result objects. `is_me` appears as `ResultRow.isMe`.
- `quiz_dashboard` and `results_pdf` are not part of this model: they render pages and change no state.
- Form validation is reduced to a difficulty in 1..5 and an optional count in 5..100. Title lengths and the other field limits are not modelled.
- Ranking.KeyOf: `timedelta.max` is the `Worst` time key, which is larger than every finite time.
- Sorting.Sort: `list.sort` and `order_by` are modelled as a stable insertion sort on values, not as an in-place sort. For `order_by("rank")` and `order_by("joined_at")` the model proves only what the database promises: an order non-decreasing in the key.
- RoomEngine.RankAndClose: `written` is the number of rows handed to `bulk_update`, which the source does not return.
- RoomEngine.QuizSite.SubmitQuiz: its contract states the score as the number of matching questions; the bounds and the full-marks case are in `RoomEngine.FullScoreIff`.
- Text.Lower: only the length is stated in its contract. Lower-casing is ASCII only, and non-ASCII letters are kept as they are.
- SoloQuiz.Session.Submit: the session's questions are well-formed `SoloQuestion` records, each with a string question, options and a string answer. The exceptions that malformed JSON items raise in `submit_quiz` are not modelled: a `KeyError` for a missing "answer", "question" or "options" key (quizzes/views.py:89, 94-96), an `AttributeError` for a non-string answer when an answer was posted (line 89), and a `TypeError` for an item that is not an object. `parse` only ever yields well-formed records.
- Text.Trim: its own contract states only the length bound; what stripping leaves is stated in `Text.TrimSpec`.
