/**
 * The single-player quiz: a quiz generated from the notes held in the session, and the
 * scoring of the answers posted for it. Answers are compared as free text, trimmed and
 * lower-cased.
 */
module SoloQuiz {
  import opened Wrappers
  import opened Text

  /** One generated question as the session holds it. */
  datatype SoloQuestion = SoloQuestion(question: string, options: seq<string>, answer: string)

  /** One line of the result page. */
  datatype SoloResult = SoloResult(question: string, options: seq<string>, correctAnswer: string, userAnswer: Option<string>)

  datatype GeneratePage = RedirectToUpload | Shown(questions: seq<SoloQuestion>) | GenerationFailed

  datatype SubmitPage = RedirectToGenerate | Scored(score: nat, total: nat, results: seq<SoloResult>)

  /**
   * The markdown-fence cleanup of `generate_quiz`: the reply is trimmed; a fenced reply
   * loses its backticks at both ends, then every "json" met in one left-to-right scan,
   * and is trimmed again.
   */
  function FenceCleanup(reply: string): (r: string)
    ensures |r| <= |reply|
    ensures !StartsWith(Strip(reply), "```") ==> r == Strip(reply)
    ensures StartsWith(Strip(reply), "```") ==> r == Strip(RemoveAll(Trim(Strip(reply), Backticks), "json"))
  {
    var raw := Strip(reply);
    if StartsWith(raw, "```") then
      Strip(RemoveAll(Trim(raw, Backticks), "json"))
    else raw
  }

  /**
   * The scan removes "json" from the payload too, not only from the fence tag: a fenced
   * list holding the word loses it.
   */
  lemma FenceCleanupRemovesPayloadJson()
    ensures FenceCleanup("```[json]```") == "[]"
  {
    var reply := "```[json]```";
    FenceExampleStrip();
    assert StartsWith(reply, "```") by { assert reply[..3] == "```"; }
    assert FenceCleanup(reply) == Strip(RemoveAll(Trim(reply, Backticks), "json"));
    FenceExampleTrim();
    RemoveJsonExample();
    BracketsStrip();
  }

  lemma FenceExampleStrip()
    ensures Strip("```[json]```") == "```[json]```"
  {
    var reply := "```[json]```";
    assert !IsSpace(reply[0]) && !IsSpace(reply[|reply| - 1]);
  }

  lemma BracketsStrip()
    ensures Strip("[]") == "[]"
  {
    assert !IsSpace("[]"[0]) && !IsSpace("[]"[1]);
  }

  lemma FenceExampleTrim()
    ensures Trim("```[json]```", Backticks) == "[json]"
  {
    var reply := "```[json]```";
    assert reply[0] == '`' && reply[1] == '`' && reply[2] == '`' && reply[3] == '[';
    LeadingCountIs(reply, Backticks, 3);
    assert reply[11] == '`' && reply[10] == '`' && reply[9] == '`' && reply[8] == ']';
    TrailingCountIs(reply, Backticks, 3);
    assert reply[3..9] == "[json]";
  }

  lemma RemoveJsonExample()
    ensures RemoveAll("[json]", "json") == "[]"
  {
    assert "[json]"[..4] == "[jso";
    assert "[json]"[1..] == "json]";
    assert "json]"[..4] == "json";
    assert "json]"[4..] == "]";
  }

  /**
   * `user_answer and user_answer.strip().lower() == q["answer"].strip().lower()`:
   * a missing or empty answer never counts.
   */
  predicate IsCorrect(userAnswer: Option<string>, answer: string) {
    userAnswer.Some? && userAnswer.value != [] && Lower(Strip(userAnswer.value)) == Lower(Strip(answer))
  }

  /** The stored answer is correct for itself, but a missing or empty answer never is. */
  lemma IsCorrectForStoredAnswer(answer: string)
    requires answer != []
    ensures IsCorrect(Some(answer), answer)
    ensures !IsCorrect(None, answer) && !IsCorrect(Some(""), answer)
  {
  }

  /** Case and surrounding spaces do not matter: " PARIS " answers "paris", "Lyon" does not. */
  lemma IsCorrectIgnoresCaseAndSpace()
    ensures IsCorrect(Some(" PARIS "), "paris")
    ensures !IsCorrect(Some("Lyon"), "paris")
  {
    StripPaddedExample();
    StripUnpadded("paris");
    StripUnpadded("Lyon");
    LowerExample();
  }

  lemma LowerExample()
    ensures Lower("PARIS") == "paris" && Lower("paris") == "paris" && Lower("Lyon")[0] == 'l'
  {
    assert Lower("PARIS") == "paris";
    assert Lower("paris") == "paris";
  }

  lemma StripPaddedExample()
    ensures Strip(" PARIS ") == "PARIS"
  {
    var posted := " PARIS ";
    assert IsSpace(posted[0]) && !IsSpace(posted[1]);
    LeadingCountIs(posted, Whitespace, 1);
    assert IsSpace(posted[6]) && !IsSpace(posted[5]);
    TrailingCountIs(posted, Whitespace, 1);
    assert posted[1..6] == "PARIS";
  }

  /** The answer posted for question `idx`: `request.POST.get(f"q{idx}")`. */
  function Posted(posted: map<nat, string>, idx: nat): Option<string> {
    if idx in posted then Some(posted[idx]) else None
  }

  /** Whether each question is answered correctly, in question order. */
  function Marks(questions: seq<SoloQuestion>, posted: map<nat, string>): (marks: seq<bool>)
    ensures |marks| == |questions|
    ensures forall i :: 0 <= i < |questions| ==> (marks[i] <==> IsCorrect(Posted(posted, i), questions[i].answer))
  {
    seq(|questions|, i requires 0 <= i < |questions| => IsCorrect(Posted(posted, i), questions[i].answer))
  }

  /** How many of the first `n` marks are set. */
  function CountTrue(marks: seq<bool>, n: nat): (c: nat)
    requires n <= |marks|
    ensures c <= n
  {
    if n == 0 then 0 else CountTrue(marks, n - 1) + (if marks[n - 1] then 1 else 0)
  }

  /** Full marks exactly when every question is answered correctly. */
  lemma {:induction false} FullMarksIff(marks: seq<bool>, n: nat)
    requires n <= |marks|
    ensures CountTrue(marks, n) == n <==> forall i :: 0 <= i < n ==> marks[i]
  {
    if n > 0 {
      FullMarksIff(marks, n - 1);
    }
  }

  /** The result line of question `idx`; an empty answer is shown as no answer. */
  function ResultLine(q: SoloQuestion, posted: map<nat, string>, idx: nat): (line: SoloResult)
    ensures line.question == q.question && line.options == q.options && line.correctAnswer == q.answer
    ensures line.userAnswer.Some? <==> idx in posted && posted[idx] != []
    ensures line.userAnswer.Some? ==> line.userAnswer.value == posted[idx]
  {
    var ua := Posted(posted, idx);
    SoloResult(q.question, q.options, q.answer, if ua.Some? && ua.value != [] then ua else None)
  }

  /** The session of one browser: the notes and the questions generated from them. */
  class Session {
    var generatedNotes: string
    var quizQuestions: seq<SoloQuestion>

    constructor(notes: string)
      ensures generatedNotes == notes && quizQuestions == []
    {
      generatedNotes := notes;
      quizQuestions := [];
    }

    /**
     * `generate_quiz`: without notes it redirects to the upload page. Otherwise the
     * generator's reply (None when the call raises) is cleaned and parsed (None when the
     * JSON parse raises); on success the questions replace those in the session.
     */
    method Generate(reply: Option<string>, parse: string -> Option<seq<SoloQuestion>>) returns (page: GeneratePage)
      modifies this
      ensures generatedNotes == old(generatedNotes)
      ensures old(generatedNotes) == [] ==> page == RedirectToUpload && quizQuestions == old(quizQuestions)
      ensures old(generatedNotes) != [] && reply.Some? && parse(FenceCleanup(reply.value)).Some? ==>
        page == Shown(parse(FenceCleanup(reply.value)).value) && quizQuestions == page.questions
      ensures old(generatedNotes) != [] && (reply.None? || parse(FenceCleanup(reply.value)).None?) ==>
        page == GenerationFailed && quizQuestions == old(quizQuestions)
    {
      if generatedNotes == [] {
        return RedirectToUpload;
      }
      if reply.None? {
        return GenerationFailed;
      }
      var parsed := parse(FenceCleanup(reply.value));
      if parsed.None? {
        return GenerationFailed;
      }
      quizQuestions := parsed.value;
      return Shown(parsed.value);
    }

    /**
     * `submit_quiz`: with no questions in the session it redirects. Otherwise it scores
     * each question in order, counting the correct answers, and lists one result line per
     * question.
     */
    method Submit(posted: map<nat, string>) returns (page: SubmitPage)
      ensures quizQuestions == [] <==> page == RedirectToGenerate
      ensures page.Scored? ==>
        && page.total == |quizQuestions|
        && page.score == CountTrue(Marks(quizQuestions, posted), |quizQuestions|)
        && page.score <= page.total
        && |page.results| == |quizQuestions|
        && forall i :: 0 <= i < |quizQuestions| ==> page.results[i] == ResultLine(quizQuestions[i], posted, i)
    {
      var questions := quizQuestions;
      if questions == [] {
        return RedirectToGenerate;
      }
      var score := 0;
      var results: seq<SoloResult> := [];
      ghost var marks := Marks(questions, posted);
      var idx := 0;
      while idx < |questions|
        invariant 0 <= idx <= |questions|
        invariant score == CountTrue(marks, idx)
        invariant |results| == idx
        invariant forall i :: 0 <= i < idx ==> results[i] == ResultLine(questions[i], posted, i)
      {
        var q := questions[idx];
        var userAnswer := Posted(posted, idx);
        var correct := IsCorrect(userAnswer, q.answer);
        assert correct == marks[idx];
        if correct {
          score := score + 1;
        }
        results := results + [ResultLine(q, posted, idx)];
        idx := idx + 1;
      }
      return Scored(score, |questions|, results);
    }
  }
}
