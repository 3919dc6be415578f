/**
 * What quiz creation does with the generator's reply before anything is stored:
 * the markdown-fence cleanup of the reply text, the check each parsed item goes through
 * in `_store_questions`, and the number of questions asked for.
 */
module Intake {
  import opened Wrappers
  import opened Text
  import opened Models

  // ---------------------------------------------------------------------------
  // The reply text
  // ---------------------------------------------------------------------------

  /**
   * `_safe_json_from_model_response`, up to the JSON parse: the reply (None reads as
   * empty) is trimmed; a fenced reply loses its backticks at both ends and then a
   * leading "json" tag, and only in that case is trimmed again.
   */
  function SafeJsonText(reply: Option<string>): (r: string)
    ensures Contains(reply.GetOr(""), r)
    ensures !StartsWith(Strip(reply.GetOr("")), "```") ==> r == Strip(reply.GetOr(""))
    ensures StartsWith(Strip(reply.GetOr("")), "```") && !StartsWith(Trim(Strip(reply.GetOr("")), Backticks), "json") ==>
      r == Trim(Strip(reply.GetOr("")), Backticks) && (r == [] || (r[0] != '`' && r[|r| - 1] != '`'))
    ensures StartsWith(Strip(reply.GetOr("")), "```") && StartsWith(Trim(Strip(reply.GetOr("")), Backticks), "json") ==>
      r == Strip(Trim(Strip(reply.GetOr("")), Backticks)[4..])
  {
    var raw := Strip(reply.GetOr(""));
    TrimSpec(reply.GetOr(""), Whitespace);
    if StartsWith(raw, "```") then
      var unfenced := Trim(raw, Backticks);
      TrimSpec(raw, Backticks);
      ContainsTransitive(reply.GetOr(""), raw, unfenced);
      if StartsWith(unfenced, "json") then
        SuffixContained(unfenced, 4);
        ContainsTransitive(reply.GetOr(""), unfenced, unfenced[4..]);
        TrimSpec(unfenced[4..], Whitespace);
        ContainsTransitive(reply.GetOr(""), unfenced[4..], Strip(unfenced[4..]));
        Strip(unfenced[4..])
      else unfenced
    else raw
  }

  /** A fenced reply tagged "json" comes out as the bare payload. */
  lemma SafeJsonTextDropsFence()
    ensures SafeJsonText(Some("```json\n[]\n```")) == "[]"
  {
    var raw := "```json\n[]\n```";
    assert Some(raw).GetOr("") == raw;
    FenceExampleStrip();
    assert StartsWith(raw, "```") by { assert raw[..3] == "```"; }
    FenceExampleUnfenced();
    assert StartsWith("json\n[]\n", "json") by { assert "json\n[]\n"[..4] == "json"; }
    assert "json\n[]\n"[4..] == "\n[]\n";
    FenceExamplePayload();
  }

  lemma FenceExampleStrip()
    ensures Strip("```json\n[]\n```") == "```json\n[]\n```"
  {
    var raw := "```json\n[]\n```";
    assert !IsSpace(raw[0]) && !IsSpace(raw[|raw| - 1]);
  }

  lemma FenceExampleUnfenced()
    ensures Trim("```json\n[]\n```", Backticks) == "json\n[]\n"
  {
    var raw := "```json\n[]\n```";
    FenceExampleLeading();
    FenceExampleTrailing();
    assert raw[3..11] == "json\n[]\n";
  }

  lemma FenceExampleLeading()
    ensures LeadingCount("```json\n[]\n```", Backticks) == 3
  {
    var raw := "```json\n[]\n```";
    assert raw[0] == '`' && raw[1] == '`' && raw[2] == '`' && raw[3] == 'j';
    LeadingCountIs(raw, Backticks, 3);
  }

  lemma FenceExampleTrailing()
    ensures TrailingCount("```json\n[]\n```", Backticks) == 3
  {
    var raw := "```json\n[]\n```";
    assert raw[13] == '`' && raw[12] == '`' && raw[11] == '`' && raw[10] == '\n';
    TrailingCountIs(raw, Backticks, 3);
  }

  lemma FenceExamplePayload()
    ensures Strip("\n[]\n") == "[]"
  {
    var p := "\n[]\n";
    assert p[0] == '\n' && p[1] == '[' && p[2] == ']' && p[3] == '\n';
    LeadingCountIs(p, Whitespace, 1);
    TrailingCountIs(p, Whitespace, 1);
    assert p[1..3] == "[]";
  }

  // ---------------------------------------------------------------------------
  // The parsed items
  // ---------------------------------------------------------------------------

  /** The `"question"` member of an item. */
  datatype QuestionField = QMissing | QString(s: string) | QOther

  /**
   * The `"options"` member: a list (each element as `str()` renders it), a string,
   * an object with `size` members, or a number, boolean or null.
   */
  datatype OptionsField = OMissing | OList(xs: seq<string>) | OString(s: string) | OObject(size: nat) | OScalar

  /** The `"answer_index"` member: an integer, a boolean (an `int` to Python) or anything else. */
  datatype AnswerField = AMissing | AInt(i: int) | ABool(b: bool) | AOther

  /** One element of the parsed reply: a JSON object, or any other JSON value. */
  datatype Item = NotAnObject | Obj(question: QuestionField, options: OptionsField, answer: AnswerField)

  /** What `_store_questions` does with one item. */
  datatype Verdict = Raises | Skip | Accept(draft: Draft)

  /** `isinstance(ans_idx, int) and 0 <= ans_idx <= 3`, yielding the index. */
  function AnswerIndex(a: AnswerField): (idx: Option<int>)
    ensures idx.Some? ==> 0 <= idx.value <= 3
    ensures a.AInt? ==> (idx.Some? <==> 0 <= a.i <= 3)
    ensures a.AInt? && 0 <= a.i <= 3 ==> idx == Some(a.i)
    ensures a.ABool? ==> idx == Some(if a.b then 1 else 0)
    ensures a.AMissing? || a.AOther? ==> idx == None
  {
    match a
    case AInt(i) => if 0 <= i <= 3 then Some(i) else None
    case ABool(b) => Some(if b then 1 else 0)
    case _ => None
  }

  /** Python's `len(opts)` for a member that has a length (a missing member reads as `[]`). */
  function OptionsLength(o: OptionsField): nat {
    match o
    case OMissing => 0
    case OList(xs) => |xs|
    case OString(s) => |s|
    case OObject(n) => n
    case OScalar => 0
  }

  /** The four rendered options of an options member of length four. */
  function FourOptions(o: OptionsField): seq<string>
    requires o.OList? ==> |o.xs| == 4
    requires o.OString? ==> |o.s| == 4
  {
    match o
    case OList(xs) => xs
    case OString(s) => [[s[0]], [s[1]], [s[2]], [s[3]]]
    case _ => ["", "", "", ""]
  }

  /**
   * One pass of the `_store_questions` loop body. A non-object item, or a question
   * member that is not a string, raises. A blank question is skipped before the options
   * are looked at; a scalar options member raises on `len`; an options member whose
   * length is not four, or an answer that is not an index 0..3, is skipped; an object of
   * four members with a valid answer raises on `opts[0]`.
   */
  function Inspect(item: Item): Verdict {
    match item
    case NotAnObject => Raises
    case Obj(question, options, answer) =>
      if question.QOther? then Raises
      else
        var text := Strip(if question.QString? then question.s else "");
        if text == [] then Skip
        else if options.OScalar? then Raises
        else
          var size := OptionsLength(options);
          if size != 4 || AnswerIndex(answer).None? then Skip
          else if options.OObject? then Raises
          else
            var opts := FourOptions(options);
            var correct := OptionLabels[AnswerIndex(answer).value];
            Accept(Draft(text, opts[0], opts[1], opts[2], opts[3], correct))
  }

  /**
   * The verdict on one item, case by case. An item is accepted exactly when it is an
   * object with a non-blank string question, an options list (or string) of length four
   * and an answer index in 0..3; its draft then holds the trimmed question, the four
   * options in order and that index's letter. It raises exactly when it is not an object,
   * its question is not a string, or its question is non-blank and its options are a
   * scalar, or an object of four members with a valid index. Every other item is skipped.
   */
  lemma InspectVerdicts(item: Item)
    ensures var v := Inspect(item);
      && (v.Accept? <==>
            && item.Obj? && item.question.QString? && Strip(item.question.s) != []
            && (item.options.OList? || item.options.OString?) && OptionsLength(item.options) == 4
            && AnswerIndex(item.answer).Some?)
      && (v.Accept? ==>
            && v.draft.text == Strip(item.question.s)
            && [v.draft.optionA, v.draft.optionB, v.draft.optionC, v.draft.optionD] == FourOptions(item.options)
            && v.draft.correctOption == OptionLabels[AnswerIndex(item.answer).value]
            && IsOptionLabel(v.draft.correctOption))
      && (v == Raises <==>
            || item.NotAnObject?
            || (item.Obj? && item.question.QOther?)
            || (item.Obj? && item.question.QString? && Strip(item.question.s) != [] &&
                (item.options.OScalar? ||
                 (item.options.OObject? && item.options.size == 4 && AnswerIndex(item.answer).Some?))))
  {
  }

  /** An object with a non-blank question, four listed options and a valid index is stored as such. */
  lemma WellFormedItemAccepted(q: string, xs: seq<string>, a: AnswerField)
    requires Strip(q) != [] && |xs| == 4 && AnswerIndex(a).Some?
    ensures Inspect(Obj(QString(q), OList(xs), a)) ==
      Accept(Draft(Strip(q), xs[0], xs[1], xs[2], xs[3], OptionLabels[AnswerIndex(a).value]))
  {
  }

  /** Some item of the reply makes `_store_questions` raise. */
  predicate AnyRaises(items: seq<Item>) {
    exists i :: 0 <= i < |items| && Inspect(items[i]).Raises?
  }

  /** Checking one more item that does not raise keeps the prefix free of raising items. */
  lemma NoRaiseExtends(items: seq<Item>, i: nat)
    requires i < |items| && !AnyRaises(items[..i]) && !Inspect(items[i]).Raises?
    ensures !AnyRaises(items[..i + 1])
  {
    var pre, ext := items[..i], items[..i + 1];
    forall j | 0 <= j < i + 1
      ensures !Inspect(ext[j]).Raises?
    {
      if j < i {
        assert ext[j] == pre[j];
      }
    }
  }

  /** The drafts of the items that `inspect` accepts, in the order of the items. */
  function Collect(items: seq<Item>, inspect: Item -> Verdict): seq<Draft> {
    if items == [] then []
    else
      var v := inspect(items[|items| - 1]);
      Collect(items[..|items| - 1], inspect) + (if v.Accept? then [v.draft] else [])
  }

  /** Collecting is compositional. */
  lemma {:induction false} CollectAppend(a: seq<Item>, b: seq<Item>, inspect: Item -> Verdict)
    ensures Collect(a + b, inspect) == Collect(a, inspect) + Collect(b, inspect)
    decreases |b|
  {
    if b == [] {
      assert a + b == a;
    } else {
      var b' := b[..|b| - 1];
      assert (a + b)[..|a + b| - 1] == a + b';
      assert (a + b)[|a + b| - 1] == b[|b| - 1];
      CollectAppend(a, b', inspect);
    }
  }

  /** Nothing is collected exactly when nothing is accepted. */
  lemma {:induction false} CollectEmptyIff(items: seq<Item>, inspect: Item -> Verdict)
    ensures Collect(items, inspect) == [] <==> forall i :: 0 <= i < |items| ==> !inspect(items[i]).Accept?
    decreases |items|
  {
    if items != [] {
      var n := |items| - 1;
      var init := items[..n];
      CollectEmptyIff(init, inspect);
      assert forall i :: 0 <= i < n ==> init[i] == items[i];
    }
  }

  /** Every collected draft was accepted by `inspect`. */
  lemma {:induction false} CollectedWereAccepted(items: seq<Item>, inspect: Item -> Verdict, j: nat)
    requires j < |Collect(items, inspect)|
    ensures exists x :: inspect(x).Accept? && inspect(x).draft == Collect(items, inspect)[j]
    decreases |items|
  {
    var n := |items| - 1;
    var v := inspect(items[n]);
    if j < |Collect(items[..n], inspect)| {
      CollectedWereAccepted(items[..n], inspect, j);
    } else {
      assert v.Accept? && v.draft == Collect(items, inspect)[j];
    }
  }

  /**
   * The drafts `_store_questions` collects, in the order of the items: each has a
   * non-blank question and a valid answer letter.
   */
  function Accepted(items: seq<Item>): (drafts: seq<Draft>)
    ensures |drafts| <= |items|
    ensures forall j :: 0 <= j < |drafts| ==> drafts[j].text != [] && IsOptionLabel(drafts[j].correctOption)
  {
    CollectShorter(items, Inspect);
    forall j | 0 <= j < |Collect(items, Inspect)|
      ensures Collect(items, Inspect)[j].text != [] && IsOptionLabel(Collect(items, Inspect)[j].correctOption)
    {
      CollectedWereAccepted(items, Inspect, j);
      var x :| Inspect(x).Accept? && Inspect(x).draft == Collect(items, Inspect)[j];
      InspectVerdicts(x);
    }
    Collect(items, Inspect)
  }

  /** At most one draft per item. */
  lemma {:induction false} CollectShorter(items: seq<Item>, inspect: Item -> Verdict)
    ensures |Collect(items, inspect)| <= |items|
    decreases |items|
  {
    if items != [] {
      CollectShorter(items[..|items| - 1], inspect);
    }
  }

  /** Collecting is compositional, so the drafts keep the relative order of their items. */
  lemma AcceptedAppend(a: seq<Item>, b: seq<Item>)
    ensures Accepted(a + b) == Accepted(a) + Accepted(b)
  {
    CollectAppend(a, b, Inspect);
  }

  /** No draft is collected exactly when no item is accepted. */
  lemma AcceptedEmptyIff(items: seq<Item>)
    ensures Accepted(items) == [] <==> forall i :: 0 <= i < |items| ==> !Inspect(items[i]).Accept?
  {
    CollectEmptyIff(items, Inspect);
  }

  /** A JSON `true` answer index is taken as 1, so it selects option "B". */
  lemma BooleanAnswerSelectsB(text: string, opts: seq<string>)
    requires Strip(text) != [] && |opts| == 4
    ensures Inspect(Obj(QString(text), OList(opts), ABool(true))).Accept?
    ensures Inspect(Obj(QString(text), OList(opts), ABool(true))).draft.correctOption == "B"
  {
  }

  // ---------------------------------------------------------------------------
  // The question count
  // ---------------------------------------------------------------------------

  /**
   * `num_questions` in `upload_notes`: the requested count when it lies in 5..100,
   * otherwise the duration-based `estimate` clamped to 5..50. A missing request reads as 0.
   */
  function QuestionCount(requested: Option<int>, estimate: int): (n: int)
    ensures 5 <= n <= 100
    ensures requested.Some? && 5 <= requested.value <= 100 ==> n == requested.value
    ensures !(requested.Some? && 5 <= requested.value <= 100) ==> 5 <= n <= 50
    ensures !(requested.Some? && 5 <= requested.value <= 100) && 5 <= estimate <= 50 ==> n == estimate
    ensures !(requested.Some? && 5 <= requested.value <= 100) && estimate > 50 ==> n == 50
    ensures !(requested.Some? && 5 <= requested.value <= 100) && estimate < 5 ==> n == 5
  {
    var r := requested.GetOr(0);
    if 5 <= r <= 100 then r else if estimate > 50 then 50 else if estimate < 5 then 5 else estimate
  }
}
