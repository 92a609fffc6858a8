/**
 * The student's answer form: the score badge, the order the questions are
 * shown in, and the per-question state the submit handler updates. Each
 * handler runs as one step; the server's reply is an input (None when the
 * request itself fails).
 */
module StudentAnswerForm {
  import opened Wrappers
  import opened Text
  import opened Store
  import opened StudentSchema
  import opened Badges
  import SubmitRoute
  import SubjectsRoute
  import SubjectSchema

  const BlankAnswerError: string := "Veuillez ecrire une reponse"
  const SubmitFailedError: string := "Une erreur est survenue. Veuillez reessayer."

  // ----- score badge -----

  /** The student's badge: green above 80, orange above 50, red otherwise; the label is the score and `%`. */
  function ScoreBadge(score: int): (b: Badge)
    ensures b.colour == Green <==> score > 80
    ensures b.colour == Orange <==> 50 < score <= 80
    ensures b.colour == Red <==> score <= 50
    ensures |b.caption| >= 2 && b.caption[|b.caption| - 1] == '%'
    ensures IntOfString(b.caption[..|b.caption| - 1]) == Some(score)
    ensures CanonicalInt(b.caption[..|b.caption| - 1])
  {
    var caption := IntToString(score) + "%";
    assert |IntToString(score)| >= 1;
    assert caption[..|caption| - 1] == IntToString(score);
    IntToStringRoundTrip(score);
    if score > 80 then Badge(Green, caption)
    else if score > 50 then Badge(Orange, caption)
    else Badge(Red, caption)
  }

  /** A higher score never gets a lower band. */
  lemma ScoreBadgeIsMonotone(s1: int, s2: int)
    requires s1 <= s2
    ensures Rank(ScoreBadge(s1).colour) <= Rank(ScoreBadge(s2).colour)
  {
  }

  /**
   * The badge and the stored validity use different cutoffs: a score of 50
   * is stored as a valid answer and shown in red.
   */
  lemma ValidAnswerWithRedBadge()
    ensures SubmitRoute.IsPassingScore(50) && ScoreBadge(50).colour == Red
  {
  }

  // ----- display order -----

  predicate SortedByDisplayOrder(qs: seq<QuestionRow>) {
    forall i, j :: 0 <= i < j < |qs| ==> qs[i].displayOrder <= qs[j].displayOrder
  }

  /** Puts `q` before the first question of `sorted` whose display order is not smaller. */
  function InsertByDisplayOrder(q: QuestionRow, sorted: seq<QuestionRow>): (r: seq<QuestionRow>)
    requires SortedByDisplayOrder(sorted)
    ensures SortedByDisplayOrder(r)
    ensures multiset(r) == multiset(sorted) + multiset{q}
    ensures sorted != [] && q.displayOrder <= sorted[0].displayOrder ==> r == [q] + sorted
  {
    if sorted == [] || q.displayOrder <= sorted[0].displayOrder then [q] + sorted
    else
      var head := sorted[0];
      var rest := InsertByDisplayOrder(q, sorted[1..]);
      assert sorted == [head] + sorted[1..];
      RestAtLeastHead(q, sorted, rest);
      [head] + rest
  }

  /** Everything inserted after the head of a sorted sequence sorts after it. */
  lemma RestAtLeastHead(q: QuestionRow, sorted: seq<QuestionRow>, rest: seq<QuestionRow>)
    requires SortedByDisplayOrder(sorted) && sorted != [] && q.displayOrder > sorted[0].displayOrder
    requires multiset(rest) == multiset(sorted[1..]) + multiset{q}
    ensures forall k :: 0 <= k < |rest| ==> rest[k].displayOrder >= sorted[0].displayOrder
  {
    forall k | 0 <= k < |rest|
      ensures rest[k].displayOrder >= sorted[0].displayOrder
    {
      assert rest[k] in multiset(rest);
      if rest[k] != q {
        assert rest[k] in multiset(sorted[1..]);
        var j :| 0 <= j < |sorted[1..]| && sorted[1..][j] == rest[k];
        assert sorted[j + 1] == rest[k];
      }
    }
  }

  /** `[...questions].sort((a, b) => a.display_order - b.display_order)`: a sorted copy. */
  function SortByDisplayOrder(qs: seq<QuestionRow>): (r: seq<QuestionRow>)
    ensures SortedByDisplayOrder(r)
    ensures multiset(r) == multiset(qs)
  {
    if qs == [] then []
    else
      var r := InsertByDisplayOrder(qs[0], SortByDisplayOrder(qs[1..]));
      assert qs == [qs[0]] + qs[1..];
      r
  }

  /** Questions already in display order are shown as they are. */
  lemma {:induction false} SortKeepsSortedOrder(qs: seq<QuestionRow>)
    requires SortedByDisplayOrder(qs)
    ensures SortByDisplayOrder(qs) == qs
  {
    if qs != [] {
      SortKeepsSortedOrder(qs[1..]);
      assert qs == [qs[0]] + qs[1..];
    }
  }

  /** The questions of a new subject are shown in the order the teacher entered them. */
  lemma CreatedQuestionsShowInFormOrder(subjectId: Id, inputs: seq<SubjectSchema.QuestionInput>, ids: seq<Id>)
    requires |ids| == |inputs|
    ensures SortByDisplayOrder(SubjectsRoute.NumberQuestions(subjectId, inputs, ids))
         == SubjectsRoute.NumberQuestions(subjectId, inputs, ids)
  {
    SubjectsRoute.NumberingPreservesOrder(subjectId, inputs, ids);
    SortKeepsSortedOrder(SubjectsRoute.NumberQuestions(subjectId, inputs, ids));
  }

  // ----- celebration -----

  /** The feedback kept for a question: what the server answered. */
  datatype Feedback = Feedback(questionId: string, score: Option<int>, feedback: string)

  datatype Celebration = NoCelebration | SmallConfetti | MassiveConfetti

  /** More than one question, and every question has a stored score of 100. */
  predicate AllPerfect(questions: seq<QuestionRow>, feedbacks: map<Id, Feedback>) {
    && |questions| > 1
    && forall k :: 0 <= k < |questions| ==>
         questions[k].id in feedbacks && feedbacks[questions[k].id].score == Some(100)
  }

  /** A perfect score celebrates; massively when every question is now perfect. */
  function CelebrationFor(score: Option<int>, questions: seq<QuestionRow>, feedbacks: map<Id, Feedback>): (c: Celebration)
    ensures c == MassiveConfetti <==> score == Some(100) && AllPerfect(questions, feedbacks)
    ensures c == SmallConfetti <==> score == Some(100) && !AllPerfect(questions, feedbacks)
    ensures c == NoCelebration <==> score != Some(100)
  {
    if score != Some(100) then NoCelebration
    else if AllPerfect(questions, feedbacks) then MassiveConfetti
    else SmallConfetti
  }

  /** With a single question a perfect score is only ever a small celebration. */
  lemma SingleQuestionIsNeverMassive(score: Option<int>, questions: seq<QuestionRow>, feedbacks: map<Id, Feedback>)
    requires |questions| <= 1
    ensures CelebrationFor(score, questions, feedbacks) != MassiveConfetti
  {
  }

  /**
   * The last question to reach 100, when all the others already have, sets
   * off the massive celebration.
   */
  lemma LastPerfectScoreIsMassive(questions: seq<QuestionRow>, feedbacks: map<Id, Feedback>, qid: Id, fb: Feedback)
    requires |questions| > 1 && fb.score == Some(100)
    requires forall k :: 0 <= k < |questions| && questions[k].id != qid ==>
      questions[k].id in feedbacks && feedbacks[questions[k].id].score == Some(100)
    ensures CelebrationFor(fb.score, questions, feedbacks[qid := fb]) == MassiveConfetti
  {
  }

  // ----- the form's state -----

  /** The request carries a submission id only when the page knows a non-empty one. */
  predicate Truthy(id: Option<Id>) {
    id.Some? && id.value != ""
  }

  /** `answers[questionId]?.trim()` is empty or missing. */
  predicate IsBlank(answers: map<Id, string>, qid: Id) {
    qid !in answers || Trim(answers[qid]) == []
  }

  class AnswerForm {
    const subjectId: Id
    const studentName: string
    const questions: seq<QuestionRow>
    var answers: map<Id, string>
    var loadingQuestion: Option<Id>
    var feedbacks: map<Id, Feedback>
    var submissionId: Option<Id>
    var editing: map<Id, bool>
    var errors: map<Id, string>

    constructor (subjectId: Id, studentName: string, questions: seq<QuestionRow>)
      ensures this.subjectId == subjectId && this.studentName == studentName && this.questions == questions
      ensures answers == map[] && loadingQuestion == None && feedbacks == map[]
      ensures submissionId == None && editing == map[] && errors == map[]
    {
      this.subjectId := subjectId;
      this.studentName := studentName;
      this.questions := questions;
      answers, loadingQuestion, feedbacks := map[], None, map[];
      submissionId, editing, errors := None, map[], map[];
    }

    /** The questions in the order they are shown. */
    function Shown(): seq<QuestionRow> {
      SortByDisplayOrder(questions)
    }

    /** The answer box of a question is shown when it has no feedback yet or is being edited. */
    predicate ShowsForm(qid: Id)
      reads this
    {
      qid !in feedbacks || (qid in editing && editing[qid])
    }

    /** Typing into a question's box replaces that question's answer only. */
    method UpdateAnswer(qid: Id, value: string)
      modifies this
      ensures answers == old(answers)[qid := value]
      ensures loadingQuestion == old(loadingQuestion) && feedbacks == old(feedbacks)
      ensures submissionId == old(submissionId) && editing == old(editing) && errors == old(errors)
    {
      answers := answers[qid := value];
    }

    /** "Modifier ma reponse": reopens the box of a question that has feedback. */
    method StartEditing(qid: Id)
      modifies this
      ensures editing == old(editing)[qid := true]
      ensures ShowsForm(qid)
      ensures answers == old(answers) && loadingQuestion == old(loadingQuestion) && feedbacks == old(feedbacks)
      ensures submissionId == old(submissionId) && errors == old(errors)
    {
      editing := editing[qid := true];
    }

    /** "Annuler": closes the box again, back to the feedback when there is one. */
    method CancelEditing(qid: Id)
      modifies this
      ensures editing == old(editing) - {qid}
      ensures qid in feedbacks ==> !ShowsForm(qid)
      ensures answers == old(answers) && loadingQuestion == old(loadingQuestion) && feedbacks == old(feedbacks)
      ensures submissionId == old(submissionId) && errors == old(errors)
    {
      editing := editing - {qid};
    }

    /**
     * Submitting one question. A blank answer only sets that question's
     * error. Otherwise the trimmed answer is sent with the known submission
     * id; a success stores the reply under that question, closes its editing,
     * and keeps the first submission id ever received; any failure sets that
     * question's error. Loading is cleared whenever a request was made.
     */
    method HandleSubmitAnswer(qid: Id, reply: Option<SubmitRoute.SubmitResponse>)
      returns (sent: Option<SingleAnswer>, celebration: Celebration)
      modifies this
      ensures answers == old(answers)
      ensures IsBlank(old(answers), qid) ==>
        && sent == None && celebration == NoCelebration
        && errors == old(errors)[qid := BlankAnswerError]
        && loadingQuestion == old(loadingQuestion) && feedbacks == old(feedbacks)
        && submissionId == old(submissionId) && editing == old(editing)
      ensures !IsBlank(old(answers), qid) ==>
        && sent == Some(SingleAnswer(subjectId, studentName, old(submissionId), qid, Trim(old(answers)[qid])))
        && loadingQuestion == None
      ensures !IsBlank(old(answers), qid) && (reply.None? || reply.value.SubmitError?) ==>
        && celebration == NoCelebration
        && errors == old(errors)[qid := SubmitFailedError]
        && feedbacks == old(feedbacks) && submissionId == old(submissionId) && editing == old(editing)
      ensures !IsBlank(old(answers), qid) && reply.Some? && reply.value.SubmitOk? ==>
        var r := reply.value;
        && errors == old(errors) - {qid}
        && feedbacks == old(feedbacks)[qid := Feedback(r.questionId, r.score, r.feedback)]
        && editing == old(editing) - {qid}
        && submissionId == (if Truthy(old(submissionId)) then old(submissionId) else Some(r.submissionId))
        && celebration == CelebrationFor(r.score, questions, feedbacks)
        && !ShowsForm(qid)
    {
      sent := None;
      celebration := NoCelebration;
      if IsBlank(answers, qid) {
        errors := errors[qid := BlankAnswerError];
        return;
      }
      var answer := Trim(answers[qid]);
      errors := errors - {qid};
      loadingQuestion := Some(qid);
      sent := Some(SingleAnswer(subjectId, studentName, submissionId, qid, answer));
      if reply.Some? && reply.value.SubmitOk? {
        var r := reply.value;
        if !Truthy(submissionId) {
          submissionId := Some(r.submissionId);
        }
        var nextFeedbacks := feedbacks[qid := Feedback(r.questionId, r.score, r.feedback)];
        feedbacks := nextFeedbacks;
        editing := editing - {qid};
        celebration := CelebrationFor(r.score, questions, nextFeedbacks);
      } else {
        errors := errors[qid := SubmitFailedError];
      }
      loadingQuestion := None;
    }
  }

  /** A submission id, once known, is never replaced by a later reply. */
  method KnownSubmissionIdIsKept(form: AnswerForm, qid: Id, reply: Option<SubmitRoute.SubmitResponse>)
    requires Truthy(form.submissionId)
    modifies form
    ensures form.submissionId == old(form.submissionId)
  {
    var sent, celebration := form.HandleSubmitAnswer(qid, reply);
  }
}
