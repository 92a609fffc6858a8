/**
 * `POST /api/submit`: validate the body, find the subject and the question,
 * reuse or open a submission, grade the answer, and append one answer row.
 * The outcome of `analyzeAnswer` and the outcome of each failing write are inputs.
 */
module SubmitRoute {
  import opened Wrappers
  import opened Store
  import opened StudentSchema
  import Gemini

  const UnavailableMessage: string := "L'analyse IA est temporairement indisponible."
  const SubjectNotFound: string := "Sujet introuvable"
  const QuestionNotFound: string := "Question introuvable"
  const SubmissionFailed: string := "Erreur lors de la soumission"
  const SavingFailed: string := "Erreur lors de l'enregistrement"
  /** Stands for the schema's flattened error report, which is not modelled. */
  const InvalidBody: string := "invalid body"

  /** The JSON response: an error with its HTTP status, or the graded answer (status 200). */
  datatype SubmitResponse =
    | SubmitError(status: int, error: string)
    | SubmitOk(submissionId: Id, questionId: string, score: Option<int>, feedback: string)

  /** What `analyzeAnswer` yielded: a verdict, or a thrown error. */
  datatype Grading = Graded(verdict: Gemini.Verdict) | GraderFailed

  /** Which of the two writes whose failure the store reports would fail. */
  datatype WriteFaults = WriteFaults(submissionInsertFails: bool, answerInsertFails: bool)

  /** The arguments `analyzeAnswer` is called with. */
  datatype GraderCall = GraderCall(referenceText: string, question: Gemini.QuestionForAi)

  /** The route's validity threshold: a score of 50 or more is a valid answer. */
  function IsPassingScore(score: int): bool {
    score >= 50
  }

  /** The position of the first question from `from` on with the id, or -1 when there is none. */
  function FirstMatch(qs: seq<QuestionRow>, id: Id, from: nat): (i: int)
    requires from <= |qs|
    ensures i == -1 || from <= i < |qs|
    ensures i >= 0 ==> qs[i].id == id
    ensures forall j :: from <= j < (if i < 0 then |qs| else i) ==> qs[j].id != id
    decreases |qs| - from
  {
    if from == |qs| then -1
    else if qs[from].id == id then from
    else FirstMatch(qs, id, from + 1)
  }

  /** `subject.questions.find(q => q.id === id)`: the first question with the id. */
  function FindQuestion(qs: seq<QuestionRow>, id: Id): (r: Option<QuestionRow>)
    ensures r.Some? ==> r.value in qs && r.value.id == id
    ensures r.None? <==> forall k :: 0 <= k < |qs| ==> qs[k].id != id
    ensures r.Some? ==> exists k :: 0 <= k < |qs| && qs[k] == r.value && forall j :: 0 <= j < k ==> qs[j].id != id
  {
    var i := FirstMatch(qs, id, 0);
    if i < 0 then None else Some(qs[i])
  }

  /** How far the request gets before anything is written. */
  datatype Lookup = BadBody | NoSubject | NoQuestion | Found(subject: SubjectRow, question: QuestionRow)

  /**
   * Validation, then the subject by id, then the question among that
   * subject's questions. Found means the body is valid, the subject is the
   * one row with that id, and the question belongs to it and has the id asked for.
   */
  function LookUp(subjects: seq<SubjectRow>, questions: seq<QuestionRow>, body: SingleAnswer): (r: Lookup)
    ensures r.BadBody? <==> !ValidSingleAnswer(body)
    ensures r.NoSubject? <==> ValidSingleAnswer(body) && SubjectById(subjects, body.subjectId).None?
    ensures r.NoQuestion? <==>
      && ValidSingleAnswer(body) && SubjectById(subjects, body.subjectId).Some?
      && forall q :: q in questions && q.subjectId == body.subjectId ==> q.id != body.questionId
    ensures r.Found? ==>
      && ValidSingleAnswer(body)
      && r.subject in subjects && r.subject.id == body.subjectId
      && r.question in questions && r.question.subjectId == body.subjectId
      && r.question.id == body.questionId
  {
    if !ValidSingleAnswer(body) then BadBody
    else
      match SubjectById(subjects, body.subjectId)
      case None => NoSubject
      case Some(subject) =>
        var own := QuestionsOf(questions, subject.id);
        match FindQuestion(own, body.questionId)
        case None =>
          assert forall q :: q in questions && q.subjectId == body.subjectId ==> q in own;
          NoQuestion
        case Some(question) => Found(subject, question)
  }

  /** The response of a request that stops at validation or lookup. */
  function LookupError(lk: Lookup): (r: SubmitResponse)
    requires !lk.Found?
    ensures r.SubmitError? && (r.status == 400 <==> lk.BadBody?) && (r.status == 404 <==> !lk.BadBody?)
  {
    match lk
    case BadBody => SubmitError(400, InvalidBody)
    case NoSubject => SubmitError(404, SubjectNotFound)
    case NoQuestion => SubmitError(404, QuestionNotFound)
  }

  /** The submission rows the request opens: one when it brings no submission id, none otherwise. */
  function NewSubmissions(body: SingleAnswer, newId: Id): seq<SubmissionRow> {
    if body.submissionId.None? then [SubmissionRow(newId, body.subjectId, body.studentName)] else []
  }

  /** The submission the answer is filed under: the one given, or the one just opened. */
  function SessionId(body: SingleAnswer, newId: Id): Id {
    body.submissionId.GetOr(newId)
  }

  /** The question as handed to `analyzeAnswer`: text and guidelines from the store, id and answer from the request. */
  function GraderQuestion(body: SingleAnswer, q: QuestionRow): Gemini.QuestionForAi {
    Gemini.QuestionForAi(body.questionId, q.questionText, q.expectedAnswerGuidelines, body.studentAnswer)
  }

  /** The row written when grading failed: the fixed message and no validity. */
  function DegradedAnswer(sid: Id, body: SingleAnswer): AnswerRow {
    AnswerRow(sid, body.questionId, body.studentAnswer, Some(UnavailableMessage), None)
  }

  /** The row written for a verdict: its feedback, and valid exactly when the score passes. */
  function GradedAnswer(sid: Id, body: SingleAnswer, v: Gemini.Verdict): AnswerRow {
    AnswerRow(sid, body.questionId, body.studentAnswer, Some(v.feedback), Some(IsPassingScore(v.score)))
  }

  /**
   * The route. Every path only appends; a failed submission insert stops the
   * request before grading; a grading failure still writes its answer and
   * answers 200 (the result of that write is not checked); a failed answer
   * write after a verdict answers 500 and leaves any new submission in place.
   */
  method Submit(db: Database, body: SingleAnswer, newSubmissionId: Id, grading: Grading, faults: WriteFaults)
    returns (resp: SubmitResponse, call: Option<GraderCall>)
    modifies db
    ensures db.subjects == old(db.subjects) && db.questions == old(db.questions)
    ensures old(db.submissions) <= db.submissions && old(db.answers) <= db.answers
    ensures var lk := LookUp(old(db.subjects), old(db.questions), body);
      !lk.Found? ==>
        && resp == LookupError(lk) && call == None
        && db.submissions == old(db.submissions) && db.answers == old(db.answers)
    ensures var lk := LookUp(old(db.subjects), old(db.questions), body);
      lk.Found? && body.submissionId.None? && faults.submissionInsertFails ==>
        && resp == SubmitError(500, SubmissionFailed) && call == None
        && db.submissions == old(db.submissions) && db.answers == old(db.answers)
    ensures var lk := LookUp(old(db.subjects), old(db.questions), body);
      var sid := SessionId(body, newSubmissionId);
      lk.Found? && !(body.submissionId.None? && faults.submissionInsertFails) ==>
        && db.submissions == old(db.submissions) + NewSubmissions(body, newSubmissionId)
        && call == Some(GraderCall(lk.subject.referenceText, GraderQuestion(body, lk.question)))
        && (grading.GraderFailed? ==>
              && db.answers == old(db.answers) + (if faults.answerInsertFails then [] else [DegradedAnswer(sid, body)])
              && resp == SubmitOk(sid, body.questionId, None, UnavailableMessage))
        && (grading.Graded? && faults.answerInsertFails ==>
              && db.answers == old(db.answers)
              && resp == SubmitError(500, SavingFailed))
        && (grading.Graded? && !faults.answerInsertFails ==>
              && db.answers == old(db.answers) + [GradedAnswer(sid, body, grading.verdict)]
              && resp == SubmitOk(sid, grading.verdict.questionId, Some(grading.verdict.score), grading.verdict.feedback))
  {
    call := None;
    var lk := LookUp(db.subjects, db.questions, body);
    if !lk.Found? {
      resp := LookupError(lk);
      return;
    }
    var submissionId := body.submissionId;
    if submissionId.None? {
      if faults.submissionInsertFails {
        resp := SubmitError(500, SubmissionFailed);
        return;
      }
      db.InsertSubmission(SubmissionRow(newSubmissionId, body.subjectId, body.studentName));
      submissionId := Some(newSubmissionId);
    }
    var sid := submissionId.value;
    call := Some(GraderCall(lk.subject.referenceText, GraderQuestion(body, lk.question)));
    match grading
    case GraderFailed =>
      if !faults.answerInsertFails {
        db.InsertAnswer(DegradedAnswer(sid, body));
      }
      resp := SubmitOk(sid, body.questionId, None, UnavailableMessage);
    case Graded(v) =>
      if faults.answerInsertFails {
        resp := SubmitError(500, SavingFailed);
        return;
      }
      db.InsertAnswer(GradedAnswer(sid, body, v));
      resp := SubmitOk(sid, v.questionId, Some(v.score), v.feedback);
  }

  /**
   * Answering the same question twice in a session keeps both answers: the
   * second request appends a second row after the first, and neither is changed.
   */
  method ResubmissionKeepsBothRows(
    db: Database, body: SingleAnswer, first: Gemini.Verdict, second: Gemini.Verdict, unusedId: Id)
    requires LookUp(db.subjects, db.questions, body).Found? && body.submissionId.Some?
    modifies db
    ensures db.submissions == old(db.submissions)
    ensures db.answers == old(db.answers)
      + [GradedAnswer(body.submissionId.value, body, first), GradedAnswer(body.submissionId.value, body, second)]
  {
    var noFaults := WriteFaults(false, false);
    var r1, c1 := Submit(db, body, unusedId, Graded(first), noFaults);
    var r2, c2 := Submit(db, body, unusedId, Graded(second), noFaults);
  }
}
