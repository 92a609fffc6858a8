/**
 * `POST /api/subjects`: the authentication and validation gates, the bounded
 * search for an unused code, the subject insert and the numbered question
 * inserts. Authentication, the random draws, the store's ids and the
 * store's insert errors are inputs.
 */
module SubjectsRoute {
  import opened Wrappers
  import opened Store
  import opened SubjectSchema
  import opened CodeGenerator

  const Unauthorized: string := "Non autorise"
  /** Stands for the schema's flattened error report, which is not modelled. */
  const InvalidBody: string := "invalid body"
  /** The number of uniqueness checks the route makes at most. */
  const MaxChecks: nat := 10

  /** What the route answers: an error with its status, or 201 with the new subject. */
  datatype CreateResponse = CreateError(status: int, error: string) | Created(subject: SubjectRow)

  /** The error message each insert would report, when it fails. */
  datatype CreateFaults = CreateFaults(subjectInsert: Option<string>, questionsInsert: Option<string>)

  /** The draws of the up to eleven `generateUniqueCode` calls, each within range. */
  predicate ValidDraws(words: seq<string>, draws: seq<CodeDraw>) {
    |draws| > MaxChecks && forall k :: 0 <= k < |draws| ==> ValidDraw(words, draws[k])
  }

  /**
   * The index of the code the loop settles on, starting from attempt `from`:
   * the first attempt below ten whose code no subject holds alone, or ten,
   * the code regenerated after the tenth hit, when there is none.
   */
  function FirstFreeAttempt(subjects: seq<SubjectRow>, words: seq<string>, draws: seq<CodeDraw>, from: nat): (n: nat)
    requires from <= MaxChecks && ValidDraws(words, draws)
    ensures from <= n <= MaxChecks
    ensures forall k :: from <= k < n ==> CodeLookupHits(subjects, GenerateCode(words, draws[k]))
    ensures n < MaxChecks ==> !CodeLookupHits(subjects, GenerateCode(words, draws[n]))
    decreases MaxChecks - from
  {
    if from == MaxChecks then MaxChecks
    else if !CodeLookupHits(subjects, GenerateCode(words, draws[from])) then from
    else FirstFreeAttempt(subjects, words, draws, from + 1)
  }

  /** The code the subject is created with. */
  function ChosenCode(subjects: seq<SubjectRow>, words: seq<string>, draws: seq<CodeDraw>): string
    requires ValidDraws(words, draws)
  {
    GenerateCode(words, draws[FirstFreeAttempt(subjects, words, draws, 0)])
  }

  /**
   * The retry loop. It stops at the first code the lookup misses, after at
   * most ten checks and eleven generated codes; after ten hits the last code
   * is kept without a check.
   */
  method ChooseCode(subjects: seq<SubjectRow>, words: seq<string>, draws: seq<CodeDraw>)
    returns (code: string, attempts: nat, checks: nat)
    requires ValidDraws(words, draws)
    ensures attempts == FirstFreeAttempt(subjects, words, draws, 0)
    ensures code == GenerateCode(words, draws[attempts])
    ensures attempts < MaxChecks ==> !CodeLookupHits(subjects, code)
    ensures checks == if attempts < MaxChecks then attempts + 1 else MaxChecks
    ensures checks <= MaxChecks && attempts + 1 <= MaxChecks + 1
  {
    code := GenerateCode(words, draws[0]);
    attempts := 0;
    checks := 0;
    while attempts < MaxChecks
      invariant attempts <= MaxChecks && checks == attempts
      invariant code == GenerateCode(words, draws[attempts])
      invariant forall k :: 0 <= k < attempts ==> CodeLookupHits(subjects, GenerateCode(words, draws[k]))
    {
      checks := checks + 1;
      if !CodeLookupHits(subjects, code) {
        break;
      }
      code := GenerateCode(words, draws[attempts + 1]);
      attempts := attempts + 1;
    }
    FirstFreeAttemptIsFirst(subjects, words, draws, 0, attempts);
  }

  /** Any attempt that every earlier one hit, and that is free or the tenth, is the one the search settles on. */
  lemma {:induction false} FirstFreeAttemptIsFirst(subjects: seq<SubjectRow>, words: seq<string>, draws: seq<CodeDraw>, from: nat, n: nat)
    requires from <= n <= MaxChecks && ValidDraws(words, draws)
    requires forall k :: from <= k < n ==> CodeLookupHits(subjects, GenerateCode(words, draws[k]))
    requires n < MaxChecks ==> !CodeLookupHits(subjects, GenerateCode(words, draws[n]))
    ensures FirstFreeAttempt(subjects, words, draws, from) == n
    decreases n - from
  {
    if from < n {
      FirstFreeAttemptIsFirst(subjects, words, draws, from + 1, n);
    }
  }

  /**
   * Ten hits end the search with a code nobody checked: when every draw gives
   * the code one subject already has, the new subject is created with it too.
   */
  lemma ExhaustedSearchReusesTakenCode(words: seq<string>, d: CodeDraw, taken: SubjectRow)
    requires ValidDraw(words, d) && taken.code == GenerateCode(words, d)
    ensures var draws := seq(MaxChecks + 1, _ => d);
      && FirstFreeAttempt([taken], words, draws, 0) == MaxChecks
      && ChosenCode([taken], words, draws) == taken.code
      && CodeLookupHits([taken], ChosenCode([taken], words, draws))
  {
    var draws := seq(MaxChecks + 1, _ => d);
    assert CountEq([taken], CodeColumn, taken.code) == 1 by {
      assert [taken][..0] == [];
    }
  }

  /** `questions.map((q, i) => …)`: the i-th question of the form, numbered i + 1, under the new subject. */
  function NumberQuestions(subjectId: Id, qs: seq<QuestionInput>, ids: seq<Id>): (rows: seq<QuestionRow>)
    requires |ids| == |qs|
    ensures |rows| == |qs|
  {
    seq(|qs|, i requires 0 <= i < |qs| =>
      QuestionRow(ids[i], subjectId, qs[i].questionText, i + 1, qs[i].expectedAnswerGuidelines))
  }

  /**
   * The numbering keeps the form's order and texts: row i holds question i
   * with display order i + 1, so the orders are 1..n, distinct and increasing.
   */
  lemma NumberingPreservesOrder(subjectId: Id, qs: seq<QuestionInput>, ids: seq<Id>)
    requires |ids| == |qs|
    ensures forall i :: 0 <= i < |qs| ==>
      var row := NumberQuestions(subjectId, qs, ids)[i];
      && row.subjectId == subjectId && row.displayOrder == i + 1
      && QuestionInput(row.questionText, row.expectedAnswerGuidelines) == qs[i]
    ensures forall i, j :: 0 <= i < j < |qs| ==>
      NumberQuestions(subjectId, qs, ids)[i].displayOrder < NumberQuestions(subjectId, qs, ids)[j].displayOrder
  {
  }

  /** The row the subject is inserted as: only its text and its code. */
  function NewSubject(subjectId: Id, body: SubjectForm, code: string): SubjectRow {
    SubjectRow(subjectId, body.referenceText, code)
  }

  /**
   * The route. Nothing is written before both gates pass; a failed subject
   * insert writes nothing; a failed question insert leaves the subject row
   * in place; success answers 201 with the subject row.
   */
  method CreateSubject(
    db: Database, authenticated: bool, body: SubjectForm, words: seq<string>, draws: seq<CodeDraw>,
    subjectId: Id, questionIds: seq<Id>, faults: CreateFaults)
    returns (resp: CreateResponse)
    requires ValidDraws(words, draws) && |questionIds| == |body.questions|
    modifies db
    ensures db.submissions == old(db.submissions) && db.answers == old(db.answers)
    ensures !authenticated ==>
      && resp == CreateError(401, Unauthorized)
      && db.subjects == old(db.subjects) && db.questions == old(db.questions)
    ensures authenticated && !ValidSubjectForm(body) ==>
      && resp == CreateError(400, InvalidBody)
      && db.subjects == old(db.subjects) && db.questions == old(db.questions)
    ensures authenticated && ValidSubjectForm(body) && faults.subjectInsert.Some? ==>
      && resp == CreateError(500, faults.subjectInsert.value)
      && db.subjects == old(db.subjects) && db.questions == old(db.questions)
    ensures authenticated && ValidSubjectForm(body) && faults.subjectInsert.None? ==>
      var row := NewSubject(subjectId, body, ChosenCode(old(db.subjects), words, draws));
      && db.subjects == old(db.subjects) + [row]
      && (faults.questionsInsert.Some? ==>
            db.questions == old(db.questions) && resp == CreateError(500, faults.questionsInsert.value))
      && (faults.questionsInsert.None? ==>
            db.questions == old(db.questions) + NumberQuestions(subjectId, body.questions, questionIds)
            && resp == Created(row))
  {
    if !authenticated {
      return CreateError(401, Unauthorized);
    }
    if !ValidSubjectForm(body) {
      return CreateError(400, InvalidBody);
    }
    var code, attempts, checks := ChooseCode(db.subjects, words, draws);
    if faults.subjectInsert.Some? {
      return CreateError(500, faults.subjectInsert.value);
    }
    var subject := NewSubject(subjectId, body, code);
    db.InsertSubject(subject);
    if faults.questionsInsert.Some? {
      return CreateError(500, faults.questionsInsert.value);
    }
    db.InsertQuestions(NumberQuestions(subject.id, body.questions, questionIds));
    resp := Created(subject);
  }

  lemma {:induction false} QuestionsOfAppend(existing: seq<QuestionRow>, added: seq<QuestionRow>, subjectId: Id)
    requires forall q :: q in existing ==> q.subjectId != subjectId
    requires forall q :: q in added ==> q.subjectId == subjectId
    ensures QuestionsOf(existing + added, subjectId) == added
  {
    if existing == [] {
      assert existing + added == added;
      QuestionsOfAll(added, subjectId);
    } else {
      assert (existing + added)[1..] == existing[1..] + added;
      QuestionsOfAppend(existing[1..], added, subjectId);
    }
  }

  lemma {:induction false} QuestionsOfAll(rows: seq<QuestionRow>, subjectId: Id)
    requires forall q :: q in rows ==> q.subjectId == subjectId
    ensures QuestionsOf(rows, subjectId) == rows
  {
    if rows != [] {
      QuestionsOfAll(rows[1..], subjectId);
    }
  }

  /**
   * When the new subject's id is fresh, the questions the store embeds for it
   * afterwards are exactly the numbered form questions, in form order.
   */
  lemma CreatedSubjectHasItsQuestions(oldQuestions: seq<QuestionRow>, subjectId: Id, qs: seq<QuestionInput>, ids: seq<Id>)
    requires |ids| == |qs|
    requires forall q :: q in oldQuestions ==> q.subjectId != subjectId
    ensures QuestionsOf(oldQuestions + NumberQuestions(subjectId, qs, ids), subjectId) == NumberQuestions(subjectId, qs, ids)
  {
    QuestionsOfAppend(oldQuestions, NumberQuestions(subjectId, qs, ids), subjectId);
  }
}
