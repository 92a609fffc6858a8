/**
 * The relational store, in memory: one sequence of rows per table. Inserts
 * only append; lookups follow the store's `.single()`, which yields a row
 * only when exactly one row matches.
 */
module Store {
  import opened Wrappers

  type Id = string

  /** A `subjects` row. */
  datatype SubjectRow = SubjectRow(id: Id, referenceText: string, code: string)

  /** A `questions` row. */
  datatype QuestionRow = QuestionRow(
    id: Id,
    subjectId: Id,
    questionText: string,
    displayOrder: int,
    expectedAnswerGuidelines: string)

  /** A `submissions` row. */
  datatype SubmissionRow = SubmissionRow(id: Id, subjectId: Id, studentName: string)

  /** An `answers` row; feedback and validity are nullable. */
  datatype AnswerRow = AnswerRow(
    submissionId: Id,
    questionId: Id,
    studentAnswer: string,
    aiFeedback: Option<string>,
    isValid: Option<bool>)

  /** The subject columns the routes filter on with `.eq(column, value)`. */
  datatype Column = IdColumn | CodeColumn

  function Field(row: SubjectRow, c: Column): string {
    match c
    case IdColumn => row.id
    case CodeColumn => row.code
  }

  /** How many subjects hold `value` in column `c`. */
  function CountEq(rows: seq<SubjectRow>, c: Column, value: string): (n: nat)
    ensures n <= |rows|
    ensures n == 0 <==> forall k :: 0 <= k < |rows| ==> Field(rows[k], c) != value
  {
    if rows == [] then 0
    else CountEq(rows[..|rows| - 1], c, value) + (if Field(rows[|rows| - 1], c) == value then 1 else 0)
  }

  /** The first subject with this id. */
  function FirstWithId(rows: seq<SubjectRow>, id: Id): (r: Option<SubjectRow>)
    ensures r.Some? ==> r.value in rows && r.value.id == id
    ensures r.None? <==> forall k :: 0 <= k < |rows| ==> rows[k].id != id
  {
    if rows == [] then None
    else if rows[0].id == id then Some(rows[0])
    else FirstWithId(rows[1..], id)
  }

  /** `.from("subjects").eq("id", id).single()`: the row, when exactly one has the id. */
  function SubjectById(rows: seq<SubjectRow>, id: Id): (r: Option<SubjectRow>)
    ensures r.Some? <==> CountEq(rows, IdColumn, id) == 1
    ensures r.Some? ==> r.value in rows && r.value.id == id
  {
    if CountEq(rows, IdColumn, id) == 1 then FirstWithId(rows, id) else None
  }

  /** `.from("subjects").eq("code", code).single()` finds a row: exactly one subject has the code. */
  predicate CodeLookupHits(rows: seq<SubjectRow>, code: string) {
    CountEq(rows, CodeColumn, code) == 1
  }

  /**
   * A code that two subjects already share does not hit: the lookup reports
   * it as free, so the uniqueness check lets a third copy through.
   */
  lemma SharedCodeLooksFree(rows: seq<SubjectRow>, i: nat, j: nat)
    requires i < j < |rows| && rows[i].code == rows[j].code
    ensures !CodeLookupHits(rows, rows[i].code)
  {
    CountAtLeastTwo(rows, rows[i].code, i, j);
  }

  lemma {:induction false} CountAtLeastTwo(rows: seq<SubjectRow>, code: string, i: nat, j: nat)
    requires i < j < |rows| && rows[i].code == code && rows[j].code == code
    ensures CountEq(rows, CodeColumn, code) >= 2
  {
    var init := rows[..|rows| - 1];
    if j < |rows| - 1 {
      assert init[i] == rows[i] && init[j] == rows[j];
      CountAtLeastTwo(init, code, i, j);
    } else {
      assert init[i] == rows[i];
      assert CountEq(init, CodeColumn, code) != 0;
    }
  }

  /** The questions embedded by `select("*, questions(*)")`: those of the subject, in store order. */
  function QuestionsOf(rows: seq<QuestionRow>, subjectId: Id): (r: seq<QuestionRow>)
    ensures forall q :: q in r <==> q in rows && q.subjectId == subjectId
    ensures forall q :: multiset(r)[q] == if q.subjectId == subjectId then multiset(rows)[q] else 0
  {
    if rows == [] then []
    else
      var rest := QuestionsOf(rows[1..], subjectId);
      assert rows == [rows[0]] + rows[1..];
      assert multiset(rows) == multiset([rows[0]]) + multiset(rows[1..]);
      if rows[0].subjectId == subjectId then [rows[0]] + rest else rest
  }

  /** Embedding keeps table order: the questions of `a + b` are those of `a`, then those of `b`. */
  lemma {:induction false} QuestionsOfSplits(a: seq<QuestionRow>, b: seq<QuestionRow>, subjectId: Id)
    ensures QuestionsOf(a + b, subjectId) == QuestionsOf(a, subjectId) + QuestionsOf(b, subjectId)
  {
    if a == [] {
      assert a + b == b;
    } else {
      assert (a + b)[1..] == a[1..] + b;
      QuestionsOfSplits(a[1..], b, subjectId);
    }
  }

  /** The four tables. Every insert appends its rows and touches no other table. */
  class Database {
    var subjects: seq<SubjectRow>
    var questions: seq<QuestionRow>
    var submissions: seq<SubmissionRow>
    var answers: seq<AnswerRow>

    constructor ()
      ensures subjects == [] && questions == [] && submissions == [] && answers == []
    {
      subjects, questions, submissions, answers := [], [], [], [];
    }

    method InsertSubject(row: SubjectRow)
      modifies this
      ensures subjects == old(subjects) + [row]
      ensures questions == old(questions) && submissions == old(submissions) && answers == old(answers)
    {
      subjects := subjects + [row];
    }

    method InsertQuestions(rows: seq<QuestionRow>)
      modifies this
      ensures questions == old(questions) + rows
      ensures subjects == old(subjects) && submissions == old(submissions) && answers == old(answers)
    {
      questions := questions + rows;
    }

    method InsertSubmission(row: SubmissionRow)
      modifies this
      ensures submissions == old(submissions) + [row]
      ensures subjects == old(subjects) && questions == old(questions) && answers == old(answers)
    {
      submissions := submissions + [row];
    }

    method InsertAnswer(row: AnswerRow)
      modifies this
      ensures answers == old(answers) + [row]
      ensures subjects == old(subjects) && questions == old(questions) && submissions == old(submissions)
    {
      answers := answers + [row];
    }
  }
}
