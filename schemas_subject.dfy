/** The subject authoring schema: a reference text and exactly four questions. */
module SubjectSchema {
  import opened Text

  datatype QuestionInput = QuestionInput(questionText: string, expectedAnswerGuidelines: string)

  /** `questionSchema`: a non-empty question and non-empty answer guidelines. */
  predicate ValidQuestion(q: QuestionInput) {
    NonEmpty(q.questionText) && NonEmpty(q.expectedAnswerGuidelines)
  }

  /**
   * `subjectFormSchema`. It declares no grading-policy field, so the parsed
   * form carries none: the datatype has no place for one.
   */
  datatype SubjectForm = SubjectForm(referenceText: string, questions: seq<QuestionInput>)

  predicate ValidSubjectForm(f: SubjectForm) {
    && NonEmpty(f.referenceText)
    && |f.questions| == 4
    && forall i :: 0 <= i < |f.questions| ==> ValidQuestion(f.questions[i])
  }

  /** Three or five questions are refused whatever their content. */
  lemma QuestionCountIsExact(f: SubjectForm)
    requires |f.questions| != 4
    ensures !ValidSubjectForm(f)
  {
  }

  /** A single question with an empty text spoils the whole form. */
  lemma OneEmptyQuestionRejects(f: SubjectForm, i: nat)
    requires i < |f.questions| && f.questions[i].questionText == ""
    ensures !ValidSubjectForm(f)
  {
  }
}
