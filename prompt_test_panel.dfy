/**
 * The admin's prompt test panel: its score badge, the gate on the test
 * button and the state `handleTest` sets. The prompt and the model come
 * from the page; the server's reply is an input.
 */
module PromptTestPanel {
  import opened Wrappers
  import opened Text
  import opened Badges
  import opened PromptSchema
  import StudentAnswerForm

  const DefaultTestError: string := "Erreur lors du test"

  /** The admin's badge: green from 70, orange from 30, red below; the caption is the score and `%`. */
  function ScoreBadge(score: int): (b: Badge)
    ensures b.colour == Green <==> score >= 70
    ensures b.colour == Orange <==> 30 <= score < 70
    ensures b.colour == Red <==> score < 30
    ensures |b.caption| >= 2 && b.caption[|b.caption| - 1] == '%'
    ensures IntOfString(b.caption[..|b.caption| - 1]) == Some(score)
    ensures CanonicalInt(b.caption[..|b.caption| - 1])
  {
    var caption := IntToString(score) + "%";
    assert |IntToString(score)| >= 1;
    assert caption[..|caption| - 1] == IntToString(score);
    IntToStringRoundTrip(score);
    if score >= 70 then Badge(Green, caption)
    else if score >= 30 then Badge(Orange, caption)
    else Badge(Red, caption)
  }

  /** A higher score never gets a lower band. */
  lemma ScoreBadgeIsMonotone(s1: int, s2: int)
    requires s1 <= s2
    ensures Rank(ScoreBadge(s1).colour) <= Rank(ScoreBadge(s2).colour)
  {
  }

  /**
   * The two screens band the same score differently: 75 is green here and
   * orange for the student, 40 is orange here and red for the student.
   */
  lemma BandsDifferFromStudentBadge()
    ensures ScoreBadge(75).colour == Green && StudentAnswerForm.ScoreBadge(75).colour == Orange
    ensures ScoreBadge(40).colour == Orange && StudentAnswerForm.ScoreBadge(40).colour == Red
  {
  }

  /** What `handleTest` got back. */
  datatype TestReply =
    | RequestFailed                 // fetch rejected, or the body was not JSON
    | NotOk(error: Option<string>)  // `data.error?.toString()`, None when absent
    | TestOk(score: int, feedback: string)

  datatype TestResult = TestResult(score: int, feedback: string)

  /** The editable inputs of the panel. */
  datatype TestField = ReferenceText | QuestionText | Guidelines | StudentAnswer

  /** The message a rejected test shows: the server's, unless it is missing or empty. */
  function ErrorMessage(error: Option<string>): (m: string)
    ensures m != []
    ensures error.Some? && error.value != [] ==> m == error.value
    ensures !(error.Some? && error.value != []) ==> m == DefaultTestError
  {
    if error.Some? && error.value != [] then error.value else DefaultTestError
  }

  class TestPanel {
    const prompt: string
    const model: string
    var referenceText: string
    var questionText: string
    var expectedAnswerGuidelines: string
    var studentAnswer: string
    var loading: bool
    var result: Option<TestResult>
    var error: string

    constructor (prompt: string, model: string)
      ensures this.prompt == prompt && this.model == model
      ensures referenceText == [] && questionText == [] && expectedAnswerGuidelines == [] && studentAnswer == []
      ensures !loading && result == None && error == []
    {
      this.prompt := prompt;
      this.model := model;
      referenceText, questionText, expectedAnswerGuidelines, studentAnswer := [], [], [], [];
      loading, result, error := false, None, [];
    }

    /** `canTest`: the prompt and the four inputs are all non-empty, untrimmed. */
    predicate CanTest()
      reads this
    {
      prompt != [] && referenceText != [] && questionText != [] && expectedAnswerGuidelines != [] && studentAnswer != []
    }

    /** The button is enabled when no test runs and `canTest` holds. */
    predicate TestEnabled()
      reads this
    {
      !loading && CanTest()
    }

    /** The payload the panel sends. */
    function Payload(): PromptTest
      reads this
    {
      PromptTest(prompt, model, referenceText, questionText, expectedAnswerGuidelines, studentAnswer)
    }

    /** Typing into one input replaces that input only. */
    method Edit(field: TestField, value: string)
      modifies this
      ensures referenceText == (if field == ReferenceText then value else old(referenceText))
      ensures questionText == (if field == QuestionText then value else old(questionText))
      ensures expectedAnswerGuidelines == (if field == Guidelines then value else old(expectedAnswerGuidelines))
      ensures studentAnswer == (if field == StudentAnswer then value else old(studentAnswer))
      ensures loading == old(loading) && result == old(result) && error == old(error)
    {
      match field {
        case ReferenceText => referenceText := value;
        case QuestionText => questionText := value;
        case Guidelines => expectedAnswerGuidelines := value;
        case StudentAnswer => studentAnswer := value;
      }
    }

    /**
     * A test clears the previous error and result, sends the payload, and
     * ends with loading off: a success shows the score and feedback, any
     * failure shows a message and no result.
     */
    method HandleTest(reply: TestReply) returns (sent: PromptTest)
      modifies this
      ensures sent == old(Payload())
      ensures !loading
      ensures referenceText == old(referenceText) && questionText == old(questionText)
      ensures expectedAnswerGuidelines == old(expectedAnswerGuidelines) && studentAnswer == old(studentAnswer)
      ensures reply.TestOk? ==> result == Some(TestResult(reply.score, reply.feedback)) && error == []
      ensures reply.NotOk? ==> result == None && error == ErrorMessage(reply.error)
      ensures reply.RequestFailed? ==> result == None && error == DefaultTestError
    {
      loading := true;
      error := [];
      result := None;
      sent := Payload();
      match reply {
        case TestOk(score, feedback) =>
          result := Some(TestResult(score, feedback));
        case NotOk(e) =>
          error := ErrorMessage(e);
        case RequestFailed =>
          error := DefaultTestError;
      }
      loading := false;
    }
  }

  /**
   * The button's gate is the test schema without its model check: with a
   * supported model, the panel may test exactly the payloads the schema accepts.
   */
  lemma CanTestMatchesSchema(p: TestPanel)
    ensures p.CanTest() && IsSupportedModel(p.model) <==> ValidPromptTest(p.Payload())
  {
    NonEmptyIsNotEmpty(p.prompt);
    NonEmptyIsNotEmpty(p.referenceText);
    NonEmptyIsNotEmpty(p.questionText);
    NonEmptyIsNotEmpty(p.expectedAnswerGuidelines);
    NonEmptyIsNotEmpty(p.studentAnswer);
  }
}
