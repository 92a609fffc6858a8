/** The grading-policy ("prompt") schemas: the supported models, the authoring form and the test payload. */
module PromptSchema {
  import opened Text

  /** `AVAILABLE_MODELS`, in their declared order. */
  const AvailableModels: seq<string> :=
    ["gemini-2.5-flash", "gemini-2.5-pro", "gemini-2.0-flash", "gemini-flash-latest"]

  /** `z.enum(AVAILABLE_MODELS)`. */
  predicate IsSupportedModel(m: string) {
    m in AvailableModels
  }

  /** The supported models are exactly four different strings. */
  lemma SupportedModelsAreExactlyFour(m: string)
    ensures |AvailableModels| == 4
    ensures forall i, j :: 0 <= i < j < 4 ==> AvailableModels[i] != AvailableModels[j]
    ensures IsSupportedModel(m) <==>
      m == "gemini-2.5-flash" || m == "gemini-2.5-pro" || m == "gemini-2.0-flash" || m == "gemini-flash-latest"
  {
  }

  datatype PromptForm = PromptForm(name: string, aiPrompt: string, aiModel: string)

  /** `promptFormSchema`: a name of 1 to 100 UTF-16 code units, a non-empty prompt, a supported model. */
  predicate ValidPromptForm(f: PromptForm) {
    && 1 <= Utf16Length(f.name) <= 100
    && NonEmpty(f.aiPrompt)
    && IsSupportedModel(f.aiModel)
  }

  /**
   * The name bound in characters: a name of 1 to 50 characters always fits,
   * one of more than 100 characters never does (a character outside the
   * Basic Multilingual Plane counts twice in between).
   */
  lemma NameLengthBounds(f: PromptForm)
    requires NonEmpty(f.aiPrompt) && IsSupportedModel(f.aiModel)
    ensures 1 <= |f.name| <= 50 ==> ValidPromptForm(f)
    ensures |f.name| > 100 || f.name == [] ==> !ValidPromptForm(f)
  {
  }

  datatype PromptTest = PromptTest(
    aiPrompt: string,
    aiModel: string,
    referenceText: string,
    questionText: string,
    expectedAnswerGuidelines: string,
    studentAnswer: string)

  /** `promptTestSchema`: five non-empty texts and a supported model. */
  predicate ValidPromptTest(t: PromptTest) {
    && NonEmpty(t.aiPrompt)
    && IsSupportedModel(t.aiModel)
    && NonEmpty(t.referenceText)
    && NonEmpty(t.questionText)
    && NonEmpty(t.expectedAnswerGuidelines)
    && NonEmpty(t.studentAnswer)
  }

  /**
   * Non-emptiness is by length only: with a supported model, a payload whose
   * texts are non-empty but only whitespace is accepted, and so is a form
   * whose short name and prompt are only whitespace.
   */
  lemma BlankTestPayloadAccepted(t: PromptTest, f: PromptForm)
    requires IsSupportedModel(t.aiModel) && IsSupportedModel(f.aiModel)
    requires t.aiPrompt != [] && AllWhitespace(t.aiPrompt)
    requires t.referenceText != [] && AllWhitespace(t.referenceText)
    requires t.questionText != [] && AllWhitespace(t.questionText)
    requires t.expectedAnswerGuidelines != [] && AllWhitespace(t.expectedAnswerGuidelines)
    requires t.studentAnswer != [] && AllWhitespace(t.studentAnswer)
    requires 1 <= |f.name| <= 50 && AllWhitespace(f.name) && f.aiPrompt != [] && AllWhitespace(f.aiPrompt)
    ensures ValidPromptTest(t) && ValidPromptForm(f)
    ensures Trim(t.studentAnswer) == [] && Trim(f.name) == []
  {
    NonEmptyIsNotEmpty(t.aiPrompt);
    NonEmptyIsNotEmpty(t.referenceText);
    NonEmptyIsNotEmpty(t.questionText);
    NonEmptyIsNotEmpty(t.expectedAnswerGuidelines);
    NonEmptyIsNotEmpty(t.studentAnswer);
    NonEmptyIsNotEmpty(f.aiPrompt);
  }
}
