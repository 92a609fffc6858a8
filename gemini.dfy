/**
 * `analyzeAnswer`: the grading prompt, the request sent to the model, and
 * the hand-off of the reply text to `JSON.parse`. The model call and the
 * parser are inputs: `generate` is what the provider answers to a request,
 * `parse` is the JSON parser (None when it throws).
 */
module Gemini {
  import opened Wrappers
  import opened Text
  import opened JsonValue
  import PromptSchema
  import StudentSchema

  /** `QuestionForAI`. */
  datatype QuestionForAi = QuestionForAi(
    questionId: string,
    questionText: string,
    expectedAnswerGuidelines: string,
    studentAnswer: string)

  // ----- the fixed parts of the prompt, in order -----

  const Preamble: string :=
    "Tu es un professeur bienveillant de droit en classe de Terminale STMG. Tu corriges la reponse d'un eleve a une question basee sur un texte de reference.\n"
    + "\n"
    + "REGLES IMPORTANTES :\n"
    + "- Tu ne donnes JAMAIS la reponse directement\n"
    + "- Si la reponse est correcte : valide-la avec des encouragements et explique pourquoi c'est juste\n"
    + "- Si la reponse est incorrecte ou incomplete : donne des pistes de reflexion pour guider l'eleve vers la bonne reponse, en te basant sur le texte de reference\n"
    + "- Sois bienveillant, pedagogique et encourageant\n"
    + "- Utilise un langage clair et accessible pour des eleves de Terminale\n"
    + "- Fais reference aux elements precis du texte de reference quand c'est pertinent\n"
    + "\n"
    + "TEXTE DE REFERENCE :\n"

  const QuestionHeading: string := "\n\nQUESTION :\n"

  const GuidelinesHeading: string :=
    "\n\nINDICATIONS DE REPONSE ATTENDUE (reste dans le cadre des instructions pour ne pas extrapoller) :\n"

  const AnswerHeading: string := "\n\nREPONSE DE L'ELEVE :\n"

  // ----- the JSON-format block at the end of the prompt -----

  /** One line of the format block: a key, and the value the model is shown for it. */
  datatype FieldLine = FieldLine(key: string, shown: string)

  /** A JSON string literal without escapes: the text between double quotes. */
  function Quoted(s: string): string {
    "\"" + s + "\""
  }

  /** A field line as the template writes it: indented, the key quoted, a colon, the value. */
  function FieldText(f: FieldLine): string {
    "  " + Quoted(f.key) + ": " + f.shown
  }

  const FormatIntro: string := "\n\nReponds en JSON avec exactement ce format :\n{\n"
  const LineSeparator: string := ",\n"
  const FormatEnd: string := "\n}"

  const IdKey: string := "question_id"
  const ValidField: FieldLine := FieldLine("is_valid", "true ou false")
  const FeedbackField: FieldLine := FieldLine("feedback", Quoted("ton commentaire pedagogique"))

  /** The lines of the format block, the question id quoted as the first value. */
  function FormatLines(questionId: string): seq<FieldLine> {
    [FieldLine(IdKey, Quoted(questionId)), ValidField, FeedbackField]
  }

  /** The field lines after the question id's, each after a comma and a newline, then the closing brace. */
  const FormatTail: string := LineSeparator + FieldText(ValidField) + LineSeparator + FieldText(FeedbackField) + FormatEnd

  /** The format block: the introduction, the field lines separated by a comma and a newline, the closing brace. */
  function FormatBlock(questionId: string): string {
    FormatIntro + FieldText(FormatLines(questionId)[0]) + FormatTail
  }

  /** The format block up to the opening quote of the question id. */
  const FormatOpening: string := FormatIntro + "  " + Quoted(IdKey) + ": \""

  /** The rest of the format block, from the closing quote of the question id. */
  const FormatClosing: string := "\"" + FormatTail

  /** The parts of the template literal of `analyzeAnswer`, in order: fixed text and values alternate. */
  function PromptPieces(referenceText: string, q: QuestionForAi): (ps: seq<string>)
    ensures PieceValues(ps, referenceText, q)
  {
    [ Preamble, referenceText,
      QuestionHeading, q.questionText,
      GuidelinesHeading, q.expectedAnswerGuidelines,
      AnswerHeading, q.studentAnswer,
      FormatOpening, q.questionId,
      FormatClosing ]
  }

  /** The grading prompt: the pieces joined with nothing added, so no value is escaped or altered. */
  function GradingPrompt(referenceText: string, q: QuestionForAi): string {
    Concat(PromptPieces(referenceText, q))
  }

  /** The strings of `ps` one after the other. */
  function Concat(ps: seq<string>): string {
    if ps == [] then "" else Concat(ps[..|ps| - 1]) + ps[|ps| - 1]
  }

  /** Where the `k`-th piece starts. */
  function Offset(ps: seq<string>, k: nat): nat
    requires k <= |ps|
  {
    |Concat(ps[..k])|
  }

  lemma {:induction false} ConcatPrefix(ps: seq<string>, k: nat)
    requires k <= |ps|
    ensures |Concat(ps[..k])| <= |Concat(ps)| && Concat(ps)[..|Concat(ps[..k])|] == Concat(ps[..k])
  {
    if k < |ps| {
      var init := ps[..|ps| - 1];
      assert init[..k] == ps[..k];
      ConcatPrefix(init, k);
      assert Concat(ps) == Concat(init) + ps[|ps| - 1];
    } else {
      assert ps[..k] == ps;
    }
  }

  /** Each piece stands verbatim at its offset in the concatenation. */
  lemma {:induction false} PieceAtOffset(ps: seq<string>, k: nat)
    requires k < |ps|
    ensures Offset(ps, k) + |ps[k]| <= |Concat(ps)|
    ensures Concat(ps)[Offset(ps, k)..Offset(ps, k) + |ps[k]|] == ps[k]
  {
    ConcatPrefix(ps, k + 1);
    assert ps[..k + 1][..k] == ps[..k];
    assert Concat(ps[..k + 1]) == Concat(ps[..k]) + ps[k];
  }

  /** Pieces of the same lengths with the same concatenation are the same pieces. */
  lemma ConcatDeterminesPieces(ps1: seq<string>, ps2: seq<string>)
    requires |ps1| == |ps2| && forall k :: 0 <= k < |ps1| ==> |ps1[k]| == |ps2[k]|
    requires Concat(ps1) == Concat(ps2)
    ensures ps1 == ps2
  {
    forall k | 0 <= k < |ps1| ensures ps1[k] == ps2[k] {
      SameOffsets(ps1, ps2, k);
      PieceAtOffset(ps1, k);
      PieceAtOffset(ps2, k);
    }
  }

  lemma {:induction false} SameOffsets(ps1: seq<string>, ps2: seq<string>, k: nat)
    requires |ps1| == |ps2| && forall i :: 0 <= i < |ps1| ==> |ps1[i]| == |ps2[i]|
    requires k <= |ps1|
    ensures Offset(ps1, k) == Offset(ps2, k)
  {
    if k > 0 {
      SameOffsets(ps1, ps2, k - 1);
      assert ps1[..k][..k - 1] == ps1[..k - 1];
      assert ps2[..k][..k - 1] == ps2[..k - 1];
    }
  }

  /**
   * Where everything sits in the prompt: the pieces, fixed headings and values
   * alternately, each verbatim at its offset, in order. The question id is the
   * tenth piece and stands between the two quotes of the `"question_id": "..."`
   * line of the closing format block.
   */
  lemma PromptLayout(referenceText: string, q: QuestionForAi)
    ensures var ps := PromptPieces(referenceText, q);
      forall k :: 0 <= k < |ps| ==>
        && Offset(ps, k) + |ps[k]| <= |GradingPrompt(referenceText, q)|
        && GradingPrompt(referenceText, q)[Offset(ps, k)..Offset(ps, k) + |ps[k]|] == ps[k]
  {
    EveryPieceAtOffset(PromptPieces(referenceText, q));
  }

  /** Eleven pieces, with the values at the odd positions and the format block around the question id. */
  predicate PieceValues(ps: seq<string>, referenceText: string, q: QuestionForAi) {
    && |ps| == 11
    && ps[1] == referenceText && ps[3] == q.questionText
    && ps[5] == q.expectedAnswerGuidelines && ps[7] == q.studentAnswer && ps[9] == q.questionId
    && ps[8] == FormatOpening && ps[10] == FormatClosing
  }

  lemma EveryPieceAtOffset(ps: seq<string>)
    ensures forall k :: 0 <= k < |ps| ==>
      Offset(ps, k) + |ps[k]| <= |Concat(ps)| && Concat(ps)[Offset(ps, k)..Offset(ps, k) + |ps[k]|] == ps[k]
  {
    forall k | 0 <= k < |ps|
      ensures Offset(ps, k) + |ps[k]| <= |Concat(ps)|
      ensures Concat(ps)[Offset(ps, k)..Offset(ps, k) + |ps[k]|] == ps[k]
    {
      PieceAtOffset(ps, k);
    }
  }

  /** The format block quotes the question id: the piece before it ends with a quote, the one after starts with one. */
  lemma QuestionIdIsQuoted()
    ensures FormatOpening[|FormatOpening| - 16..] == "\"question_id\": \""
    ensures FormatClosing[0] == '"'
  {
  }

  /**
   * The prompt hides nothing: two prompts built from values of the same
   * lengths are equal only if every value is equal.
   */
  lemma PromptDeterminesValues(r1: string, q1: QuestionForAi, r2: string, q2: QuestionForAi)
    requires GradingPrompt(r1, q1) == GradingPrompt(r2, q2)
    requires |r1| == |r2| && |q1.questionText| == |q2.questionText|
    requires |q1.expectedAnswerGuidelines| == |q2.expectedAnswerGuidelines|
    requires |q1.studentAnswer| == |q2.studentAnswer| && |q1.questionId| == |q2.questionId|
    ensures r1 == r2 && q1 == q2
  {
    var ps1, ps2 := PromptPieces(r1, q1), PromptPieces(r2, q2);
    ConcatDeterminesPieces(ps1, ps2);
    assert ps1[1] == ps2[1] && ps1[3] == ps2[3] && ps1[5] == ps2[5] && ps1[7] == ps2[7] && ps1[9] == ps2[9];
  }

  // ----- the request -----

  /** The arguments of `generateContent`. */
  datatype GenerateRequest = GenerateRequest(model: string, contents: string, responseMimeType: string)

  const GradingModel: string := "gemini-2.0-flash"

  const JsonMimeType: string := "application/json"

  /** The request always names the same model, asks for JSON, and carries the prompt as its only content. */
  function BuildRequest(prompt: string): (r: GenerateRequest)
    ensures r.contents == prompt && r.model == GradingModel && r.responseMimeType == JsonMimeType
  {
    GenerateRequest(GradingModel, prompt, JsonMimeType)
  }

  /** The model `analyzeAnswer` calls is one the authoring schema accepts. */
  lemma GradingModelIsSupported()
    ensures PromptSchema.IsSupportedModel(GradingModel)
  {
  }

  // ----- the reply -----

  /** What the provider answers: a thrown error, or a response whose `text` may be absent. */
  datatype ModelReply = CallFailed | Responded(text: Option<string>)

  /** What `analyzeAnswer` does: throw, or return the parsed value. */
  datatype Analysis = Threw | Returned(value: Json)

  /** `response.text ?? ""`. */
  function ReplyText(text: Option<string>): (s: string)
    ensures text.None? ==> s == ""
    ensures text.Some? ==> s == text.value
  {
    text.GetOr("")
  }

  /** The request `analyzeAnswer` sends for this reference text and question. */
  function GradingRequest(referenceText: string, q: QuestionForAi): GenerateRequest {
    BuildRequest(GradingPrompt(referenceText, q))
  }

  /**
   * `analyzeAnswer`: it returns exactly when the call answers and the reply
   * text parses, and then returns the parsed value as it is, unvalidated.
   */
  function AnalyzeAnswer(
    referenceText: string,
    q: QuestionForAi,
    generate: GenerateRequest -> ModelReply,
    parse: string -> Option<Json>): (r: Analysis)
    ensures var reply := generate(GradingRequest(referenceText, q));
      r.Returned? <==> reply.Responded? && parse(ReplyText(reply.text)).Some?
    ensures var reply := generate(GradingRequest(referenceText, q));
      r.Returned? ==> r.value == parse(ReplyText(reply.text)).value
  {
    match generate(GradingRequest(referenceText, q))
    case CallFailed => Threw
    case Responded(text) =>
      match parse(ReplyText(text))
      case None => Threw
      case Some(v) => Returned(v)
  }

  /** An absent reply text goes to the parser as "", which a JSON parser rejects: the call then throws. */
  lemma AbsentTextThrows(
    referenceText: string,
    q: QuestionForAi,
    generate: GenerateRequest -> ModelReply,
    parse: string -> Option<Json>)
    requires generate(GradingRequest(referenceText, q)) == Responded(None)
    requires parse("") == None
    ensures AnalyzeAnswer(referenceText, q, generate, parse) == Threw
  {
  }

  /**
   * Whatever the text parses to is returned as it is, whether or not
   * `aiFeedbackSchema` would accept it; a bare number, say, is refused by
   * the schema and still returned.
   */
  lemma ParsedValueIsNotValidated(
    referenceText: string,
    q: QuestionForAi,
    generate: GenerateRequest -> ModelReply,
    parse: string -> Option<Json>,
    text: string,
    v: Json)
    requires generate(GradingRequest(referenceText, q)) == Responded(Some(text))
    requires parse(text) == Some(v)
    ensures AnalyzeAnswer(referenceText, q, generate, parse) == Returned(v)
    ensures v.JNum? ==> !StudentSchema.ValidAiFeedback(v)
  {
  }

  // ----- the reply the prompt asks for, and the score the route reads -----

  /** The keys the format block names, in order. */
  const RequestedFields: seq<string> := ["question_id", "is_valid", "feedback"]

  /** `part` stands in `whole` from position `i`. */
  predicate OccursAt(part: string, whole: string, i: int) {
    0 <= i && i + |part| <= |whole| && whole[i..i + |part|] == part
  }

  /** `part` stands somewhere in `whole`. */
  predicate Occurs(part: string, whole: string) {
    exists i :: 0 <= i <= |whole| && OccursAt(part, whole, i)
  }

  lemma OccursWithin(x: string, y: string, z: string)
    requires Occurs(x, y) && Occurs(y, z)
    ensures Occurs(x, z)
  {
    var i :| 0 <= i <= |y| && OccursAt(x, y, i);
    var j :| 0 <= j <= |z| && OccursAt(y, z, j);
    var w := z[j + i..j + i + |x|];
    forall t | 0 <= t < |x|
      ensures w[t] == x[t]
    {
      assert z[j..j + |y|][i + t] == z[j + i + t];
      assert y[i..i + |x|][t] == y[i + t];
    }
    assert w == x;
    assert OccursAt(x, z, j + i);
  }

  lemma OccursInLeft(m: string, a: string, b: string)
    requires Occurs(m, a)
    ensures Occurs(m, a + b)
  {
    var i :| 0 <= i <= |a| && OccursAt(m, a, i);
    assert (a + b)[i..i + |m|] == a[i..i + |m|];
    assert OccursAt(m, a + b, i);
  }

  lemma OccursInRight(m: string, a: string, b: string)
    requires Occurs(m, b)
    ensures Occurs(m, a + b)
  {
    var i :| 0 <= i <= |b| && OccursAt(m, b, i);
    assert (a + b)[|a| + i..|a| + i + |m|] == b[i..i + |m|];
    assert OccursAt(m, a + b, |a| + i);
  }

  lemma OccursInItself(m: string)
    ensures Occurs(m, m)
  {
    assert m[0..|m|] == m;
    assert OccursAt(m, m, 0);
  }

  /** The key of a field line stands quoted in its text. */
  lemma KeyInFieldText(f: FieldLine)
    ensures Occurs(Quoted(f.key), FieldText(f))
  {
    OccursInItself(Quoted(f.key));
    OccursInRight(Quoted(f.key), "  ", Quoted(f.key));
    OccursInLeft(Quoted(f.key), "  " + Quoted(f.key), ": ");
    OccursInLeft(Quoted(f.key), "  " + Quoted(f.key) + ": ", f.shown);
  }

  /**
   * The format block names exactly the requested keys, one per line and in
   * order, and `score` is not one of them.
   */
  lemma FormatNamesRequestedFields(questionId: string)
    ensures |FormatLines(questionId)| == |RequestedFields|
    ensures forall k :: 0 <= k < |RequestedFields| ==> FormatLines(questionId)[k].key == RequestedFields[k]
    ensures "score" !in RequestedFields
  {
  }

  lemma {:induction false} ConcatLastThree(ps: seq<string>)
    requires |ps| >= 3
    ensures Concat(ps) == Concat(ps[..|ps| - 3]) + (ps[|ps| - 3] + ps[|ps| - 2] + ps[|ps| - 1])
  {
    var n := |ps|;
    assert ps[..n - 1][..n - 2] == ps[..n - 2];
    assert ps[..n - 2][..n - 3] == ps[..n - 3];
    assert ps[..n - 1][n - 2] == ps[n - 2] && ps[..n - 2][n - 3] == ps[n - 3];
    assert Concat(ps) == Concat(ps[..n - 1]) + ps[n - 1];
    assert Concat(ps[..n - 1]) == Concat(ps[..n - 2]) + ps[n - 2];
    assert Concat(ps[..n - 2]) == Concat(ps[..n - 3]) + ps[n - 3];
    assert Concat(ps[..n - 3]) + ps[n - 3] + ps[n - 2] + ps[n - 1]
        == Concat(ps[..n - 3]) + (ps[n - 3] + ps[n - 2] + ps[n - 1]);
  }

  lemma IdLineJoins(intro: string, key: string, id: string, tail: string)
    ensures (intro + "  " + Quoted(key) + ": \"") + id + ("\"" + tail)
         == intro + FieldText(FieldLine(key, Quoted(id))) + tail
  {
  }

  /**
   * The prompt ends with the format block rendered from its field lines:
   * the two fixed halves around the question id are that block.
   */
  lemma PromptEndsWithFormatBlock(referenceText: string, q: QuestionForAi)
    ensures FormatOpening + q.questionId + FormatClosing == FormatBlock(q.questionId)
    ensures GradingPrompt(referenceText, q) == Concat(PromptPieces(referenceText, q)[..8]) + FormatBlock(q.questionId)
  {
    IdLineJoins(FormatIntro, IdKey, q.questionId, FormatTail);
    ConcatLastThree(PromptPieces(referenceText, q));
  }

  /** Every requested key stands quoted in the fixed text of the prompt the model receives. */
  lemma RequestedKeysAppearQuoted(referenceText: string, q: QuestionForAi)
    ensures forall k :: 0 <= k < |RequestedFields| ==> Occurs(Quoted(RequestedFields[k]), GradingPrompt(referenceText, q))
  {
    var ps := PromptPieces(referenceText, q);
    var prompt := GradingPrompt(referenceText, q);
    PieceAtOffset(ps, 8);
    PieceAtOffset(ps, 10);
    assert OccursAt(FormatOpening, prompt, Offset(ps, 8));
    assert OccursAt(FormatClosing, prompt, Offset(ps, 10));
    assert Occurs(FormatOpening, prompt) && Occurs(FormatClosing, prompt);
    OpeningNamesIdKey();
    ClosingNamesOtherKeys();
    OccursWithin(Quoted(IdKey), FormatOpening, prompt);
    OccursWithin(Quoted(ValidField.key), FormatClosing, prompt);
    OccursWithin(Quoted(FeedbackField.key), FormatClosing, prompt);
    assert RequestedFields == [IdKey, ValidField.key, FeedbackField.key];
  }

  lemma OpeningNamesIdKey()
    ensures Occurs(Quoted(IdKey), FormatOpening)
  {
    var qk := Quoted(IdKey);
    OccursInItself(qk);
    OccursInRight(qk, FormatIntro + "  ", qk);
    OccursInLeft(qk, FormatIntro + "  " + qk, ": \"");
  }

  lemma ClosingNamesOtherKeys()
    ensures Occurs(Quoted(ValidField.key), FormatClosing)
    ensures Occurs(Quoted(FeedbackField.key), FormatClosing)
  {
    var tv, tf := FieldText(ValidField), FieldText(FeedbackField);
    OccursInItself(tv);
    OccursInRight(tv, LineSeparator, tv);
    OccursInLeft(tv, LineSeparator + tv, LineSeparator);
    OccursInLeft(tv, LineSeparator + tv + LineSeparator, tf);
    OccursInLeft(tv, LineSeparator + tv + LineSeparator + tf, FormatEnd);
    OccursInRight(tv, "\"", FormatTail);
    OccursInItself(tf);
    OccursInRight(tf, LineSeparator + tv + LineSeparator, tf);
    OccursInLeft(tf, LineSeparator + tv + LineSeparator + tf, FormatEnd);
    OccursInRight(tf, "\"", FormatTail);
    KeyInFieldText(ValidField);
    KeyInFieldText(FeedbackField);
    OccursWithin(Quoted(ValidField.key), tv, FormatClosing);
    OccursWithin(Quoted(FeedbackField.key), tf, FormatClosing);
  }

  /** A reply exactly in the format the prompt asks for. */
  function RequestedReply(questionId: string, isValid: bool, feedback: string): (j: Json)
    ensures j.JObj? && |j.members| == |RequestedFields|
    ensures forall k :: 0 <= k < |RequestedFields| ==> j.members[k].0 == RequestedFields[k]
  {
    JObj([("question_id", JStr(questionId)), ("is_valid", JBool(isValid)), ("feedback", JStr(feedback))])
  }

  /**
   * `feedback.score >= 50` evaluated by JavaScript on the parsed reply: a
   * number is compared, a string is first converted to a number, and a
   * missing score is `undefined`, which compares false.
   */
  function ValidityAsWritten(reply: Json): bool {
    match Member(reply, "score")
    case Some(JNum(n)) => n >= 50
    case Some(JStr(s)) =>
      (match IntOfString(Trim(s)) case Some(n) => n >= 50 case None => false)
    case _ => false
  }

  /**
   * A reply in the requested format passes `aiFeedbackSchema` yet has no
   * score, so the stored validity is false whatever `is_valid` says.
   */
  lemma RequestedReplyNeverValid(questionId: string, isValid: bool, feedback: string)
    ensures StudentSchema.ValidAiFeedback(RequestedReply(questionId, isValid, feedback))
    ensures Member(RequestedReply(questionId, isValid, feedback), "score").None?
    ensures !ValidityAsWritten(RequestedReply(questionId, isValid, feedback))
  {
    StudentSchema.FeedbackMembersReadBack(questionId, isValid, feedback);
  }

  /** The verdict the submission route works with: an id, a numeric score and a feedback text. */
  datatype Verdict = Verdict(questionId: string, score: int, feedback: string)

  /** A reply carrying a verdict, with the score the route reads. */
  function VerdictReply(v: Verdict): Json {
    JObj([("question_id", JStr(v.questionId)), ("score", JNum(v.score)), ("feedback", JStr(v.feedback))])
  }

  /** Reads a verdict from a reply that carries a string id, a numeric score and a string feedback. */
  function ReadVerdict(reply: Json): Option<Verdict> {
    match (Member(reply, "question_id"), Member(reply, "score"), Member(reply, "feedback"))
    case (Some(JStr(q)), Some(JNum(n)), Some(JStr(f))) => Some(Verdict(q, n, f))
    case _ => None
  }

  /** A verdict reply reads back as its verdict, and then the route's comparison is the pass mark of 50. */
  lemma VerdictReplyRoundTrip(v: Verdict)
    ensures ReadVerdict(VerdictReply(v)) == Some(v)
    ensures ValidityAsWritten(VerdictReply(v)) <==> v.score >= 50
  {
    var ms := [("question_id", JStr(v.questionId)), ("score", JNum(v.score)), ("feedback", JStr(v.feedback))];
    DistinctKeysReadBack(ms, 0);
    DistinctKeysReadBack(ms, 1);
    DistinctKeysReadBack(ms, 2);
  }

  /** On every reply a verdict can be read from, the route's comparison decides by that verdict's score. */
  lemma ReadVerdictDecidesValidity(reply: Json, v: Verdict)
    requires ReadVerdict(reply) == Some(v)
    ensures ValidityAsWritten(reply) <==> v.score >= 50
  {
  }

  /** No verdict can be read from a reply in the requested format. */
  lemma RequestedReplyHasNoVerdict(questionId: string, isValid: bool, feedback: string)
    ensures ReadVerdict(RequestedReply(questionId, isValid, feedback)).None?
  {
    StudentSchema.FeedbackMembersReadBack(questionId, isValid, feedback);
  }
}
