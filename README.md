# Makana: grading and session logic, modelled in Dafny

Makana is a small web application for law classes. A teacher creates a
*subject*: a reference text, four questions, and a generated access code of
the form `word-word-NN`. A student enters the code and a first name, then
answers the questions one at a time. Each answer is sent to a language model
for grading and is stored with the model's feedback.

This project models the decision logic around that flow:

- the `POST /api/submit` route;
- the grading prompt and request of `analyzeAnswer`;
- the `POST /api/subjects` route and its code generator;
- the zod input schemas;
- the state handlers of the student answer form, the admin prompt test
  panel and the entry page.

The store is an in-memory class whose inserts only append. The model call,
`JSON.parse`, `Math.random`, the store's generated ids and its insert errors
are inputs to the operations.

Modules, one per source file, plus four shared helpers:

| module | file | models |
|---|---|---|
| `Wrappers`, `Text`, `JsonValue`, `Badges` | wrappers.dfy, text.dfy, json_value.dfy, badges.dfy | `Option`, JavaScript `trim`/`toLowerCase`/`length`/integer rendering, parsed JSON values and property reads, badge colours |
| `PromptSchema`, `StudentSchema`, `SubjectSchema` | schemas_*.dfy | `src/lib/schemas/*.ts` |
| `CodeGenerator` | code_generator.dfy | `src/lib/code-generator.ts` |
| `Gemini` | gemini.dfy | `src/lib/gemini.ts` |
| `Store` | store.dfy | the four tables and the `.single()` lookups the routes use |
| `SubmitRoute` | submit_route.dfy | `src/app/api/submit/route.ts` |
| `SubjectsRoute` | subjects_route.dfy | `src/app/api/subjects/route.ts` (`POST`) |
| `StudentAnswerForm` | answer_form.dfy | `src/components/student/answer-form.tsx` |
| `PromptTestPanel` | prompt_test_panel.dfy | `src/components/admin/prompt-test-panel.tsx` |
| `HomePage` | home_page.dfy | `src/app/page.tsx` |

### What the code does

- The grading prompt asks for a boolean `is_valid`, with no score. The
  submit route nevertheless reads `feedback.score`. This mismatch is
  recorded under "Findings".
- The grading prompt is one fixed template in `analyzeAnswer`. There is no
  `{{placeholder}}` substitution, and no stored prompt is read while grading.
- Subjects have a `prompt_id` column (src/app/api/prompts/[id]/route.ts:79-83),
  and the subject form registers a `prompt_id` field
  (src/components/admin/subject-form.tsx:135). But `subjectFormSchema` has no
  such field, so the parsed body drops it. The subject insert omits it, and
  `analyzeAnswer` never reads it.
- `analyzeAnswer` returns the parsed reply without validating it.

### Inputs that stand for I/O

- `SubmitRoute.Submit` takes:
  - `grading`, which is the verdict or the error `analyzeAnswer` throws;
  - `newSubmissionId`, the id the store would give a new submission;
  - `faults`, which says whether each checked insert fails.
- `SubjectsRoute.CreateSubject` takes:
  - `authenticated`;
  - `draws`, the integers `Math.random` is turned into;
  - the store's new ids;
  - the insert error messages.
- `Gemini.AnalyzeAnswer` takes:
  - `generate`, what the provider answers to a request;
  - `parse`, which is `JSON.parse` (None means it throws).
- Client handlers take the server's reply as a parameter. `HomePage` takes
  the query-value encoder as a parameter.

## Model

| member | source | states |
|---|---|---|
| Text.LeadingBlanks | src/app/page.tsx:26 | counts the whitespace run at the start: every counted character is ECMAScript whitespace and the next one is not |
| Text.Trim | src/app/page.tsx:26 | `trim` keeps a contiguous middle of the input that neither starts nor ends with ECMAScript whitespace, and drops only whitespace on each side; the result is empty iff the input is all whitespace |
| Text.TrimIdempotent | src/app/page.tsx:26-32 | trimming twice is trimming once |
| Text.ToLower | src/app/page.tsx:32 | `ToLower` keeps the length, maps each character with `LowerChar` (A to Z become lowercase, everything else is kept) and leaves no capital A to Z |
| Text.LowerOfLowercase | src/app/page.tsx:32 | a string without capitals is its own lower case |
| Text.Utf16Length | src/lib/schemas/prompt.ts:11 | zod counts UTF-16 code units: between the number of characters and twice that |
| Text.NonEmptyIsNotEmpty | src/lib/schemas/prompt.ts:12 | `min(1)` holds exactly of the non-empty strings, blanks included |
| Text.NatToString | src/lib/code-generator.ts:7 | a number renders as a non-empty digit string without a leading zero, as a template literal writes numbers below 10^21 |
| Text.NatToStringRoundTrip | src/lib/code-generator.ts:7 | reading the rendered digits gives the number back |
| Text.TwoDigitRendering | src/lib/code-generator.ts:6-7 | a number from 10 to 99 renders as exactly two digits, the first not `0` |
| Text.IntToString | src/components/student/answer-form.tsx:52-54 | an integer renders in canonical decimal form, with a leading minus exactly when it is negative; this is what a template literal writes for magnitudes below 10^21 |
| Text.IntToStringRoundTrip | src/components/student/answer-form.tsx:52-54 | the model's rendering of any integer reads back as itself (for magnitudes below 10^21 that rendering is the template literal's) |
| Text.SplitJoined | src/app/page.tsx:32 | a separator-free part joined to any rest by the separator splits back into the two |
| JsonValue.LastIndex | src/lib/gemini.ts:60 | the position of the last member with the key: that member has it and no later one does, or -1 when none has it |
| JsonValue.LastBinding | src/lib/gemini.ts:60 | a property read finds nothing iff the key is absent; otherwise it finds the last binding of the key, as `JSON.parse` keeps the last duplicate |
| JsonValue.DistinctKeysReadBack | src/lib/gemini.ts:60 | an object with distinct keys reads back each of its bindings |
| PromptSchema.SupportedModelsAreExactlyFour | src/lib/schemas/prompt.ts:3-8 | `IsSupportedModel` accepts exactly the four listed, pairwise different model names |
| PromptSchema.NameLengthBounds | src/lib/schemas/prompt.ts:10-14 | with a non-empty prompt and a supported model, a name of 1 to 50 characters is valid, and an empty name or one over 100 characters is not (`ValidPromptForm` is the exact 1..100 UTF-16 bound) |
| PromptSchema.BlankTestPayloadAccepted | src/lib/schemas/prompt.ts:18-25 | `ValidPromptTest` and `ValidPromptForm` check length only: with supported models, any non-empty whitespace-only texts (and a whitespace name of up to 50 characters) pass, though they trim to nothing |
| StudentSchema.GroupsFormUuid | src/lib/schemas/student.ts:11-14 | five hex groups of lengths 8-4-4-4-12 joined by hyphens form a UUID |
| StudentSchema.UuidSplitsIntoGroups | src/lib/schemas/student.ts:11-14 | conversely, every string `IsUuid` accepts is such a join of five hex groups |
| StudentSchema.ValidStudentAccess | src/lib/schemas/student.ts:3-6 | definition: a non-empty code and a non-empty first name |
| StudentSchema.ValidSingleAnswer | src/lib/schemas/student.ts:10-16 | definition: UUID subject and question ids, an optional UUID submission id, a non-empty name and answer |
| StudentSchema.ValidAiFeedback | src/lib/schemas/student.ts:20-24 | definition: an object with a string `question_id`, a boolean `is_valid` and a string `feedback`, read as `JSON.parse` binds them |
| StudentSchema.BlankAnswerPassesSchema | src/lib/schemas/student.ts:10-16 | with valid ids and a non-empty name, any non-empty whitespace-only answer passes the schema although it trims to nothing |
| StudentSchema.FeedbackObjectAccepted | src/lib/schemas/student.ts:20-24 | an object with a string `question_id`, a boolean `is_valid` and a string `feedback` is valid, empty strings included |
| StudentSchema.FeedbackObjectRejected | src/lib/schemas/student.ts:20-24 | a non-object, a missing `is_valid`, or one given as a string is rejected |
| SubjectSchema.ValidQuestion | src/lib/schemas/subject.ts:3-8 | definition: a non-empty question text and non-empty guidelines |
| SubjectSchema.ValidSubjectForm | src/lib/schemas/subject.ts:10-15 | definition: a non-empty reference text and exactly four valid questions |
| SubjectSchema.QuestionCountIsExact | src/lib/schemas/subject.ts:10-15 | any number of questions other than 4 makes the form invalid |
| SubjectSchema.OneEmptyQuestionRejects | src/lib/schemas/subject.ts:3-8 | one question with an empty text invalidates the form |
| CodeGenerator.CodeNumber | src/lib/code-generator.ts:6 | the number lies in 10..99 |
| CodeGenerator.GenerateCode | src/lib/code-generator.ts:3-8 | the code starts with the first word, has length word1 + word2 + 4, and ends with a hyphen and two digits, the first not `0`; `ValidDraw` keeps both indices within the word list |
| CodeGenerator.ParseGenerated | src/lib/code-generator.ts:3-8 | with hyphen-free words, a generated code parses back into its two words and its number |
| CodeGenerator.ParsedIsCode | src/lib/code-generator.ts:3-8 | whatever parses is two hyphen-free words and a number 10..99, rendered as a code |
| CodeGenerator.TwoDigitsRoundTrip | src/lib/code-generator.ts:6-7 | two digits not starting with `0` are the rendering of a number 10..99 |
| Gemini.GradingPrompt | src/lib/gemini.ts:22-49 | definition: the prompt is the template's parts joined with nothing added |
| Gemini.PromptPieces | src/lib/gemini.ts:22-49 | the template has eleven parts: the reference text, question text, guidelines, answer and question id at the odd positions, and the question id between the two halves of the JSON-format block |
| Gemini.PromptLayout | src/lib/gemini.ts:22-49 | every part of the template stands verbatim at its offset in the prompt, in order |
| Gemini.QuestionIdIsQuoted | src/lib/gemini.ts:44-49 | the question id is written between the quotes of the `"question_id": "…"` line |
| Gemini.PromptDeterminesValues | src/lib/gemini.ts:22-49 | nothing is escaped or lost: equal prompts from values of equal lengths come from equal values |
| Gemini.BuildRequest | src/lib/gemini.ts:51-57 | the request names `gemini-2.0-flash`, asks for `application/json`, and carries the prompt as its only content |
| Gemini.GradingRequest | src/lib/gemini.ts:51-57 | definition: the request `analyzeAnswer` sends, the grading prompt wrapped by `BuildRequest` |
| Gemini.GradingModelIsSupported | src/lib/gemini.ts:52 | the grading model is one of the supported models |
| Gemini.ReplyText | src/lib/gemini.ts:59 | an absent reply text becomes "" |
| Gemini.AnalyzeAnswer | src/lib/gemini.ts:18-61 | `analyzeAnswer` returns iff the call answers and its text parses, and then returns the parsed value itself |
| Gemini.AbsentTextThrows | src/lib/gemini.ts:59-60 | an absent text makes `analyzeAnswer` throw, since "" does not parse |
| Gemini.ParsedValueIsNotValidated | src/lib/gemini.ts:60 | whatever the reply text parses to is returned unchanged, including values the feedback schema refuses, such as a bare number |
| Gemini.FormatNamesRequestedFields | src/lib/gemini.ts:44-49 | the lines of the format block carry exactly the requested keys, one per line and in order, and `score` is not among them |
| Gemini.PromptEndsWithFormatBlock | src/lib/gemini.ts:44-49 | the fixed text around the question id, with the id, is the format block rendered from its lines, and the prompt ends with it |
| Gemini.RequestedKeysAppearQuoted | src/lib/gemini.ts:44-49 | each requested key stands between double quotes in the prompt sent to the model |
| Gemini.RequestedReply | src/lib/gemini.ts:12-16 | the requested reply has exactly the keys the format block names, in that order |
| Gemini.RequestedReplyNeverValid | src/app/api/submit/route.ts:96 | a reply in the requested format passes the feedback schema and has no `score`, so `score >= 50` is false for it |
| Gemini.VerdictReplyRoundTrip | src/app/api/submit/route.ts:96 | a reply that carries a score reads back as its verdict, and the route's comparison is then exactly `score >= 50` |
| Gemini.ReadVerdictDecidesValidity | src/app/api/submit/route.ts:96 | `score >= 50` on any reply a verdict reads from is that verdict's pass mark |
| Gemini.RequestedReplyHasNoVerdict | src/lib/gemini.ts:44-49 | no verdict can be read from a reply in the requested format |
| Store.CountEq | src/app/api/submit/route.ts:20-28 | the number of subjects holding a value in a column is at most the row count, and zero iff no row holds it |
| Store.SubjectById | src/app/api/submit/route.ts:20-28 | `.single()` on the id yields a row iff exactly one subject has that id, and the row has it |
| Store.SharedCodeLooksFree | src/app/api/subjects/route.ts:47-52 | a code two subjects already share is reported free by the `.single()` lookup |
| Store.QuestionsOf | src/app/api/submit/route.ts:22 | the embedded questions are exactly the rows of that subject: every one of them and no other, each as often as in the table (the order is stated by `Store.QuestionsOfSplits`) |
| Store.QuestionsOfSplits | src/app/api/submit/route.ts:22 | embedding distributes over appended tables: the questions of `a + b` are those of `a` followed by those of `b` |
| Store.Database.InsertSubmission | src/app/api/submit/route.ts:45-52 | appends one submission row and touches no other table |
| Store.Database.InsertAnswer | src/app/api/submit/route.ts:91-97 | appends one answer row and touches no other table |
| Store.Database.InsertSubject | src/app/api/subjects/route.ts:58-62 | appends one subject row and touches no other table |
| Store.Database.InsertQuestions | src/app/api/subjects/route.ts:79-81 | appends the question rows in order and touches no other table |
| SubmitRoute.FirstMatch | src/app/api/submit/route.ts:31-33 | the position of the first question with the id from a start on: it has the id and none before it does, or -1 when none has it |
| SubmitRoute.FindQuestion | src/app/api/submit/route.ts:31-33 | `find` returns a question with the id, the first one when several have it, and nothing iff none has it |
| SubmitRoute.LookUp | src/app/api/submit/route.ts:8-39 | the request stops as invalid iff the schema refuses it; with no subject iff the id lookup misses; with no question iff none of that subject's questions has the id; otherwise it finds that subject and question |
| SubmitRoute.LookupError | src/app/api/submit/route.ts:10-15 | an invalid body answers 400, a missing subject or question 404 |
| SubmitRoute.Submit | src/app/api/submit/route.ts:7-112 | 400/404 write nothing; without a submission id exactly one submission is appended and its id used, with one none is appended; a failed submission insert answers 500 with no answer row; a failed `analyzeAnswer` appends the fixed message with null validity (unless that unchecked insert fails) and answers 200 with a null score and the request's question id; a verdict appends one row, valid iff `score >= 50`, and echoes the verdict's question id; a failed answer insert then answers 500 and keeps the new submission; every path only appends |
| SubmitRoute.ResubmissionKeepsBothRows | src/app/api/submit/route.ts:91-97 | answering the same question twice in a session appends a second row after the first, and adds no submission |
| SubjectsRoute.FirstFreeAttemptIsFirst | src/app/api/subjects/route.ts:44-55 | an attempt that every earlier one hit, and that is free or the tenth, is the attempt the search settles on |
| SubjectsRoute.FirstFreeAttempt | src/app/api/subjects/route.ts:44-55 | the attempt the loop stops at is the first below ten whose code the lookup misses, or ten; all earlier codes hit |
| SubjectsRoute.ChooseCode | src/app/api/subjects/route.ts:44-55 | the loop ends at that attempt after at most 10 checks and at most 11 generated codes; a code kept before the tenth check missed at its check, the code kept after ten hits is unchecked |
| SubjectsRoute.ExhaustedSearchReusesTakenCode | src/app/api/subjects/route.ts:46-55 | when every draw gives the code a subject already holds, the new subject gets that taken code |
| SubjectsRoute.NumberingPreservesOrder | src/app/api/subjects/route.ts:72-77 | `NumberQuestions`: the i-th form question becomes the row with display order i + 1, the new subject's id and its texts, so orders strictly increase |
| SubjectsRoute.CreateSubject | src/app/api/subjects/route.ts:21-91 | unauthenticated answers 401 and an invalid body 400, both with no writes; a failed subject insert answers 500 with no writes; otherwise the subject row holds the text and the chosen code only; a failed question insert answers 500 and leaves the subject; success appends the numbered questions and answers 201 with the subject |
| SubjectsRoute.CreatedSubjectHasItsQuestions | src/app/api/subjects/route.ts:72-81 | for a fresh subject id, the questions the store embeds for the new subject are exactly the numbered form questions, in form order |
| StudentAnswerForm.ScoreBadge | src/components/student/answer-form.tsx:51-55 | green iff score > 80, orange iff 50 < score <= 80, red iff score <= 50; the caption is the score, in canonical decimal form (no leading zero, a minus only when negative), followed by `%` |
| StudentAnswerForm.ScoreBadgeIsMonotone | src/components/student/answer-form.tsx:51-55 | a higher score never gets a lower band |
| StudentAnswerForm.ValidAnswerWithRedBadge | src/components/student/answer-form.tsx:53 | the submit route's cutoff (`IsPassingScore`, at 50) and the badge differ: 50 is stored valid and shown red |
| StudentAnswerForm.SortByDisplayOrder | src/components/student/answer-form.tsx:62-64 | the shown questions are sorted by display order and are a permutation of the input |
| StudentAnswerForm.SortKeepsSortedOrder | src/components/student/answer-form.tsx:62-64 | questions already in display order are shown as they are |
| StudentAnswerForm.CreatedQuestionsShowInFormOrder | src/components/student/answer-form.tsx:62-64 | the questions of a newly created subject are shown in the order the teacher entered them |
| StudentAnswerForm.AllPerfect | src/components/student/answer-form.tsx:135-137 | definition: more than one question, and every question's stored score is 100 |
| StudentAnswerForm.CelebrationFor | src/components/student/answer-form.tsx:134-143 | massive iff score is 100, there is more than one question and every question's stored score is 100; small iff score is 100 and not all are; none otherwise |
| StudentAnswerForm.SingleQuestionIsNeverMassive | src/components/student/answer-form.tsx:136 | with one question the celebration is never massive |
| StudentAnswerForm.LastPerfectScoreIsMassive | src/components/student/answer-form.tsx:134-139 | the last question to reach 100, when all others have, sets off the massive celebration |
| StudentAnswerForm.AnswerForm.UpdateAnswer | src/components/student/answer-form.tsx:75-77 | replaces the answer of one question only |
| StudentAnswerForm.AnswerForm.StartEditing | src/components/student/answer-form.tsx:191-193 | sets that question's editing flag, which shows its answer box |
| StudentAnswerForm.AnswerForm.CancelEditing | src/components/student/answer-form.tsx:232-237 | removes that question's editing flag, back to its feedback when there is one |
| StudentAnswerForm.AnswerForm.HandleSubmitAnswer | src/components/student/answer-form.tsx:79-152 | a blank answer only sets that question's error; otherwise the trimmed answer is sent with the known submission id; success stores the reply under that key only, clears its error and editing flag, keeps a known submission id or captures the new one, and celebrates by `CelebrationFor`; failure sets the retry message; loading is cleared after any request |
| StudentAnswerForm.KnownSubmissionIdIsKept | src/components/student/answer-form.tsx:115-117 | a known submission id survives every later submit |
| PromptTestPanel.ScoreBadge | src/components/admin/prompt-test-panel.tsx:21-25 | green iff score >= 70, orange iff 30 <= score < 70, red iff score < 30; the caption is the score, in canonical decimal form (no leading zero, a minus only when negative), followed by `%` |
| PromptTestPanel.ScoreBadgeIsMonotone | src/components/admin/prompt-test-panel.tsx:21-25 | a higher score never gets a lower band |
| PromptTestPanel.BandsDifferFromStudentBadge | src/components/admin/prompt-test-panel.tsx:22-23 | the admin and student badges band 75 and 40 differently |
| PromptTestPanel.ErrorMessage | src/components/admin/prompt-test-panel.tsx:60 | the server's message when present and non-empty, exactly `DefaultTestError` otherwise; never empty |
| PromptTestPanel.TestPanel.Edit | src/components/admin/prompt-test-panel.tsx:84-118 | typing replaces one input and nothing else |
| PromptTestPanel.TestPanel.HandleTest | src/components/admin/prompt-test-panel.tsx:39-71 | sends the prompt, model and four inputs; success shows `{score, feedback}` with no error; a non-OK reply shows `ErrorMessage` and a failed request the default, both with no result; loading ends false |
| PromptTestPanel.CanTestMatchesSchema | src/components/admin/prompt-test-panel.tsx:73-74 | `CanTest` (all five texts non-empty, untrimmed; `TestEnabled` adds "not loading", line 125) together with a supported model holds iff the test schema accepts the payload |
| HomePage.CodeSegment | src/app/page.tsx:32 | the path segment is the trimmed code lowercased: same length as the trimmed code, no capitals |
| HomePage.EntryPathRoundTrip | src/app/page.tsx:31-32 | `EntryPath` is `/sujet/`, the segment, `?` and the one parameter `prenom` with the encoded trimmed name; it splits back into those when the code has no `?` |
| HomePage.TypedCodeIsKept | src/app/page.tsx:32 | a code typed as generated (lowercase, no surrounding blanks) is the segment itself |
| HomePage.CodeSegmentIsStable | src/app/page.tsx:32 | normalising a segment again changes nothing |
| HomePage.EntryForm.HandleSubmit | src/app/page.tsx:22-33 | clears the error; navigates iff both trimmed fields are non-empty, to `EntryPath`; otherwise sets the error |

## Findings

| source | as written | input that shows it | evidently intended | confidence | as-written member | corrected member |
|---|---|---|---|---|---|---|
| src/app/api/submit/route.ts:96 with src/lib/gemini.ts:44-49 | the route stores `is_valid: feedback.score >= 50`, but the prompt asks for `{question_id, is_valid, feedback}` with no score | the reply `{"question_id": "q", "is_valid": true, "feedback": "bien"}`: `score` is undefined, so the stored validity is false and the response score is undefined | the reply carries a numeric score and validity follows it | not executed; the mismatch follows from the two texts | Gemini.ValidityAsWritten, Gemini.RequestedReplyNeverValid | Gemini.ReadVerdict, Gemini.VerdictReplyRoundTrip, Gemini.ReadVerdictDecidesValidity |

The rest of the model grades with `Gemini.Verdict`, the reply that carries a
score. `SubmitRoute.Submit` takes `Graded(verdict)` as its grading input.

## Left out

- Supabase itself is not modelled: the query language, row-level security, atomicity, ordering by `created_at`, and the auth call. The store is four append-only sequences; authentication is a boolean.
- The model call and the PDF extraction are foreign I/O. The model's answer is an input.
- `JSON.parse` is an input function. JsonValue.Json has integer numbers only, so a fractional score is not modelled.
- Text.IntToString: the model's integers are unbounded, while scores are JavaScript doubles. JavaScript writes magnitudes of 10^21 and above in exponent form (`1e+21`), and `JSON.parse` holds integers beyond 2^53 inexactly (9007199254740993 is read as 9007199254740992). The model writes and keeps every integer exactly, so both `ScoreBadge` captions and Text.IntToStringRoundTrip match JavaScript only below those bounds.
- `Math.random` is replaced by the integers it is turned into (`CodeDraw`). The French word list is a parameter.
- Gemini.ValidityAsWritten: a string score is read only as an optional `-` followed by decimal digits, after trimming. JavaScript's number conversion also accepts a leading `+` (`"+50"`), fractions (`"50.5"`), exponents (`"5e1"`), hexadecimal, octal and binary literals (`"0x32"`) and `"Infinity"`; such strings can compare true in JavaScript but always compare false here.
- Gemini.ValidityAsWritten: an array whose single element converts to 50 or more (`[60]`, `["60"]`) compares true in JavaScript and false here. Booleans, null, objects and blank strings compare false in both.
- Gemini.RequestedReply: the model proves that the format block names exactly `question_id`, `is_valid` and `feedback`, one per line, and that each stands quoted in the prompt. It does not prove that the word `score` appears nowhere in the preamble or the headings.
- Text.ToLower: only A to Z are lowercased. `toLowerCase` beyond Basic Latin is not modelled.
- HomePage.EntryPath: the application/x-www-form-urlencoded serializer of the URL standard is an input. The name's encoding is therefore abstract.
- Response bodies of 400 errors: the schema's flattened error report is a fixed placeholder string.
- SubmitRoute.Submit: a request body that is not JSON (`request.json()` throwing) is not modelled. The body arrives already decoded.
- SubjectsRoute.CreateSubject: likewise, a request body that is not JSON (`request.json()` throwing at src/app/api/subjects/route.ts:32) is not modelled. The body arrives already decoded.
- SubmitRoute.Submit: a successful submission insert that yields no row is merged with a failed insert.
- SubmitRoute.Submit: a reply that parses to JSON `null` makes `feedback.feedback` throw at src/app/api/submit/route.ts:95, outside the `try`. The framework then answers 500 with no answer row, and a new submission stays. The model's `Grading` has no such outcome.
- SubmitRoute.Submit: a read error of the subject lookup answers 404 like a miss. The model has no read errors, only misses.
- SubjectsRoute.ChooseCode: a failed code lookup is taken as a free code, like a miss. The model has no lookup errors.
- StudentAnswerForm.AnswerForm.HandleSubmitAnswer: each submit is one atomic step. Async interleaving is not modelled, including the stale `feedbacks` closure of two overlapping submits. An undecodable OK body is merged with a failed request.
- Confetti animation, frame timing, Markdown rendering and all JSX are left out. The form's visibility is kept as the predicate `ShowsForm`.
- StudentAnswerForm.SortByDisplayOrder: the sort is proved sorted and a permutation only. Stability among equal display orders is not stated.
- PromptTestPanel.TestPanel.HandleTest: the reply's `score` is taken as an integer. Its `error` is taken already converted by `toString()`.
- The `GET` handler of the subjects route is left out. So are `src/app/api/prompt-test/route.ts`, the admin pages, tables and dialogs, `feedback-display.tsx` and the PDF helper. `runTestEvaluation` is not part of this model.
- `console.error` logging is left out.
