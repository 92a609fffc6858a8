/** The student-facing schemas: entry data, one answer submission, and the feedback object the AI analysis returns. */
module StudentSchema {
  import opened Wrappers
  import opened Text
  import opened JsonValue

  datatype StudentAccess = StudentAccess(code: string, studentName: string)

  /** `studentAccessSchema`: a non-empty code and a non-empty first name. */
  predicate ValidStudentAccess(a: StudentAccess) {
    NonEmpty(a.code) && NonEmpty(a.studentName)
  }

  predicate IsHexDigit(c: char) {
    ('0' <= c <= '9') || ('a' <= c <= 'f') || ('A' <= c <= 'F')
  }

  predicate AllHex(s: string) {
    forall k :: 0 <= k < |s| ==> IsHexDigit(s[k])
  }

  predicate IsHyphenPosition(k: int) {
    k == 8 || k == 13 || k == 18 || k == 23
  }

  /**
   * `z.string().uuid()`, as the textual layout of section 3 of RFC 4122:
   * 36 characters, hyphens at offsets 8, 13, 18 and 23, hexadecimal digits
   * of either case everywhere else.
   */
  predicate IsUuid(s: string) {
    && |s| == 36
    && forall k :: 0 <= k < 36 ==> if IsHyphenPosition(k) then s[k] == '-' else IsHexDigit(s[k])
  }

  /** Five groups of hexadecimal digits joined by hyphens. */
  function JoinGroups(a: string, b: string, c: string, d: string, e: string): string {
    a + "-" + b + "-" + c + "-" + d + "-" + e
  }

  /** Groups of 8, 4, 4, 4 and 12 hexadecimal digits joined by hyphens form a UUID. */
  lemma GroupsFormUuid(a: string, b: string, c: string, d: string, e: string)
    requires |a| == 8 && |b| == 4 && |c| == 4 && |d| == 4 && |e| == 12
    requires AllHex(a) && AllHex(b) && AllHex(c) && AllHex(d) && AllHex(e)
    ensures IsUuid(JoinGroups(a, b, c, d, e))
  {
    var s := JoinGroups(a, b, c, d, e);
    forall k | 0 <= k < 36
      ensures if IsHyphenPosition(k) then s[k] == '-' else IsHexDigit(s[k])
    {
      if k < 8 { assert s[k] == a[k]; }
      else if 8 < k < 13 { assert s[k] == b[k - 9]; }
      else if 13 < k < 18 { assert s[k] == c[k - 14]; }
      else if 18 < k < 23 { assert s[k] == d[k - 19]; }
      else if 23 < k { assert s[k] == e[k - 24]; }
    }
  }

  /** Conversely every UUID is its five hexadecimal groups joined by hyphens. */
  lemma UuidSplitsIntoGroups(s: string)
    requires IsUuid(s)
    ensures AllHex(s[..8]) && AllHex(s[9..13]) && AllHex(s[14..18]) && AllHex(s[19..23]) && AllHex(s[24..])
    ensures s == JoinGroups(s[..8], s[9..13], s[14..18], s[19..23], s[24..])
  {
    assert AllHex(s[..8]) by { forall k | 0 <= k < 8 ensures IsHexDigit(s[..8][k]) { assert !IsHyphenPosition(k); } }
    assert AllHex(s[9..13]) by { forall k | 0 <= k < 4 ensures IsHexDigit(s[9..13][k]) { assert !IsHyphenPosition(k + 9); } }
    assert AllHex(s[14..18]) by { forall k | 0 <= k < 4 ensures IsHexDigit(s[14..18][k]) { assert !IsHyphenPosition(k + 14); } }
    assert AllHex(s[19..23]) by { forall k | 0 <= k < 4 ensures IsHexDigit(s[19..23][k]) { assert !IsHyphenPosition(k + 19); } }
    assert AllHex(s[24..]) by { forall k | 0 <= k < 12 ensures IsHexDigit(s[24..][k]) { assert !IsHyphenPosition(k + 24); } }
    assert IsHyphenPosition(8) && IsHyphenPosition(13) && IsHyphenPosition(18) && IsHyphenPosition(23);
    var j := JoinGroups(s[..8], s[9..13], s[14..18], s[19..23], s[24..]);
    assert |j| == 36;
    forall k | 0 <= k < 36 ensures j[k] == s[k] {
      if k < 8 { assert j[k] == s[..8][k]; }
      else if 8 < k < 13 { assert j[k] == s[9..13][k - 9]; }
      else if 13 < k < 18 { assert j[k] == s[14..18][k - 14]; }
      else if 18 < k < 23 { assert j[k] == s[19..23][k - 19]; }
      else if 23 < k { assert j[k] == s[24..][k - 24]; }
    }
  }

  /** The body of `POST /api/submit`. */
  datatype SingleAnswer = SingleAnswer(
    subjectId: string,
    studentName: string,
    submissionId: Option<string>,
    questionId: string,
    studentAnswer: string)

  /** `singleAnswerSchema`: UUID ids (the submission id may be absent), a non-empty name and answer. */
  predicate ValidSingleAnswer(a: SingleAnswer) {
    && IsUuid(a.subjectId)
    && NonEmpty(a.studentName)
    && (a.submissionId.Some? ==> IsUuid(a.submissionId.value))
    && IsUuid(a.questionId)
    && NonEmpty(a.studentAnswer)
  }

  /**
   * Non-emptiness is by length only: with valid ids and a non-empty name, an
   * answer made only of whitespace passes the schema, though it trims to nothing.
   */
  lemma BlankAnswerPassesSchema(a: SingleAnswer)
    requires IsUuid(a.subjectId) && IsUuid(a.questionId)
    requires a.submissionId.Some? ==> IsUuid(a.submissionId.value)
    requires a.studentName != [] && a.studentAnswer != [] && AllWhitespace(a.studentAnswer)
    ensures ValidSingleAnswer(a) && Trim(a.studentAnswer) == []
  {
    NonEmptyIsNotEmpty(a.studentName);
    NonEmptyIsNotEmpty(a.studentAnswer);
  }

  /** `aiFeedbackSchema`: an object whose `question_id` is a string, `is_valid` a boolean, `feedback` a string. */
  predicate ValidAiFeedback(j: Json) {
    && j.JObj?
    && (var q := Member(j, "question_id"); q.Some? && q.value.JStr?)
    && (var v := Member(j, "is_valid"); v.Some? && v.value.JBool?)
    && (var f := Member(j, "feedback"); f.Some? && f.value.JStr?)
  }

  /** Any three such members make a valid feedback object; empty strings are allowed. */
  lemma FeedbackObjectAccepted(q: string, valid: bool, fb: string)
    ensures ValidAiFeedback(JObj([("question_id", JStr(q)), ("is_valid", JBool(valid)), ("feedback", JStr(fb))]))
    ensures ValidAiFeedback(JObj([("question_id", JStr("")), ("is_valid", JBool(false)), ("feedback", JStr(""))]))
  {
    FeedbackMembersReadBack(q, valid, fb);
    FeedbackMembersReadBack("", false, "");
  }

  lemma FeedbackMembersReadBack(q: string, valid: bool, fb: string)
    ensures var j := JObj([("question_id", JStr(q)), ("is_valid", JBool(valid)), ("feedback", JStr(fb))]);
      && Member(j, "question_id") == Some(JStr(q))
      && Member(j, "is_valid") == Some(JBool(valid))
      && Member(j, "feedback") == Some(JStr(fb))
  {
    var ms := [("question_id", JStr(q)), ("is_valid", JBool(valid)), ("feedback", JStr(fb))];
    DistinctKeysReadBack(ms, 0);
    DistinctKeysReadBack(ms, 1);
    DistinctKeysReadBack(ms, 2);
  }

  /** A missing or mistyped member, or a value that is not an object, is rejected. */
  lemma FeedbackObjectRejected(j: Json)
    requires !j.JObj? || Member(j, "is_valid").None? || Member(j, "is_valid") == Some(JStr("true"))
    ensures !ValidAiFeedback(j)
  {
  }
}
