/**
 * The entry page: the student types a subject code and a first name and is
 * sent to `/sujet/<code>?<query>`. The query serializer of the URL standard
 * (application/x-www-form-urlencoded) is an input, so the name's encoding is
 * abstract.
 */
module HomePage {
  import opened Wrappers
  import opened Text

  const FillAllFields: string := "Veuillez remplir tous les champs"
  const SubjectPrefix: string := "/sujet/"
  const NameParameter: string := "prenom="

  /** The code as it appears in the path: trimmed and lowercased, and not encoded. */
  function CodeSegment(code: string): (seg: string)
    ensures HasNoUpperAscii(seg) && |seg| == |Trim(code)|
  {
    ToLower(Trim(code))
  }

  /** The target: the path with the code, then the one parameter `prenom` holding the trimmed, encoded name. */
  function EntryPath(code: string, name: string, encode: string -> string): string {
    SubjectPrefix + CodeSegment(code) + "?" + (NameParameter + encode(Trim(name)))
  }

  /** Reads a target back: the code after the prefix up to the first `?`, and the query after it. */
  function ReadEntryPath(target: string): Option<(string, string)> {
    if |target| < |SubjectPrefix| || target[..|SubjectPrefix|] != SubjectPrefix then None
    else SplitAtFirst(target[|SubjectPrefix|..], '?')
  }

  /** When the code has no `?`, the target splits back into its path segment and its query. */
  lemma EntryPathRoundTrip(code: string, name: string, encode: string -> string)
    requires '?' !in CodeSegment(code)
    ensures ReadEntryPath(EntryPath(code, name, encode))
         == Some((CodeSegment(code), NameParameter + encode(Trim(name))))
  {
    var seg := CodeSegment(code);
    var query := NameParameter + encode(Trim(name));
    JoinedAfterPrefix(SubjectPrefix, seg, query);
    SplitJoined(seg, '?', query);
  }

  lemma JoinedAfterPrefix(prefix: string, seg: string, query: string)
    ensures var target := prefix + seg + "?" + query;
      && target[..|prefix|] == prefix && target[|prefix|..] == seg + ['?'] + query
  {
    assert prefix + seg + "?" + query == prefix + (seg + ['?'] + query);
  }

  /** A code typed exactly as generated (lowercase, no surrounding blanks) lands on that code. */
  lemma TypedCodeIsKept(code: string)
    requires HasNoUpperAscii(code)
    requires code != [] ==> !IsJsWhitespace(code[0]) && !IsJsWhitespace(code[|code| - 1])
    ensures CodeSegment(code) == code
  {
    TrimmedIsFixed(code);
    LowerOfLowercase(code);
  }

  /** The segment does not depend on case or padding: retyping it gives the same path. */
  lemma CodeSegmentIsStable(code: string)
    ensures CodeSegment(CodeSegment(code)) == CodeSegment(code)
  {
    var seg := CodeSegment(code);
    var t := Trim(code);
    assert |seg| == |t|;
    if seg != [] {
      assert seg[0] == LowerChar(t[0]) && seg[|seg| - 1] == LowerChar(t[|t| - 1]);
    }
    TypedCodeIsKept(seg);
  }

  class EntryForm {
    var code: string
    var studentName: string
    var error: string

    constructor ()
      ensures code == [] && studentName == [] && error == []
    {
      code, studentName, error := [], [], [];
    }

    /**
     * `handleSubmit`: clears the error; if the trimmed code or the trimmed
     * name is empty, sets the error and stays; otherwise navigates.
     */
    method HandleSubmit(encode: string -> string) returns (navigation: Option<string>)
      modifies this
      ensures code == old(code) && studentName == old(studentName)
      ensures navigation.None? <==> Trim(code) == [] || Trim(studentName) == []
      ensures navigation.None? ==> error == FillAllFields
      ensures navigation.Some? ==> error == [] && navigation.value == EntryPath(code, studentName, encode)
    {
      error := [];
      if Trim(code) == [] || Trim(studentName) == [] {
        error := FillAllFields;
        return None;
      }
      navigation := Some(EntryPath(code, studentName, encode));
    }
  }
}
