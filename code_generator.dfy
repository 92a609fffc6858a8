/**
 * Subject codes of the form `word-word-NN`. The random source is replaced by
 * the integers it is turned into: two indices into the word list and the
 * offset of the number above 10.
 */
module CodeGenerator {
  import opened Wrappers
  import opened Text

  /** The three draws of one call: `floor(random * |words|)` twice, then `floor(random * 90)`. */
  datatype CodeDraw = CodeDraw(first: int, second: int, offset: int)

  /** What the draws can be, since `Math.random()` lies in [0, 1). */
  predicate ValidDraw(words: seq<string>, d: CodeDraw) {
    0 <= d.first < |words| && 0 <= d.second < |words| && 0 <= d.offset < 90
  }

  /** The number the code ends with: `floor(random * 90) + 10`. */
  function CodeNumber(d: CodeDraw): (n: nat)
    requires 0 <= d.offset < 90
    ensures 10 <= n <= 99
  {
    d.offset + 10
  }

  /**
   * `generateUniqueCode`: both words come from the list (independently, so
   * they may be equal) and the code ends with a hyphen and exactly two digits.
   */
  function GenerateCode(words: seq<string>, d: CodeDraw): (code: string)
    requires ValidDraw(words, d)
    ensures |code| == |words[d.first]| + |words[d.second]| + 4
    ensures code[..|words[d.first]|] == words[d.first]
    ensures code[|code| - 3] == '-' && AllDigits(code[|code| - 2..]) && code[|code| - 2] != '0'
  {
    var n := CodeNumber(d);
    TwoDigitRendering(n);
    words[d.first] + "-" + words[d.second] + "-" + NatToString(n)
  }

  // ----- reading a code back -----

  datatype CodeParts = CodeParts(word1: string, word2: string, number: nat)

  /** Splits `word-word-NN` at its first two hyphens; the tail must be a two-digit number. */
  function ParseCode(s: string): Option<CodeParts> {
    match SplitAtFirst(s, '-')
    case None => None
    case Some((word1, rest)) =>
      match SplitAtFirst(rest, '-')
      case None => None
      case Some((word2, digits)) =>
        if |digits| == 2 && AllDigits(digits) && digits[0] != '0' then
          Some(CodeParts(word1, word2, DigitsValue(digits)))
        else
          None
  }

  /** Two digits that do not start with zero are the rendering of a number from 10 to 99. */
  lemma TwoDigitsRoundTrip(digits: string)
    requires |digits| == 2 && AllDigits(digits) && digits[0] != '0'
    ensures 10 <= DigitsValue(digits) <= 99
    ensures NatToString(DigitsValue(digits)) == digits
  {
    var n := DigitsValue(digits);
    assert digits[..1][..0] == [] && digits[..1][0] == digits[0];
    assert DigitsValue(digits[..1]) == digits[0] as int - '0' as int;
    assert n == (digits[0] as int - '0' as int) * 10 + (digits[1] as int - '0' as int);
    TwoDigitRendering(n);
  }

  /** Two hyphen-free words and two digits, joined by hyphens, split back into their parts. */
  lemma ParseJoined(w1: string, w2: string, digits: string)
    requires '-' !in w1 && '-' !in w2
    requires |digits| == 2 && AllDigits(digits) && digits[0] != '0'
    ensures ParseCode(w1 + "-" + w2 + "-" + digits) == Some(CodeParts(w1, w2, DigitsValue(digits)))
  {
    assert w1 + "-" + w2 + "-" + digits == w1 + ['-'] + (w2 + ['-'] + digits);
    SplitJoined(w1, '-', w2 + "-" + digits);
    SplitJoined(w2, '-', digits);
  }

  /** When no word contains a hyphen, a generated code reads back as its two words and its number. */
  lemma ParseGenerated(words: seq<string>, d: CodeDraw)
    requires ValidDraw(words, d)
    requires '-' !in words[d.first] && '-' !in words[d.second]
    ensures ParseCode(GenerateCode(words, d)) ==
      Some(CodeParts(words[d.first], words[d.second], CodeNumber(d)))
  {
    var n := CodeNumber(d);
    TwoDigitRendering(n);
    NatToStringRoundTrip(n);
    ParseJoined(words[d.first], words[d.second], NatToString(n));
  }

  /** Conversely, whatever parses is two hyphen-free words and a number from 10 to 99, rendered as a code. */
  lemma ParsedIsCode(s: string, p: CodeParts)
    requires ParseCode(s) == Some(p)
    ensures '-' !in p.word1 && '-' !in p.word2 && 10 <= p.number <= 99
    ensures s == p.word1 + "-" + p.word2 + "-" + NatToString(p.number)
  {
    var (w1, rest) := SplitAtFirst(s, '-').value;
    var (w2, digits) := SplitAtFirst(rest, '-').value;
    TwoDigitsRoundTrip(digits);
  }
}
