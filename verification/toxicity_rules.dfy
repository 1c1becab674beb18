/** The rule-based parts of the detector's text model: whole-word matching
    of custom toxic phrases (with modifier prefixes), the "mentions someone
    else" check over a tokenised text, and the sentiment label rule.

    The tokeniser and sentiment model are not modelled: their output is an
    input here. The regular-expression word boundary `\b` depends on which
    characters count as word characters, which is a parameter `w`. */
module ToxicityRules {

  // ---------------------------------------------------------------------
  // Lower-casing (ASCII letters)

  function LowerChar(c: char): char {
    if 'A' <= c <= 'Z' then (c as int + 32) as char else c
  }

  predicate IsUpper(c: char) { 'A' <= c <= 'Z' }

  function Lower(s: string): (r: string)
    ensures |r| == |s|
    ensures forall k :: 0 <= k < |s| ==> r[k] == LowerChar(s[k])
    ensures forall k :: 0 <= k < |r| ==> !IsUpper(r[k])
  {
    seq(|s|, k requires 0 <= k < |s| => LowerChar(s[k]))
  }

  lemma LowerIdempotent(s: string)
    ensures Lower(Lower(s)) == Lower(s)
  {
  }

  // ---------------------------------------------------------------------
  // Whole-word literal matching

  /** The candidate patterns for one phrase: the phrase itself, then
      "modifier phrase" for every modifier, modifiers taken verbatim. */
  function Patterns(base: string, modifiers: seq<string>): (ps: seq<string>)
    ensures |ps| == |modifiers| + 1 && ps[0] == base
    ensures forall k :: 0 <= k < |modifiers| ==> ps[k + 1] == modifiers[k] + " " + base
  {
    [base] + seq(|modifiers|, k requires 0 <= k < |modifiers| => modifiers[k] + " " + base)
  }

  /** `\b` at position `i` of `t`: a word character on exactly one side,
      the outside of the text counting as non-word. */
  predicate Boundary(t: string, i: int, w: char -> bool) {
    (0 < i <= |t| && w(t[i - 1])) != (0 <= i < |t| && w(t[i]))
  }

  /** `\b` + escaped `p` + `\b` matches `t` at offset `i`. */
  predicate MatchAt(t: string, p: string, i: int, w: char -> bool) {
    0 <= i && i + |p| <= |t| && t[i..i + |p|] == p && Boundary(t, i, w) && Boundary(t, i + |p|, w)
  }

  predicate Occurs(t: string, p: string, w: char -> bool) {
    exists i :: 0 <= i <= |t| && MatchAt(t, p, i, w)
  }

  /** `re.search`, scanning offsets from `i` on. */
  function SearchFrom(t: string, p: string, i: nat, w: char -> bool): (r: bool)
    requires i <= |t| + 1
    ensures r <==> exists j :: i <= j <= |t| && MatchAt(t, p, j, w)
    decreases |t| + 1 - i
  {
    if i > |t| then false
    else if MatchAt(t, p, i, w) then true
    else SearchFrom(t, p, i + 1, w)
  }

  function Search(t: string, p: string, w: char -> bool): (r: bool)
    ensures r <==> Occurs(t, p, w)
  {
    SearchFrom(t, p, 0, w)
  }

  /** Some pattern of the phrase occurs as a whole word in the text. */
  predicate PhraseHit(t: string, base: string, modifiers: seq<string>, w: char -> bool) {
    exists j :: 0 <= j < |Patterns(base, modifiers)| && Occurs(t, Patterns(base, modifiers)[j], w)
  }

  function AnyPattern(t: string, ps: seq<string>, w: char -> bool): (r: bool)
    ensures r <==> exists j :: 0 <= j < |ps| && Occurs(t, ps[j], w)
  {
    if |ps| == 0 then false
    else Search(t, ps[0], w) || AnyPattern(t, ps[1..], w)
  }

  /** The custom-phrase check: lower-case the text and each phrase, and
      report whether any pattern of any phrase occurs as a whole word. */
  function IsCustomToxic(text: string, phrases: seq<string>, modifiers: seq<string>, w: char -> bool): (r: bool)
    ensures r <==> exists k :: 0 <= k < |phrases| && PhraseHit(Lower(text), Lower(phrases[k]), modifiers, w)
  {
    if |phrases| == 0 then false
    else
      AnyPattern(Lower(text), Patterns(Lower(phrases[0]), modifiers), w)
      || IsCustomToxic(text, phrases[1..], modifiers, w)
  }

  /** The text and the phrases are compared without regard to ASCII case. */
  lemma CaseInsensitive(text: string, phrases: seq<string>, modifiers: seq<string>, w: char -> bool)
    ensures IsCustomToxic(Lower(text), phrases, modifiers, w) == IsCustomToxic(text, phrases, modifiers, w)
  {
    LowerIdempotent(text);
  }

  /** A phrase inside a longer word is not found: a word character just
      before (or after) a match that starts (or ends) with a word character
      rules it out. */
  lemma NoMatchInsideWord(t: string, p: string, i: int, w: char -> bool)
    requires |p| > 0
    requires (0 < i <= |t| && w(t[i - 1]) && w(p[0]))
      || (0 <= i + |p| < |t| && w(t[i + |p|]) && w(p[|p| - 1]))
    ensures !MatchAt(t, p, i, w)
  {
    if 0 <= i && i + |p| <= |t| && t[i..i + |p|] == p {
      assert t[i] == t[i..i + |p|][0] == p[0];
      assert t[i + |p| - 1] == t[i..i + |p|][|p| - 1] == p[|p| - 1];
    }
  }

  /** A modifier with an ASCII capital letter can never match, because the
      text is lower-cased and the modifier is not. */
  lemma UppercaseModifierNeverMatches(text: string, m: string, base: string, w: char -> bool)
    requires exists k :: 0 <= k < |m| && IsUpper(m[k])
    ensures !Occurs(Lower(text), m + " " + base, w)
  {
    var t := Lower(text);
    var p := m + " " + base;
    var k :| 0 <= k < |m| && IsUpper(m[k]);
    assert IsUpper(p[k]);
    forall i | 0 <= i <= |t|
      ensures !MatchAt(t, p, i, w)
    {
      if i + |p| <= |t| {
        assert t[i..i + |p|][k] == t[i + k];
        assert !IsUpper(t[i + k]);
      }
    }
  }

  // ---------------------------------------------------------------------
  // Mentions of someone else

  /** One token of the parsed text: part of speech, text, entity type. */
  datatype Token = Token(pos: string, text: string, entType: string)

  /** The first-person pronoun list, lower-cased as the check compares it. */
  const FirstPerson: seq<string> := ["i", "me", "my", "mine", "we", "our", "ours"]

  /** A pronoun other than a first-person one, a PERSON entity, or an
      `@handle`. */
  predicate RefersToOther(t: Token) {
    || (t.pos == "PRON" && Lower(t.text) !in FirstPerson)
    || t.entType == "PERSON"
    || (|t.text| > 0 && t.text[0] == '@')
  }

  /** The scan over the tokens, returning at the first token that refers to
      someone else. */
  function IsPersonOrPronoun(tokens: seq<Token>): (r: bool)
    ensures r <==> exists k :: 0 <= k < |tokens| && RefersToOther(tokens[k])
  {
    if |tokens| == 0 then false
    else if RefersToOther(tokens[0]) then true
    else IsPersonOrPronoun(tokens[1..])
  }

  /** First-person pronouns, whatever their case, never count; "you" does. */
  lemma PronounExamples()
    ensures !IsPersonOrPronoun([Token("PRON", "I", ""), Token("PRON", "We", ""), Token("PRON", "MINE", "")])
    ensures IsPersonOrPronoun([Token("PRON", "you", "")])
  {
    assert Lower("We") == "we";
    assert Lower("MINE") == "mine";
    assert Lower("I") == "i";
    assert Lower("you") == "you";
    assert !RefersToOther(Token("PRON", "I", ""));
  }

  // ---------------------------------------------------------------------
  // Sentiment

  /** The negative-sentiment score: the model's score for a NEGATIVE label,
      zero for any other label. */
  function CheckSentiment(verdict: string, score: real): (r: real)
    ensures verdict == "NEGATIVE" ==> r == score
    ensures verdict != "NEGATIVE" ==> r == 0.0
    ensures 0.0 <= score ==> 0.0 <= r <= score
    ensures r != 0.0 ==> verdict == "NEGATIVE" && r == score
  {
    if verdict == "NEGATIVE" then score else 0.0
  }
}
