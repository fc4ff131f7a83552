/** The shaping `read_email` applies to a message body once it has been
    decoded: the spam sentinel for an empty body and the 10000-word cap,
    with `count_words` as the measure. */
module Body {
  import opened Wrappers
  import opened PyText

  /** The content recorded when no body text was found. */
  const Sentinel := "THIS IS SPAM"

  /** The most words a body keeps. */
  const WordCap := 10000

  /** `count_words`: the number of whitespace-separated words; a text has
      none exactly when it is empty or all whitespace. */
  function CountWords(text: string): (n: nat)
    ensures n == 0 <==> AllSpace(text)
  {
    SplitEmptyIff(text);
    if text == [] then 0 else |Split(text)|
  }

  /** The body `read_email` records for a decoded body (None when no part
      was decoded): an empty or absent body becomes the sentinel, and a
      body of more than `WordCap` words becomes its first `WordCap` words
      joined by single spaces. */
  function ShapeBody(body: Option<string>): string {
    var text := if body.None? || body.value == [] then Sentinel else body.value;
    if CountWords(text) > WordCap then Join(Split(text)[..WordCap], " ") else text
  }

  /** The sentinel is three words long, so it is never truncated. */
  lemma SentinelWords()
    ensures Split(Sentinel) == ["THIS", "IS", "SPAM"]
    ensures CountWords(Sentinel) == 3
  {
    var words := ["THIS", "IS", "SPAM"];
    assert Join(words, " ") == Sentinel;
    SplitJoin(words);
  }

  /** Words joined by single spaces count as exactly those words. */
  lemma JoinedWordsCount(words: seq<string>)
    requires words != []
    requires forall k | 0 <= k < |words| :: IsWord(words[k])
    ensures Join(words, " ") != []
    ensures Split(Join(words, " ")) == words
    ensures CountWords(Join(words, " ")) == |words|
  {
    SplitJoin(words);
  }

  /** The truncation law: a non-empty body with `w` words is recorded with
      `min(w, WordCap)` words, and those are its own first words. */
  lemma {:induction false} WordCapLaw(text: string)
    requires text != []
    ensures var w := CountWords(text);
            var kept := if w <= WordCap then w else WordCap;
            && CountWords(ShapeBody(Some(text))) == kept
            && Split(ShapeBody(Some(text))) == Split(text)[..kept]
  {
    var words := Split(text);
    if CountWords(text) > WordCap {
      JoinedWordsCount(words[..WordCap]);
    } else {
      assert words[..|words|] == words;
    }
  }

  /** Whatever the decoded body, the recorded content is never empty, is
      the sentinel when the body is empty or absent, is the body itself
      when that has at most `WordCap` words, and never has more. */
  lemma {:induction false} ShapeBodyBounds(body: Option<string>)
    ensures ShapeBody(body) != []
    ensures CountWords(ShapeBody(body)) <= WordCap
    ensures body.None? || body == Some("") ==> ShapeBody(body) == Sentinel
    ensures body.Some? && body.value != [] && CountWords(body.value) <= WordCap ==> ShapeBody(body) == body.value
  {
    if body.None? || body == Some("") {
      SentinelWords();
    } else {
      WordCapLaw(body.value);
      if CountWords(body.value) > WordCap {
        JoinedWordsCount(Split(body.value)[..WordCap]);
      }
    }
  }
}
