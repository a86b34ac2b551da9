/**
 * The string logic of the blog generator's script: the prompt and token budget given to
 * the language model, the cut of its answer to a number of sentence-like segments, the
 * closing-paragraph guard, the language table of the text-to-speech step and the SEO
 * suggestions. The language model, the speech synthesiser and the temporary file are
 * outside the model: their results arrive as parameters.
 */
module Blog {
  import opened Wrappers
  import opened PyText
  import opened Sentences

  // ---------------------------------------------------------------------------
  // The prompt and the token budget (getLLamaresponse)
  // ---------------------------------------------------------------------------

  /** Tokens the model may produce beyond the requested word count, so that it is not cut off. */
  const TokenSlack: int := 150

  /** `max_new_tokens`: the requested word count plus the slack. */
  function MaxNewTokens(noWords: int): (r: int)
    ensures r > noWords
    ensures r - noWords == TokenSlack
  {
    noWords + TokenSlack
  }

  /** The text of an f-string: its literal parts and formatted fields, in order. */
  function Concat(pieces: seq<string>): (r: string)
    ensures |pieces| > 0 ==> pieces[0] <= r
  {
    if pieces == [] then "" else pieces[0] + Concat(pieces[1..])
  }

  /** Every part of an f-string appears in its text. */
  lemma {:induction false} ConcatContains(pieces: seq<string>, i: nat)
    requires i < |pieces|
    ensures Contains(Concat(pieces), pieces[i])
    decreases i
  {
    if i == 0 {
      ContainsMiddle("", pieces[0], Concat(pieces[1..]));
      assert "" + pieces[0] + Concat(pieces[1..]) == Concat(pieces);
    } else {
      ConcatContains(pieces[1..], i - 1);
      ContainsAfter(pieces[0], Concat(pieces[1..]), pieces[i]);
    }
  }

  // The literal parts of the prompt template, between its fields.
  const PromptOpening: string := "\n        Write a well-structured blog about \""
  const PromptAfterTopic: string := "\" in "
  const PromptAfterLanguage: string := ". \n\n        - The blog must be written entirely in "
  const PromptBeforeCount: string := ".  \n        - The blog should be **approximately "
  const PromptBeforeKeywords: string := " words**.  \n        - Emphasize the following **SEO keywords**: "
  const PromptClosing: string :=
    ".  \n        - Use **proper headings, bullet points, and paragraphs**.  \n"
    + "        - Ensure a **natural conclusion** that wraps up the topic properly.  \n"
    + "        - The final paragraph should **summarize the blog and leave the reader with key takeaways**.  \n"
    + "        - Do **not stop mid-sentence**. Ensure the response **ends at a logical point**.  \n"
    + "        "

  /** The prompt: it names the topic, the language, the word count in decimal and the SEO keywords. */
  function BuildPrompt(topic: string, noWords: int, seoWords: string, language: string): (r: string)
    ensures Contains(r, topic)
    ensures Contains(r, language)
    ensures Contains(r, IntToDecimal(noWords))
    ensures Contains(r, seoWords)
  {
    var pieces := [PromptOpening, topic, PromptAfterTopic, language, PromptAfterLanguage, language,
                   PromptBeforeCount, IntToDecimal(noWords), PromptBeforeKeywords, seoWords, PromptClosing];
    ConcatContains(pieces, 1);
    ConcatContains(pieces, 3);
    ConcatContains(pieces, 7);
    ConcatContains(pieces, 9);
    Concat(pieces)
  }

  // ---------------------------------------------------------------------------
  // Truncation of the model's answer (getLLamaresponse)
  // ---------------------------------------------------------------------------

  /** `int(no_words) // 10`: Python's floor division, which Dafny's `/` agrees with for divisor 10. */
  function SegmentBudget(noWords: int): (n: int)
    ensures 10 * n <= noWords < 10 * n + 10
  {
    noWords / 10
  }

  /** `sentences[:int(no_words) // 10]`: the leading segments of the answer that are kept. */
  function KeptSegments(response: string, noWords: int): (kept: seq<string>)
    ensures kept <= Split(response)
  {
    Take(Split(response), SegmentBudget(noWords))
  }

  /**
   * The truncated answer: the kept segments joined by ". ", and a period. It ends in a
   * period, and what comes before that period is a prefix of the answer.
   */
  function Truncate(response: string, noWords: int): (r: string)
    ensures |r| > 0 && r[|r| - 1] == '.'
    ensures r[..|r| - 1] <= response
  {
    var kept := KeptSegments(response, noWords);
    assert kept == Split(response)[..|kept|];
    JoinSplitPrefix(response, |kept|);
    var r := Join(kept) + ".";
    assert r[..|r| - 1] == Join(kept);
    r
  }

  /** Splitting the truncated text (without its final period) gives back exactly the kept segments. */
  lemma TruncateSegments(response: string, noWords: int)
    requires |KeptSegments(response, noWords)| >= 1
    ensures var t := Truncate(response, noWords);
      Split(t[..|t| - 1]) == KeptSegments(response, noWords)
  {
    var kept := KeptSegments(response, noWords);
    var t := Truncate(response, noWords);
    assert t[..|t| - 1] == Join(kept);
    forall k | 0 <= k < |kept| ensures SepFree(kept[k]) {
      assert kept[k] == Split(response)[k];
    }
    SplitJoin(kept);
  }

  /**
   * From ten words on, the truncated text has `noWords // 10` segments, the leading ones
   * of the answer, or all of the answer's segments when it has fewer.
   */
  lemma TruncateSegmentCount(response: string, noWords: int)
    requires 10 <= noWords
    ensures var t := Truncate(response, noWords);
      var segments := Split(response);
      var n := noWords / 10;
      Split(t[..|t| - 1]) == segments[..if n < |segments| then n else |segments|]
  {
    TruncateSegments(response, noWords);
  }

  /** A negative word count drops that many tens of segments from the end, as Python's slice does. */
  lemma TruncateNegative(response: string, noWords: int)
    requires noWords < 0
    requires |Split(response)| + noWords / 10 >= 1
    ensures var t := Truncate(response, noWords);
      var segments := Split(response);
      Split(t[..|t| - 1]) == segments[..|segments| + noWords / 10]
  {
    TruncateSegments(response, noWords);
  }

  /**
   * When the answer has no more segments than the budget, all of it is kept and a period
   * appended, even after an answer that already ends in one.
   */
  lemma TruncateWholeAnswer(response: string, noWords: int)
    requires |Split(response)| <= noWords / 10
    ensures Truncate(response, noWords) == response + "."
  {
    assert KeptSegments(response, noWords) == Split(response);
    JoinSplit(response);
  }

  /** Below ten words no segment is kept, and the truncated text is a lone period. */
  lemma TruncateBelowTen(response: string, noWords: int)
    requires 0 <= noWords < 10
    ensures Truncate(response, noWords) == "."
  {
  }

  // ---------------------------------------------------------------------------
  // The closing-paragraph guard (getLLamaresponse)
  // ---------------------------------------------------------------------------

  const InConclusion: string := "In conclusion"
  const ToSummarize: string := "To summarize"

  /** The fixed paragraph appended to a text that has no closing phrase. */
  const ClosingParagraph: string :=
    "\n\n" + InConclusion + ", Argentina\U{2019}s wildlife offers a spectacular experience for nature lovers. "
    + "Whether exploring its coastal waters or mountainous terrain, visitors can witness breathtaking "
    + "biodiversity and unforgettable adventures."

  /** The text already holds one of the two closing phrases. */
  predicate HasClosing(text: string)
    ensures HasClosing(text) <==> exists i :: OccursAt(text, InConclusion, i) || OccursAt(text, ToSummarize, i)
  {
    ContainsIffOccurs(text, InConclusion);
    ContainsIffOccurs(text, ToSummarize);
    Contains(text, InConclusion) || Contains(text, ToSummarize)
  }

  lemma ClosingParagraphHasClosing()
    ensures Contains(ClosingParagraph, InConclusion)
  {
    ContainsMiddle("\n\n", InConclusion, ClosingParagraph[2 + |InConclusion|..]);
    assert "\n\n" + InConclusion + ClosingParagraph[2 + |InConclusion|..] == ClosingParagraph;
  }

  /**
   * The guard: a text with a closing phrase is returned unchanged; any other text gets the
   * fixed paragraph appended. Either way the result has a closing phrase.
   */
  function AddConclusion(text: string): (r: string)
    ensures HasClosing(r)
    ensures text <= r
    ensures HasClosing(text) ==> r == text
    ensures !HasClosing(text) ==> r == text + ClosingParagraph
  {
    if !Contains(text, InConclusion) && !Contains(text, ToSummarize) then
      ClosingParagraphHasClosing();
      ContainsAfter(text, ClosingParagraph, InConclusion);
      text + ClosingParagraph
    else
      text
  }

  /** Applying the guard twice changes nothing more than applying it once. */
  lemma AddConclusionIdempotent(text: string)
    ensures AddConclusion(AddConclusion(text)) == AddConclusion(text)
  {
  }

  /** What `getLLamaresponse` does with the model's answer: truncate it, then guard its ending. */
  function GetLLamaResponseTail(response: string, noWords: int): (r: string)
    ensures HasClosing(r)
    ensures Truncate(response, noWords) <= r
  {
    AddConclusion(Truncate(response, noWords))
  }

  /** Below ten words the result is a lone period followed by the fixed paragraph. */
  lemma ResponseTailBelowTen(response: string, noWords: int)
    requires 0 <= noWords < 10
    ensures GetLLamaResponseTail(response, noWords) == "." + ClosingParagraph
  {
    TruncateBelowTen(response, noWords);
    NotContainsLonger(".", InConclusion);
    NotContainsLonger(".", ToSummarize);
  }

  /**
   * `getLLamaresponse`: the model, given the prompt and the token budget, answers with some
   * text; whatever it answers, the result contains a closing phrase and starts with that
   * answer's truncation.
   */
  function GetLLamaResponse(topic: string, noWords: int, seoWords: string, language: string,
                            generate: (string, int) -> string): (r: string)
    ensures HasClosing(r)
    ensures var response := generate(BuildPrompt(topic, noWords, seoWords, language), MaxNewTokens(noWords));
      Truncate(response, noWords) <= r
  {
    var response := generate(BuildPrompt(topic, noWords, seoWords, language), MaxNewTokens(noWords));
    GetLLamaResponseTail(response, noWords)
  }

  // ---------------------------------------------------------------------------
  // Text to speech (generate_audio)
  // ---------------------------------------------------------------------------

  /** The languages the page offers. */
  const LanguageOptions: seq<string> := ["English", "Spanish", "French", "German"]

  /** The speech synthesiser's locale code for each supported language. */
  const LanguageMap: map<string, string> := map["English" := "en", "Spanish" := "es", "French" := "fr", "German" := "de"]

  /** The locale for a language, or `None` for a language without one. */
  function LocaleOf(language: string): (r: Option<string>)
    ensures r.Some? <==> language in LanguageOptions
    ensures r.Some? ==> |r.value| == 2
  {
    if language in LanguageMap then Some(LanguageMap[language]) else None
  }

  /** The four table entries, and `None` for any other language. */
  lemma LocaleTable(language: string)
    ensures LocaleOf("English") == Some("en") && LocaleOf("Spanish") == Some("es")
    ensures LocaleOf("French") == Some("fr") && LocaleOf("German") == Some("de")
    ensures language !in LanguageOptions ==> LocaleOf(language) == None
  {
  }

  /** No two languages share a locale. */
  lemma LocaleInjective(a: string, b: string)
    requires LocaleOf(a).Some? && LocaleOf(a) == LocaleOf(b)
    ensures a == b
  {
  }

  /** Either speech in `locale` saved to the file at `path`, or no audio and an error for the page. */
  datatype AudioOutcome =
    | Audio(path: string, text: string, locale: string)
    | NoAudio(error: string)

  function UnsupportedMessage(language: string): (m: string)
    ensures Contains(m, language)
  {
    var front := "\U{274C} Audio generation is not available for ";
    var back := ". Please select English, Spanish, French, or German.";
    ContainsMiddle(front, language, back);
    front + language + back
  }

  /**
   * `generate_audio`: a supported language gives the text spoken in its locale, saved to the
   * fresh temporary file `tempPath`; any other language gives no audio and an error naming it.
   */
  function GenerateAudio(text: string, language: string, tempPath: string): (r: AudioOutcome)
    ensures r.NoAudio? <==> language !in LanguageOptions
    ensures r.Audio? ==> r.path == tempPath && r.text == text && LocaleOf(language) == Some(r.locale)
    ensures r.NoAudio? ==> Contains(r.error, language)
  {
    if language !in LanguageMap then
      NoAudio(UnsupportedMessage(language))
    else
      Audio(tempPath, text, LanguageMap[language])
  }

  /** Every language the page offers gets audio. */
  lemma OfferedLanguagesHaveAudio(text: string, language: string, tempPath: string)
    requires language in LanguageOptions
    ensures GenerateAudio(text, language, tempPath).Audio?
  {
  }

  // ---------------------------------------------------------------------------
  // SEO suggestions (get_seo_keywords)
  // ---------------------------------------------------------------------------

  /** Three distinct suggestions, each naming the topic. */
  function SeoKeywords(topic: string): (r: seq<string>)
    ensures |r| == 3
    ensures forall k :: 0 <= k < |r| ==> Contains(r[k], topic)
    ensures r[0] != r[1] && r[1] != r[2] && r[0] != r[2]
  {
    ContainsMiddle("Best ", topic, " tips");
    ContainsMiddle("How to improve ", topic, "");
    ContainsMiddle("Why ", topic, " matters");
    assert "How to improve " + topic + "" == "How to improve " + topic;
    ["Best " + topic + " tips", "How to improve " + topic, "Why " + topic + " matters"]
  }

  /** Different topics get different suggestions. */
  lemma SeoKeywordsInjective(a: string, b: string)
    requires SeoKeywords(a) == SeoKeywords(b)
    ensures a == b
  {
    var s := SeoKeywords(a)[1];
    assert s[15..] == a;
    assert SeoKeywords(b)[1][15..] == b;
  }
}
