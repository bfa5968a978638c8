/** What dashboard.py does with a fetched page once the paragraphs are
    extracted: join them, clean the text, decide whether it may be summarized,
    cap it at the model's input size and cut the preview. */
module Dashboard {
  import opened Words
  import opened Cleaner

  /** Cleaned texts with fewer words are too short to summarize. */
  const MinWords: nat := 50
  /** The summarizer gets at most this many words. */
  const MaxWords: nat := 1024
  /** The preview of the article shows at most this many characters. */
  const PreviewLength: nat := 2000

  function Min(a: nat, b: nat): nat {
    if a <= b then a else b
  }

  /** The number of whitespace-separated words of `s`; it is zero exactly
      for a text that is all whitespace. */
  function WordCount(s: String): (n: nat)
    ensures n == 0 <==> forall i :: 0 <= i < |s| ==> IsSpace(s[i])
  {
    SplitEmpty(s);
    |Split(s)|
  }

  datatype Warning =
    | EmptyAfterCleaning  // nothing is left of the article after cleaning
    | TooShort            // fewer than MinWords words are left

  datatype Gate = Reject(warning: Warning) | Proceed

  /** The decision of the three-way `if / elif / else` on the cleaned text. */
  function Validate(cleaned: String): (g: Gate)
    ensures g == Reject(EmptyAfterCleaning) <==> |cleaned| == 0
    ensures g == Reject(TooShort) <==> |cleaned| > 0 && WordCount(cleaned) < MinWords
    ensures g == Proceed <==> WordCount(cleaned) >= MinWords
  {
    if cleaned == [] then Reject(EmptyAfterCleaning)
    else if WordCount(cleaned) < MinWords then Reject(TooShort)
    else Proceed
  }

  /** On the output of `clean_text` the gate is a pure function of the word
      count: no words, 1 to 49 words, at least 50 words. */
  lemma GateOnCleanedText(lex: Lexicon, text: String)
    ensures var cleaned := CleanText(lex, text);
      && (Validate(cleaned) == Reject(EmptyAfterCleaning) <==> WordCount(cleaned) == 0)
      && (Validate(cleaned) == Reject(TooShort) <==> 1 <= WordCount(cleaned) < MinWords)
      && (Validate(cleaned) == Proceed <==> MinWords <= WordCount(cleaned))
  {
    CleanTextNoWords(lex, text);
  }

  /** The 1024-word cap: a text of more words is replaced by its first
      `MaxWords` words joined by single spaces; any other text is returned
      unchanged. */
  function Truncate(cleaned: String): (r: String)
    ensures WordCount(cleaned) <= MaxWords ==> r == cleaned
    ensures WordCount(cleaned) > MaxWords ==> Split(r) == Split(cleaned)[..MaxWords]
    ensures WordCount(cleaned) > MaxWords ==> Join(Split(r)) == r
    ensures WordCount(r) == Min(WordCount(cleaned), MaxWords)
    ensures NoPunctuation(cleaned) ==> NoPunctuation(r)
  {
    var words := Split(cleaned);
    if |words| > MaxWords then
      var first := words[..MaxWords];
      SplitJoin(first);
      if NoPunctuation(cleaned) then
          JoinKeeps(first, NotPunctuation);
        Join(first)
      else
        Join(first)
    else
      cleaned
  }

  /** The preview: the article cut after `PreviewLength` characters. */
  function Preview(article: String): (r: String)
    ensures r <= article
    ensures |r| == Min(PreviewLength, |article|)
  {
    if |article| <= PreviewLength then article else article[..PreviewLength]
  }

  /** The article text: the paragraph texts joined by single spaces, so its
      words are the words of each paragraph, in document order. */
  function ArticleText(paragraphs: seq<String>): (article: String)
    ensures Split(article) == SplitEach(paragraphs)
  {
    SplitJoinEach(paragraphs);
    Join(paragraphs)
  }

  /** What one run of the pipeline shows: a warning, or the preview of the
      article beside the text handed to the summarizer. */
  datatype Response =
    | Warned(warning: Warning)
    | Summarize(preview: String, modelInput: String)

  /** The pipeline after extraction: join, clean, validate, truncate, preview. */
  function Process(lex: Lexicon, paragraphs: seq<String>): (r: Response)
    ensures r == Warned(EmptyAfterCleaning) <==> WordCount(CleanText(lex, ArticleText(paragraphs))) == 0
    ensures r == Warned(TooShort) <==> 1 <= WordCount(CleanText(lex, ArticleText(paragraphs))) < MinWords
    ensures r.Summarize? <==> MinWords <= WordCount(CleanText(lex, ArticleText(paragraphs)))
    ensures r.Summarize? ==> MinWords <= WordCount(r.modelInput) <= MaxWords
  {
    var article := ArticleText(paragraphs);
    var cleaned := CleanText(lex, article);
    GateOnCleanedText(lex, article);
    match Validate(cleaned)
    case Reject(w) => Warned(w)
    case Proceed =>
      var input := Truncate(cleaned);
      assert MinWords <= WordCount(input) <= MaxWords;
      Summarize(Preview(article), input)
  }

  /** Capping cleaned text keeps its first `MaxWords` words, and keeps it
      free of punctuation and stopwords. */
  lemma TruncateCleaned(lex: Lexicon, text: String)
    ensures var kept := CleanWords(lex, text);
      Split(Truncate(CleanText(lex, text))) == kept[..Min(|kept|, MaxWords)]
    ensures NoPunctuation(Truncate(CleanText(lex, text)))
    ensures NoStopwords(lex, Split(Truncate(CleanText(lex, text))))
  {
    var cleaned := CleanText(lex, text);
    var kept := CleanWords(lex, text);
    var words := Split(Truncate(cleaned));
    assert Split(cleaned) == kept;
    assert words == kept[..Min(|kept|, MaxWords)];
    forall i | 0 <= i < |words| ensures !IsStopword(lex, words[i]) {
      assert words[i] == kept[i];
    }
  }

  /** Whenever the summarizer is reached, it is given the cleaned words of
      the article, capped at `MaxWords`, free of punctuation and stopwords,
      and the preview is a prefix of the article of `min(2000, |article|)`
      characters. */
  lemma SummarizerInput(lex: Lexicon, paragraphs: seq<String>, r: Response)
    requires r == Process(lex, paragraphs) && r.Summarize?
    ensures var kept := CleanWords(lex, ArticleText(paragraphs));
      Split(r.modelInput) == kept[..Min(|kept|, MaxWords)]
    ensures NoPunctuation(r.modelInput)
    ensures NoStopwords(lex, Split(r.modelInput))
    ensures r.preview <= ArticleText(paragraphs)
    ensures |r.preview| == Min(PreviewLength, |ArticleText(paragraphs)|)
  {
    var article := ArticleText(paragraphs);
    var cleaned := CleanText(lex, article);
    assert r == Summarize(Preview(article), Truncate(cleaned)) by {
      GateOnCleanedText(lex, article);
      assert Validate(cleaned) == Proceed;
    }
    TruncateCleaned(lex, article);
  }
}
