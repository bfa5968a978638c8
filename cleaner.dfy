/** `clean_text` of dashboard.py: delete punctuation, split on whitespace,
    drop stopwords, join with single spaces. */
module Cleaner {
  import opened Sequences
  import opened Words

  /** Python's `string.punctuation`, the 32 ASCII punctuation characters,
      in four runs of consecutive code points. */
  const PunctuationChars: String := "!\"#$%&'()*+,-./" + ":;<=>?@" + "[\\]^_`" + "{|}~"

  /** Membership in `string.punctuation`, written as the four ASCII ranges it
      consists of: `!` to `/`, `:` to `@`, `[` to `` ` `` and `{` to `~`. */
  predicate IsPunctuation(c: char)
    ensures IsPunctuation(c) <==> c in PunctuationChars
  {
    PunctuationRanges(c);
    ('!' <= c <= '/') || (':' <= c <= '@') || ('[' <= c <= '`') || ('{' <= c <= '~')
  }

  /** `s` holds every code point from `lo` onwards, one after the other. */
  ghost predicate IsRun(s: String, lo: char) {
    forall k :: 0 <= k < |s| ==> s[k] as int == lo as int + k
  }

  lemma RunMembership(s: String, lo: char, c: char)
    requires IsRun(s, lo)
    ensures c in s <==> lo as int <= c as int < lo as int + |s|
  {
    if lo as int <= c as int < lo as int + |s| {
      assert s[c as int - lo as int] == c;
    }
  }

  /** The four ranges hold exactly the characters of `string.punctuation`. */
  lemma PunctuationRanges(c: char)
    ensures ('!' <= c <= '/') || (':' <= c <= '@') || ('[' <= c <= '`') || ('{' <= c <= '~')
      <==> c in PunctuationChars
  {
    var a, b, d, e := "!\"#$%&'()*+,-./", ":;<=>?@", "[\\]^_`", "{|}~";
    assert IsRun(a, '!') && IsRun(b, ':') && IsRun(d, '[') && IsRun(e, '{');
    RunMembership(a, '!', c);
    RunMembership(b, ':', c);
    RunMembership(d, '[', c);
    RunMembership(e, '{', c);
    assert PunctuationChars == a + b + d + e;
  }

  function NotPunctuation(c: char): bool {
    !IsPunctuation(c)
  }

  predicate NoPunctuation(s: String) {
    forall i :: 0 <= i < |s| ==> !IsPunctuation(s[i])
  }

  /** The language data `clean_text` consults: the English stopword list that
      NLTK supplies, and Python's `str.lower`. Both are given, not modelled. */
  datatype Lexicon = Lexicon(stopwords: set<String>, lower: String -> String)

  /** A word is a stopword when its lowercase form is in the stopword list. */
  predicate IsStopword(lex: Lexicon, w: String) {
    lex.lower(w) in lex.stopwords
  }

  predicate AllStopwords(lex: Lexicon, ws: seq<String>) {
    forall i :: 0 <= i < |ws| ==> IsStopword(lex, ws[i])
  }

  /** No word of `ws` is a stopword. */
  predicate NoStopwords(lex: Lexicon, ws: seq<String>) {
    forall i :: 0 <= i < |ws| ==> !IsStopword(lex, ws[i])
  }

  /** The test the second list comprehension keeps a word by. */
  function Keeps(lex: Lexicon): String -> bool {
    w => !IsStopword(lex, w)
  }

  /** The first step of `clean_text`: every punctuation character is deleted
      (not replaced by a space), every other character is kept, and the order
      is unchanged. */
  function StripPunctuation(s: String): (r: String)
    ensures NoPunctuation(r)
    ensures NoPunctuation(s) ==> r == s
  {
    FilterKeepsAll(s, NotPunctuation);
    Filter(s, NotPunctuation)
  }

  /** Nothing but punctuation is deleted: every other character occurs in the
      result as often as in `s`, and in the same order. */
  lemma StripPunctuationKeepsRest(s: String)
    ensures IsSubsequence(StripPunctuation(s), s)
    ensures forall c :: multiset(StripPunctuation(s))[c] == if IsPunctuation(c) then 0 else multiset(s)[c]
  {
    FilterIsSubsequence(s, NotPunctuation);
    FilterCount(s, NotPunctuation);
  }

  /** The third step of `clean_text`: the non-stopwords of `ws`, each as
      often as in `ws`, in their order. */
  function KeepWords(lex: Lexicon, ws: seq<String>): (r: seq<String>)
    ensures NoStopwords(lex, r)
    ensures NoStopwords(lex, ws) ==> r == ws
    ensures r == [] <==> AllStopwords(lex, ws)
  {
    FilterEmpty(ws, Keeps(lex));
    FilterKeepsAll(ws, Keeps(lex));
    Filter(ws, Keeps(lex))
  }

  /** Nothing but stopwords is dropped: every other word occurs in the result
      as often as in `ws`, and in the same order. */
  lemma KeepWordsKeepsRest(lex: Lexicon, ws: seq<String>)
    ensures IsSubsequence(KeepWords(lex, ws), ws)
    ensures forall w :: multiset(KeepWords(lex, ws))[w] == if IsStopword(lex, w) then 0 else multiset(ws)[w]
  {
    FilterIsSubsequence(ws, Keeps(lex));
    FilterCount(ws, Keeps(lex));
  }

  /** The tokens `clean_text` keeps: the non-stopword words of the
      punctuation-free text. */
  function CleanWords(lex: Lexicon, text: String): (ws: seq<String>)
    ensures AllWords(ws)
    ensures forall i, j :: 0 <= i < |ws| && 0 <= j < |ws[i]| ==> !IsPunctuation(ws[i][j])
  {
    var stripped := StripPunctuation(text);
    var words := Split(stripped);
    KeepWords(lex, words)
  }

  /** `clean_text`: the result is the kept tokens joined by single
      spaces, so splitting it gives exactly those tokens back. */
  function CleanText(lex: Lexicon, text: String): (r: String)
    ensures text == [] ==> r == []
    ensures NoPunctuation(r)
    ensures Split(r) == CleanWords(lex, text)
    ensures NoStopwords(lex, Split(r))
  {
    var kept := CleanWords(lex, text);
    if text == [] then
      assert StripPunctuation(text) == [];
      assert kept == [];
      []
    else
      JoinKeeps(kept, NotPunctuation);
      SplitJoin(kept);
      Join(kept)
  }

  /** The cleaned text is in normal form: no leading, trailing or repeated
      whitespace, every separator a single space. */
  lemma CleanTextNormal(lex: Lexicon, text: String)
    ensures Join(Split(CleanText(lex, text))) == CleanText(lex, text)
  {
  }

  /** `clean_text` returns the empty string exactly when every token of the
      punctuation-free text is a stopword. */
  lemma CleanTextEmpty(lex: Lexicon, text: String)
    ensures CleanText(lex, text) == [] <==> AllStopwords(lex, Split(StripPunctuation(text)))
  {
    var words := Split(StripPunctuation(text));
    var kept := CleanWords(lex, text);
    assert kept == KeepWords(lex, words);
    if text == [] {
      assert StripPunctuation(text) == [];
      assert words == [];
    } else {
      assert CleanText(lex, text) == Join(kept);
      JoinEmpty(kept);
    }
  }

  /** The cleaned text is empty exactly when it has no word. */
  lemma CleanTextNoWords(lex: Lexicon, text: String)
    ensures CleanText(lex, text) == [] <==> |Split(CleanText(lex, text))| == 0
  {
    if text != [] {
      JoinEmpty(CleanWords(lex, text));
    }
  }

  /** Cleaning cleaned text changes nothing. */
  lemma CleanTextIdempotent(lex: Lexicon, text: String)
    ensures CleanText(lex, CleanText(lex, text)) == CleanText(lex, text)
  {
    var r := CleanText(lex, text);
    if r != [] {
      var kept := CleanWords(lex, text);
      assert r == Join(kept);
      assert StripPunctuation(r) == r;
      assert CleanWords(lex, r) == KeepWords(lex, kept) == kept;
    }
  }

  /** Deleting a single punctuation character between two punctuation-free
      texts concatenates them. */
  lemma StripBetween(a: String, p: char, b: String)
    requires NoPunctuation(a) && NoPunctuation(b) && IsPunctuation(p)
    ensures StripPunctuation(a + [p] + b) == a + b
  {
    assert Filter(a, NotPunctuation) == a by {
      FilterKeepsAll(a, NotPunctuation);
    }
    assert Filter(b, NotPunctuation) == b by {
      FilterKeepsAll(b, NotPunctuation);
    }
    assert Filter(a + [p], NotPunctuation) == a by {
      FilterAppend(a, [p], NotPunctuation);
      assert Filter([p], NotPunctuation) == [];
    }
    FilterAppend(a + [p], b, NotPunctuation);
  }

  /** Punctuation is deleted before the text is split, so two words that
      only a punctuation character separates become one token: `"end.Next"`
      cleans to `"endNext"`. */
  lemma PunctuationMergesWords(lex: Lexicon, a: String, p: char, b: String)
    requires IsWord(a) && IsWord(b) && NoPunctuation(a) && NoPunctuation(b)
    requires IsPunctuation(p)
    requires !IsStopword(lex, a + b)
    ensures CleanText(lex, a + [p] + b) == a + b
  {
    var text := a + [p] + b;
    StripBetween(a, p, b);
    WordConcat(a, b);
    SplitWord(a + b);
    assert CleanWords(lex, text) == [a + b];
  }
}
