# News article summarizer: the text pipeline, modelled in Dafny

`dashboard.py` is a one-page Streamlit app. It fetches a news page, takes the
text of its paragraphs and cleans it. It checks that enough words are left,
caps the input at 1024 words and hands it to a BART summarization model. The
only logic in the script that is its own, not a library's, is that text
pipeline. This project models it as pure Dafny functions and proves what the
pipeline guarantees:

- `sequences.dfy`, module `Sequences`: a generic `Filter`. This is the shape
  of both list comprehensions in `clean_text`. Its lemmas prove that it keeps
  order, keeps exactly the accepted elements with their multiplicities,
  returns the input when every element is accepted, and distributes over
  concatenation.
- `words.dfy`, module `Words`: Python's `str.split()` with no argument
  (`Split`) and `' '.join` (`Join`). Whitespace is CPython's `str.isspace`
  table. The main lemmas are:
  - the round trip `Split(Join(ws)) == ws` for lists of words;
  - splitting around a whitespace character;
  - splitting deletes whitespace and nothing else.
- `cleaner.dfy`, module `Cleaner`: `clean_text`. It deletes the characters of
  `string.punctuation`, splits the rest, drops the tokens whose `.lower()` is
  a stopword, and joins the survivors with single spaces. The stopword list
  and `str.lower` are parameters, bundled as a `Lexicon`.
- `dashboard.dfy`, module `Dashboard`: the rest of the pipeline.
  - `ArticleText` joins the paragraph texts.
  - `Validate` is the three-way gate: empty, too short, proceed.
  - `Truncate` is the 1024-word cap.
  - `Preview` is the 2000-character preview.
  - `Process` makes the overall decision: show a warning, or summarize a
    given input next to a given preview.

Punctuation is deleted before the text is split, so `"end.Next"` becomes the
single token `"endNext"`. The model keeps this behaviour, and
`Cleaner.PunctuationMergesWords` proves it.

## Model

| member | source | states |
|---|---|---|
| `Sequences.Filter` | dashboard.py:25-26 | the result of a comprehension `[x for x in s if keep(x)]` is no longer than `s`, every element of it is accepted, and every element of it comes from `s` |
| `Sequences.FilterIsSubsequence` | dashboard.py:25-26 | a comprehension with a condition keeps the order of the elements it keeps |
| `Sequences.FilterCount` | dashboard.py:25-26 | each accepted element occurs in the result as often as in the input; no rejected element occurs at all |
| `Sequences.FilterKeepsAll` | dashboard.py:25-26 | when every element is accepted, the result is the input |
| `Sequences.FilterEmpty` | dashboard.py:25-26 | the result is empty exactly when every element is rejected |
| `Sequences.FilterAppend` | dashboard.py:25-26 | filtering a concatenation is the concatenation of the filtered parts |
| `Words.IsSpace` | dashboard.py:26 | the whitespace that `str.split()` splits on is CPython's `str.isspace` table: TAB to CR, FS to US, SPACE, NEL, NO-BREAK SPACE, OGHAM SPACE MARK, EN QUAD to HAIR SPACE, LINE and PARAGRAPH SEPARATOR, NARROW NO-BREAK SPACE, MEDIUM MATHEMATICAL SPACE and IDEOGRAPHIC SPACE; the table is the definition and carries no contract of its own |
| `Words.Join` | dashboard.py:27 | `' '.join` of no tokens is the empty text; otherwise it is as long as the tokens together plus one space between each pair (`SplitJoin`, `JoinEmpty` and `JoinKeeps` give its content) |
| `Words.WordLength` | dashboard.py:26 | the length of the leading non-whitespace run: no whitespace before it, whitespace (or the end) at it |
| `Words.Split` | dashboard.py:26 | `str.split()` yields only non-empty tokens without whitespace, made of characters of the input |
| `Words.SplitAroundSpace` | dashboard.py:44 | one whitespace character between two texts makes the split of the whole the concatenation of the splits of the parts |
| `Words.SplitEmpty` | dashboard.py:52 | a text has no words exactly when all its characters are whitespace |
| `Words.SplitWord` | dashboard.py:26 | a non-empty text without whitespace splits into exactly itself |
| `Words.WordConcat` | dashboard.py:25-26 | two whitespace-free tokens written back to back form one whitespace-free token |
| `Words.SplitJoinEach` | dashboard.py:44 | the words of the space-joined paragraph texts are the words of each paragraph, in document order |
| `Words.SplitJoin` | dashboard.py:27 | round trip: splitting the space-join of a list of words gives that list back |
| `Words.JoinEmpty` | dashboard.py:27 | the space-join of a list of words is empty exactly when the list is empty |
| `Words.ConcatSplit` | dashboard.py:26 | splitting deletes the whitespace and nothing else: the tokens written back to back are the non-whitespace characters of the input, in order |
| `Words.JoinKeeps` | dashboard.py:27 | every character of a space-join is a space or a character of one of the joined words |
| `Cleaner.PunctuationRanges` | dashboard.py:25 | the four ASCII ranges `!`..`/`, `:`..`@`, `[`..`` ` `` and `{`..`~` hold exactly the characters of the literal `string.punctuation` |
| `Cleaner.IsPunctuation` | dashboard.py:25 | the test `char in string.punctuation`: true exactly for the 32 characters of the literal `string.punctuation` |
| `Cleaner.IsStopword` | dashboard.py:26 | the test `word.lower() in stopwords.words('english')`: true exactly when the given lowercasing of the word is in the given stopword list; it is the definition, with both ingredients parameters, and carries no contract of its own |
| `Cleaner.StripPunctuation` | dashboard.py:25 | the first comprehension leaves no punctuation character, and returns text that has none unchanged |
| `Cleaner.StripPunctuationKeepsRest` | dashboard.py:25 | it deletes only punctuation: every other character keeps its count and its order |
| `Cleaner.KeepWords` | dashboard.py:26 | the second comprehension leaves no word whose lowercase form is a stopword; it returns a stopword-free list unchanged; it is empty exactly when every word is a stopword |
| `Cleaner.KeepWordsKeepsRest` | dashboard.py:26 | it drops only stopwords: every other word keeps its count and its order |
| `Cleaner.CleanWords` | dashboard.py:25-26 | the kept tokens are whitespace-free, non-empty and contain no punctuation |
| `Cleaner.CleanText` | dashboard.py:22-27 | `clean_text("") == ""`; the output has no punctuation; its words are exactly the non-stopword tokens of the punctuation-free text, in order; no word of it is a stopword |
| `Cleaner.CleanTextNormal` | dashboard.py:27 | the output is in single-space-joined normal form: re-joining its words gives it back |
| `Cleaner.CleanTextEmpty` | dashboard.py:23-27 | the output is empty exactly when every token of the punctuation-free text is a stopword |
| `Cleaner.CleanTextNoWords` | dashboard.py:25-27 | the output is empty exactly when it has no words |
| `Cleaner.CleanTextIdempotent` | dashboard.py:22-27 | `clean_text(clean_text(x)) == clean_text(x)` |
| `Cleaner.StripBetween` | dashboard.py:25 | deleting one punctuation character between two punctuation-free texts concatenates them |
| `Cleaner.PunctuationMergesWords` | dashboard.py:25-27 | two words separated only by a punctuation character clean to one merged token (`"end.Next"` becomes `"endNext"`) |
| `Dashboard.WordCount` | dashboard.py:52 | `len(text.split())`, the number of tokens `Split` yields; it is zero exactly for a text that is all whitespace |
| `Dashboard.Validate` | dashboard.py:50-54 | the empty warning exactly for the empty text; the too-short warning exactly for a non-empty text of fewer than 50 words; proceed exactly for 50 words or more |
| `Dashboard.GateOnCleanedText` | dashboard.py:47-54 | on cleaned text, the empty warning comes exactly at 0 words, the too-short warning exactly at 1 to 49 words, and proceed exactly at 50 or more words |
| `Dashboard.Truncate` | dashboard.py:56-59 | at most 1024 words: the text is unchanged; more: the words of the result are the first 1024 input words, in order; the result is then single-space joined (re-joining its words gives it back); the result has min(n, 1024) words and keeps a punctuation-free text punctuation-free |
| `Dashboard.Preview` | dashboard.py:63 | the preview is a prefix of the article of length min(2000, length of the article) |
| `Dashboard.ArticleText` | dashboard.py:44 | the words of the article are the words of the paragraph texts, paragraph by paragraph |
| `Dashboard.Process` | dashboard.py:44-72 | the run warns "empty" exactly when the cleaned article has 0 words, warns "too short" exactly at 1 to 49 words, and reaches the summarizer exactly at 50 words or more, then with an input of 50 to 1024 words |
| `Dashboard.TruncateCleaned` | dashboard.py:56-59 | capping cleaned text leaves its first min(n, 1024) kept words, no punctuation and no stopword |
| `Dashboard.SummarizerInput` | dashboard.py:47-72 | when the summarizer is reached, its input's words are the first min(n, 1024) cleaned words, the input has no punctuation and no stopword, and the preview is the article's prefix of min(2000, length) characters |

## Left out

- Fetching the page with `urllib.request.urlopen` (dashboard.py:37-38) is network I/O, so it is left out.
- Parsing the HTML with BeautifulSoup and lxml, and choosing the `mw-parser-output` container or falling back to all `p` elements (dashboard.py:39-43), belong to a foreign library whose behaviour is not visible here. The model starts from the list of paragraph texts that this step yields.
- Loading the BART model and tokenizer, and the summarization call with its 50 to 150 token bounds (dashboard.py:65-73), are calls into an opaque external model. `Process` returns the input the model would receive, not a summary.
- The Streamlit page, input box, button, spinner and the displays (dashboard.py:13-19, 62, 76-77) are presentation only. The two warnings (dashboard.py:51, 53) are modelled as `Warning` values.
- The trigger `st.button(...) and url` (dashboard.py:34) is a UI event. `Process` models one run after a click with a non-empty URL.
- `wrap_text` (dashboard.py:30-31) wraps `textwrap.wrap`, whose line-breaking rules are not visible here. The preview is modelled before it is wrapped.
- `nltk.download("stopwords")` (dashboard.py:11) is I/O, and the contents of the English stopword list are NLTK data. The list is the `stopwords` field of `Lexicon`. The model treats list membership as set membership, which gives the same answer.
- Dafny's `char` holds only Unicode scalar values, so the model cannot represent a Python `str` that contains lone surrogates (U+D800 to U+DFFF). Neither `str.split()` nor the punctuation test treats surrogates specially: they are neither whitespace nor punctuation. So leaving them out changes no modelled behaviour.
- `str.lower` is Unicode case mapping, which Dafny does not have. It is the `lower` field of `Lexicon`, an arbitrary function from strings to strings. No property proved here depends on what it does.
- The catch-all `except Exception` (dashboard.py:79-80) turns failures into a message. Most of those failures come from the left-out external calls. One modelled step can also fail: `clean_text` reads `stopwords.words('english')` on every call (dashboard.py:26), and that raises when the stopword corpus cannot be read. The corpus download is left out above, so the model treats the stopword list as always available. No other modelled step can fail.
