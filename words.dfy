/** Python's `str.split()` with no separator and `' '.join(...)`, the two
    string primitives dashboard.py builds its cleaning and truncation on. */
module Words {
  import opened Sequences

  type String = seq<char>

  /** CPython's whitespace table (`str.isspace`), which `str.split()` with no
      separator splits on: the C0 controls TAB..CR and FS..US, SPACE, NEL,
      NO-BREAK SPACE, OGHAM SPACE MARK, EN QUAD..HAIR SPACE, LINE and
      PARAGRAPH SEPARATOR, NARROW NO-BREAK SPACE, MEDIUM MATHEMATICAL SPACE
      and IDEOGRAPHIC SPACE. */
  predicate IsSpace(c: char) {
    ('\t' <= c <= '\r') || ('\U{1C}' <= c <= '\U{1F}') || c == ' '
    || c == '\U{85}' || c == '\U{A0}' || c == '\U{1680}'
    || ('\U{2000}' <= c <= '\U{200A}') || c == '\U{2028}' || c == '\U{2029}'
    || c == '\U{202F}' || c == '\U{205F}' || c == '\U{3000}'
  }

  function NotSpace(c: char): bool {
    !IsSpace(c)
  }

  /** A token `str.split()` can produce: non-empty, no whitespace in it. */
  predicate IsWord(w: String) {
    |w| > 0 && forall i :: 0 <= i < |w| ==> !IsSpace(w[i])
  }

  predicate AllWords(ws: seq<String>) {
    forall i :: 0 <= i < |ws| ==> IsWord(ws[i])
  }

  /** The length of the run of non-whitespace characters that starts `s`. */
  function WordLength(s: String): (n: nat)
    ensures n <= |s|
    ensures forall i :: 0 <= i < n ==> !IsSpace(s[i])
    ensures n < |s| ==> IsSpace(s[n])
  {
    if s == [] || IsSpace(s[0]) then 0 else 1 + WordLength(s[1..])
  }

  /** `s.split()`: the maximal runs of non-whitespace characters of `s`, in
      order; leading, trailing and repeated whitespace produce no token. */
  function Split(s: String): (ws: seq<String>)
    ensures AllWords(ws)
    ensures forall i, j :: 0 <= i < |ws| && 0 <= j < |ws[i]| ==> ws[i][j] in s
    decreases |s|
  {
    if s == [] then []
    else if IsSpace(s[0]) then Split(s[1..])
    else
      var n := WordLength(s);
      var rest := Split(s[n..]);
      assert forall i, j :: 0 <= i < |rest| && 0 <= j < |rest[i]| ==> rest[i][j] in s by {
        forall i, j | 0 <= i < |rest| && 0 <= j < |rest[i]| ensures rest[i][j] in s {
          var k :| 0 <= k < |s[n..]| && s[n..][k] == rest[i][j];
          assert s[n + k] == rest[i][j];
        }
      }
      [s[..n]] + rest
  }

  /** `' '.join(ws)`: the tokens of `ws` separated by single spaces. */
  function Join(ws: seq<String>): (s: String)
    ensures ws == [] ==> s == []
    ensures ws != [] ==> |s| == |Concat(ws)| + |ws| - 1
  {
    if |ws| == 0 then []
    else if |ws| == 1 then ws[0]
    else ws[0] + [' '] + Join(ws[1..])
  }

  /** The words of `ps`, each element split on its own, concatenated. */
  function SplitEach(ps: seq<String>): seq<String>
  {
    if ps == [] then [] else Split(ps[0]) + SplitEach(ps[1..])
  }

  /** The characters of the tokens of `ws`, back to back. */
  function Concat(ws: seq<String>): String
  {
    if ws == [] then [] else ws[0] + Concat(ws[1..])
  }

  /** A text has no words exactly when it is all whitespace. */
  lemma SplitEmpty(s: String)
    ensures Split(s) == [] <==> forall i :: 0 <= i < |s| ==> IsSpace(s[i])
  {
    ConcatSplit(s);
    FilterEmpty(s, NotSpace);
    if Split(s) != [] {
      assert Concat(Split(s)) == Split(s)[0] + Concat(Split(s)[1..]);
    }
  }

  /** WordLength is determined by its contract. */
  lemma WordLengthIs(s: String, n: nat)
    requires n <= |s|
    requires forall i :: 0 <= i < n ==> !IsSpace(s[i])
    requires n < |s| ==> IsSpace(s[n])
    ensures WordLength(s) == n
  {
  }

  /** A single whitespace character splits two texts into independent parts:
      `(a + c + b).split() == a.split() + b.split()`. */
  lemma {:induction false} SplitAroundSpace(a: String, c: char, b: String)
    requires IsSpace(c)
    ensures Split(a + [c] + b) == Split(a) + Split(b)
    decreases |a|
  {
    var s := a + [c] + b;
    if a == [] {
      assert s[1..] == b;
    } else if IsSpace(a[0]) {
      assert s[1..] == a[1..] + [c] + b;
      SplitAroundSpace(a[1..], c, b);
    } else {
      var n := WordLength(a);
      WordLengthIs(s, n);
      assert s[..n] == a[..n];
      assert s[n..] == a[n..] + [c] + b;
      SplitAroundSpace(a[n..], c, b);
    }
  }

  /** A single word splits to itself. */
  lemma SplitWord(w: String)
    requires IsWord(w)
    ensures Split(w) == [w]
  {
    WordLengthIs(w, |w|);
    assert w[..|w|] == w;
    assert w[|w|..] == [];
  }

  /** Two words written back to back form one word. */
  lemma WordConcat(a: String, b: String)
    requires IsWord(a) && IsWord(b)
    ensures IsWord(a + b)
  {
    forall i | 0 <= i < |a + b| ensures !IsSpace((a + b)[i]) {
      if i >= |a| {
        assert (a + b)[i] == b[i - |a|];
      }
    }
  }

  /** The words of a space-joined list of texts are the words of each text,
      in order. */
  lemma {:induction false} SplitJoinEach(ps: seq<String>)
    ensures Split(Join(ps)) == SplitEach(ps)
  {
    if |ps| == 1 {
      assert SplitEach(ps) == Split(ps[0]) + SplitEach([]);
    } else if |ps| > 1 {
      SplitAroundSpace(ps[0], ' ', Join(ps[1..]));
      SplitJoinEach(ps[1..]);
    }
  }

  /** Round trip: splitting a space-joined list of words gives the list back. */
  lemma {:induction false} SplitJoin(ws: seq<String>)
    requires AllWords(ws)
    ensures Split(Join(ws)) == ws
  {
    if |ws| == 1 {
      SplitWord(ws[0]);
    } else if |ws| > 1 {
      SplitAroundSpace(ws[0], ' ', Join(ws[1..]));
      SplitWord(ws[0]);
      SplitJoin(ws[1..]);
      assert ws == [ws[0]] + ws[1..];
    }
  }

  /** Joining words gives the empty text only for the empty list. */
  lemma JoinEmpty(ws: seq<String>)
    requires AllWords(ws)
    ensures Join(ws) == [] <==> ws == []
  {
    if |ws| > 0 {
      SplitJoin(ws);
    }
  }

  /** Splitting drops whitespace and nothing else: the tokens, put back to
      back, are the non-whitespace characters of `s` in order. */
  lemma {:induction false} ConcatSplit(s: String)
    ensures Concat(Split(s)) == Filter(s, NotSpace)
    decreases |s|
  {
    if s != [] {
      assert s == [s[0]] + s[1..];
      FilterAppend([s[0]], s[1..], NotSpace);
      if IsSpace(s[0]) {
        ConcatSplit(s[1..]);
      } else {
        var n := WordLength(s);
        ConcatSplit(s[n..]);
        assert s == s[..n] + s[n..];
        FilterAppend(s[..n], s[n..], NotSpace);
        FilterKeepsAll(s[..n], NotSpace);
        assert Concat([s[..n]] + Split(s[n..])) == s[..n] + Concat(Split(s[n..]));
      }
    }
  }

  /** A property of characters that holds of a space and of every character
      of every word holds of every character of their join. */
  lemma {:induction false} JoinKeeps(ws: seq<String>, p: char -> bool)
    requires p(' ')
    requires forall i, j :: 0 <= i < |ws| && 0 <= j < |ws[i]| ==> p(ws[i][j])
    ensures forall k :: 0 <= k < |Join(ws)| ==> p(Join(ws)[k])
  {
    if |ws| > 1 {
      JoinKeeps(ws[1..], p);
      var s := Join(ws);
      forall k | 0 <= k < |s| ensures p(s[k]) {
        if k < |ws[0]| {
          assert s[k] == ws[0][k];
        } else if k > |ws[0]| {
          assert s[k] == Join(ws[1..])[k - |ws[0]| - 1];
        }
      }
    }
  }
}
