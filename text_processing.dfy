/**
 * The pure text helpers of the ingestion service: `clean_text` and
 * `extract_keywords` (utils/text_processing.py), and the whitespace splitting
 * and stripping that Python's `str.split()` and `str.strip()` perform, which
 * the content hash and the mapping recovery also rely on.
 *
 * Which characters are "word" characters (the regular-expression class `\w`)
 * and which are whitespace (`\s`, and what `str.split()`/`str.strip()` treat
 * as blank) is Unicode table data; it is passed in as a pair of predicates
 * that are only required to be disjoint and to class ' ' as whitespace.
 */
module TextProcessing {
  import opened Common

  /** The two character classes `\w` and `\s`. */
  datatype CharClasses = CharClasses(isWord: char -> bool, isSpace: char -> bool)

  /** What every Unicode build of Python guarantees of the two classes. */
  ghost predicate WellFormed(cc: CharClasses)
  {
    && cc.isSpace(' ')
    && forall c :: !(cc.isWord(c) && cc.isSpace(c))
  }

  /** The selections of characters made in this module. */
  datatype Class = Word | NonSpace | WordOrSpace

  predicate InClass(cc: CharClasses, k: Class, c: char)
  {
    match k
    case Word => cc.isWord(c)
    case NonSpace => !cc.isSpace(c)
    case WordOrSpace => cc.isWord(c) || cc.isSpace(c)
  }

  /** The characters of `s` that lie in class `k`, in their original order. */
  function Keep(cc: CharClasses, k: Class, s: string): (r: string)
    ensures |r| <= |s|
    ensures forall c :: c in r ==> c in s && InClass(cc, k, c)
  {
    if s == [] then []
    else
      var rest := Keep(cc, k, s[1..]);
      if InClass(cc, k, s[0]) then [s[0]] + rest else rest
  }

  predicate NoSpace(cc: CharClasses, w: string)
  {
    forall i :: 0 <= i < |w| ==> !cc.isSpace(w[i])
  }

  /** The longest prefix of `s` free of whitespace. */
  function LeadingWord(cc: CharClasses, s: string): (w: string)
    ensures |w| <= |s| && w == s[..|w|]
    ensures NoSpace(cc, w)
    ensures |w| < |s| ==> cc.isSpace(s[|w|])
    ensures s != [] && !cc.isSpace(s[0]) ==> w != []
  {
    if s == [] || cc.isSpace(s[0]) then [] else [s[0]] + LeadingWord(cc, s[1..])
  }

  /** `s.split()`: the maximal runs of non-whitespace characters, left to right. */
  function Words(cc: CharClasses, s: string): (ws: seq<string>)
    ensures forall i :: 0 <= i < |ws| ==> ws[i] != [] && NoSpace(cc, ws[i])
    decreases |s|
  {
    if s == [] then []
    else if cc.isSpace(s[0]) then Words(cc, s[1..])
    else
      var w := LeadingWord(cc, s);
      [w] + Words(cc, s[|w|..])
  }

  /** `" ".join(ws)` */
  function JoinSpace(ws: seq<string>): string
  {
    if ws == [] then "" else if |ws| == 1 then ws[0] else ws[0] + " " + JoinSpace(ws[1..])
  }

  /** `" ".join(s.split())`: every run of whitespace becomes one space, none at either end. */
  function Collapse(cc: CharClasses, s: string): string
  {
    JoinSpace(Words(cc, s))
  }

  /** `clean_text`: collapse whitespace, then delete every character that is neither `\w` nor `\s`. */
  function CleanText(cc: CharClasses, s: string): string
  {
    Keep(cc, WordOrSpace, Collapse(cc, s))
  }

  /** No space at either end and no two spaces side by side. */
  predicate Tidy(t: string)
  {
    && (t != [] ==> t[0] != ' ' && t[|t| - 1] != ' ')
    && forall i :: 0 < i < |t| ==> !(t[i - 1] == ' ' && t[i] == ' ')
  }

  /** `[w for w in ws if len(w) > 4]` */
  function LongWords(ws: seq<string>): (r: seq<string>)
    ensures |r| <= |ws|
    ensures forall w :: w in r ==> |w| > 4 && w in ws
  {
    if ws == [] then [] else (if |ws[0]| > 4 then [ws[0]] else []) + LongWords(ws[1..])
  }

  /** `extract_keywords`: the whitespace-separated tokens longer than four characters. */
  function ExtractKeywords(cc: CharClasses, text: string): (r: seq<string>)
    ensures forall w :: w in r ==> |w| > 4 && NoSpace(cc, w)
    ensures |r| <= |Words(cc, text)|
  {
    LongWords(Words(cc, text))
  }

  /** `a` can be obtained from `b` by deleting elements. */
  predicate IsSubsequence<T(==)>(a: seq<T>, b: seq<T>)
    decreases |b|
  {
    a == [] || (b != [] && ((a[0] == b[0] && IsSubsequence(a[1..], b[1..])) || IsSubsequence(a, b[1..])))
  }

  /** `s.strip()`: drop leading and trailing whitespace. */
  function Strip(cc: CharClasses, s: string): (r: string)
    ensures |r| <= |s|
    ensures r != [] ==> !cc.isSpace(r[0]) && !cc.isSpace(r[|r| - 1])
  {
    TrimEnd(cc, TrimStart(cc, s))
  }

  function TrimStart(cc: CharClasses, s: string): (r: string)
    ensures |r| <= |s| && r == s[|s| - |r|..]
    ensures r != [] ==> !cc.isSpace(r[0])
  {
    if s != [] && cc.isSpace(s[0]) then TrimStart(cc, s[1..]) else s
  }

  function TrimEnd(cc: CharClasses, s: string): (r: string)
    ensures |r| <= |s| && r == s[..|r|]
    ensures r != [] ==> !cc.isSpace(r[|r| - 1])
    ensures s != [] && !cc.isSpace(s[0]) ==> r != [] && r[0] == s[0]
  {
    if s != [] && cc.isSpace(s[|s| - 1]) then TrimEnd(cc, s[..|s| - 1]) else s
  }

  predicate AllSpace(cc: CharClasses, s: string)
  {
    forall i :: 0 <= i < |s| ==> cc.isSpace(s[i])
  }

  // ---------------------------------------------------------------------
  // Lemmas about Keep

  lemma {:induction false} KeepAppend(cc: CharClasses, k: Class, a: string, b: string)
    ensures Keep(cc, k, a + b) == Keep(cc, k, a) + Keep(cc, k, b)
  {
    if a == [] {
      assert a + b == b;
    } else {
      assert (a + b)[1..] == a[1..] + b;
      KeepAppend(cc, k, a[1..], b);
    }
  }

  lemma {:induction false} KeepAll(cc: CharClasses, k: Class, s: string)
    requires forall i :: 0 <= i < |s| ==> InClass(cc, k, s[i])
    ensures Keep(cc, k, s) == s
  {
    if s != [] {
      KeepAll(cc, k, s[1..]);
    }
  }

  lemma {:induction false} KeepNone(cc: CharClasses, k: Class, s: string)
    requires forall i :: 0 <= i < |s| ==> !InClass(cc, k, s[i])
    ensures Keep(cc, k, s) == []
  {
    if s != [] {
      KeepNone(cc, k, s[1..]);
    }
  }

  /** Selecting a narrower class after a wider one is selecting the narrower one. */
  lemma {:induction false} KeepNarrower(cc: CharClasses, narrow: Class, wide: Class, s: string)
    requires forall c :: InClass(cc, narrow, c) ==> InClass(cc, wide, c)
    ensures Keep(cc, narrow, Keep(cc, wide, s)) == Keep(cc, narrow, s)
  {
    if s != [] {
      KeepNarrower(cc, narrow, wide, s[1..]);
    }
  }

  // ---------------------------------------------------------------------
  // Lemmas about splitting and joining

  /** The tokens of `s.split()` are exactly the non-whitespace characters of `s`, in order. */
  lemma {:induction false} WordsFlatten(cc: CharClasses, s: string)
    ensures Flatten(Words(cc, s)) == Keep(cc, NonSpace, s)
    decreases |s|
  {
    if s == [] {
    } else if cc.isSpace(s[0]) {
      WordsFlatten(cc, s[1..]);
    } else {
      var w := LeadingWord(cc, s);
      var rest := s[|w|..];
      WordsFlatten(cc, rest);
      assert ([w] + Words(cc, rest))[1..] == Words(cc, rest);
      assert s == w + rest;
      KeepAppend(cc, NonSpace, w, rest);
      KeepAll(cc, NonSpace, w);
    }
  }

  /** Joining inserts only spaces, which are not word characters. */
  lemma {:induction false} KeepWordJoin(cc: CharClasses, ws: seq<string>)
    requires WellFormed(cc)
    ensures Keep(cc, Word, JoinSpace(ws)) == Keep(cc, Word, Flatten(ws))
  {
    if ws == [] {
    } else if |ws| == 1 {
      assert Flatten(ws) == ws[0] + Flatten(ws[1..]);
      assert ws[1..] == [];
      assert Flatten(ws) == ws[0];
    } else {
      KeepWordJoin(cc, ws[1..]);
      assert !cc.isWord(' ');
      KeepAppend(cc, Word, ws[0] + " ", JoinSpace(ws[1..]));
      KeepAppend(cc, Word, ws[0], " ");
      KeepAppend(cc, Word, ws[0], Flatten(ws[1..]));
    }
  }

  /** Every character of a join of whitespace-free tokens is a space or a non-whitespace character. */
  lemma {:induction false} JoinChars(cc: CharClasses, ws: seq<string>)
    requires forall i :: 0 <= i < |ws| ==> NoSpace(cc, ws[i])
    ensures forall c :: c in JoinSpace(ws) ==> c == ' ' || (!cc.isSpace(c) && c in Flatten(ws))
  {
    if |ws| > 1 {
      JoinChars(cc, ws[1..]);
      var j := JoinSpace(ws);
      forall c | c in j
        ensures c == ' ' || (!cc.isSpace(c) && c in Flatten(ws))
      {
        var i :| 0 <= i < |j| && j[i] == c;
        if i < |ws[0]| {
          assert c == ws[0][i];
        } else if i > |ws[0]| {
          assert c == JoinSpace(ws[1..])[i - |ws[0]| - 1];
        }
      }
    } else if |ws| == 1 {
      assert Flatten(ws) == ws[0] + Flatten(ws[1..]);
      forall c | c in JoinSpace(ws)
        ensures !cc.isSpace(c) && c in Flatten(ws)
      {
        var i :| 0 <= i < |ws[0]| && ws[0][i] == c;
      }
    }
  }

  /** A join of non-empty tokens that contain no space is tidy. */
  lemma {:induction false} JoinTidy(ws: seq<string>)
    requires forall i :: 0 <= i < |ws| ==> ws[i] != [] && ' ' !in ws[i]
    ensures Tidy(JoinSpace(ws))
    ensures ws != [] ==> JoinSpace(ws) != [] && JoinSpace(ws)[0] == ws[0][0]
  {
    if |ws| == 1 {
      assert ' ' !in ws[0];
    } else if |ws| > 1 {
      var w, j := ws[0], JoinSpace(ws[1..]);
      JoinTidy(ws[1..]);
      var t := w + " " + j;
      assert t == JoinSpace(ws);
      forall i | 0 < i < |t|
        ensures !(t[i - 1] == ' ' && t[i] == ' ')
      {
        if i < |w| {
          assert t[i] == w[i];
          assert w[i] in w;
        } else if i == |w| {
          assert t[i - 1] == w[|w| - 1];
          assert w[|w| - 1] in w;
        } else if i == |w| + 1 {
          assert t[i] == j[0];
        } else {
          assert t[i - 1] == j[i - 1 - |w| - 1] && t[i] == j[i - |w| - 1];
        }
      }
      assert t[|t| - 1] == j[|j| - 1];
      assert t[0] == w[0];
    }
  }

  /** `" ".join(s.split())` is never longer than `s`. */
  lemma {:induction false} CollapseLength(cc: CharClasses, s: string)
    ensures |Collapse(cc, s)| <= |s|
    decreases |s|
  {
    if s == [] {
    } else if cc.isSpace(s[0]) {
      CollapseLength(cc, s[1..]);
    } else {
      var w := LeadingWord(cc, s);
      var rest := s[|w|..];
      var tail := Words(cc, rest);
      assert Words(cc, s) == [w] + tail;
      if tail == [] {
        assert JoinSpace([w] + tail) == w;
      } else {
        assert rest != [];
        assert cc.isSpace(rest[0]);
        assert tail == Words(cc, rest[1..]);
        CollapseLength(cc, rest[1..]);
        assert ([w] + tail)[1..] == tail;
        assert JoinSpace([w] + tail) == w + " " + JoinSpace(tail);
      }
    }
  }

  // ---------------------------------------------------------------------
  // What clean_text and extract_keywords promise

  /** Every character `clean_text` returns is a word character or a space. */
  lemma CleanTextCharset(cc: CharClasses, s: string)
    requires WellFormed(cc)
    ensures forall c :: c in CleanText(cc, s) ==> cc.isWord(c) || c == ' '
  {
    var j := Collapse(cc, s);
    JoinChars(cc, Words(cc, s));
    forall c | c in CleanText(cc, s)
      ensures cc.isWord(c) || c == ' '
    {
      assert c in j && InClass(cc, WordOrSpace, c);
    }
  }

  /** Deleting the spaces from `clean_text(s)` leaves exactly the word characters of `s`, in order. */
  lemma CleanTextKeepsWordChars(cc: CharClasses, s: string)
    requires WellFormed(cc)
    ensures Keep(cc, Word, CleanText(cc, s)) == Keep(cc, Word, s)
    ensures Keep(cc, NonSpace, CleanText(cc, s)) == Keep(cc, Word, s)
  {
    var ws := Words(cc, s);
    KeepNarrower(cc, Word, WordOrSpace, Collapse(cc, s));
    KeepWordJoin(cc, ws);
    WordsFlatten(cc, s);
    KeepNarrower(cc, Word, NonSpace, s);
    CleanTextCharset(cc, s);
    KeepSameOn(cc, NonSpace, Word, CleanText(cc, s));
  }

  /** Two classes that agree on every character of `s` select the same characters. */
  lemma {:induction false} KeepSameOn(cc: CharClasses, a: Class, b: Class, s: string)
    requires forall c :: c in s ==> (InClass(cc, a, c) <==> InClass(cc, b, c))
    ensures Keep(cc, a, s) == Keep(cc, b, s)
  {
    if s != [] {
      KeepSameOn(cc, a, b, s[1..]);
    }
  }

  /** `clean_text` never lengthens its input. */
  lemma CleanTextNoLonger(cc: CharClasses, s: string)
    ensures |CleanText(cc, s)| <= |s|
  {
    CollapseLength(cc, s);
  }

  /** Without characters outside `\w` and `\s`, `clean_text` leaves no space at either end and none doubled. */
  lemma CleanTextTidy(cc: CharClasses, s: string)
    requires WellFormed(cc)
    requires forall i :: 0 <= i < |s| ==> cc.isWord(s[i]) || cc.isSpace(s[i])
    ensures CleanText(cc, s) == Collapse(cc, s)
    ensures Tidy(CleanText(cc, s))
  {
    var ws := Words(cc, s);
    var j := Collapse(cc, s);
    JoinChars(cc, ws);
    WordsFlatten(cc, s);
    forall i | 0 <= i < |j|
      ensures InClass(cc, WordOrSpace, j[i])
    {
      assert j[i] in j;
      if j[i] != ' ' {
        assert j[i] in Keep(cc, NonSpace, s);
      }
    }
    KeepAll(cc, WordOrSpace, j);
    forall i | 0 <= i < |ws|
      ensures ws[i] != [] && ' ' !in ws[i]
    {
      assert NoSpace(cc, ws[i]);
    }
    JoinTidy(ws);
  }

  /** The keywords are the tokens longer than four characters, each occurrence kept, in order. */
  lemma {:induction false} LongWordsExactly(ws: seq<string>)
    ensures IsSubsequence(LongWords(ws), ws)
    ensures forall x :: multiset(LongWords(ws))[x] == if |x| > 4 then multiset(ws)[x] else 0
  {
    if ws != [] {
      LongWordsExactly(ws[1..]);
      assert ws == [ws[0]] + ws[1..];
      var r := LongWords(ws);
      if |ws[0]| > 4 {
        assert r == [ws[0]] + LongWords(ws[1..]);
        assert r[1..] == LongWords(ws[1..]);
      } else {
        assert r == LongWords(ws[1..]);
        if r != [] {
          assert r[0] in r;
        }
      }
    }
  }

  lemma ExtractKeywordsExactly(cc: CharClasses, text: string)
    ensures IsSubsequence(ExtractKeywords(cc, text), Words(cc, text))
    ensures forall x :: multiset(ExtractKeywords(cc, text))[x] ==
                        if |x| > 4 then multiset(Words(cc, text))[x] else 0
  {
    LongWordsExactly(Words(cc, text));
  }

  // ---------------------------------------------------------------------
  // Stripping

  lemma {:induction false} TrimStartSkipsSpace(cc: CharClasses, pre: string, s: string)
    requires AllSpace(cc, pre)
    ensures TrimStart(cc, pre + s) == TrimStart(cc, s)
  {
    if pre == [] {
      assert pre + s == s;
    } else {
      assert (pre + s)[0] == pre[0] && cc.isSpace(pre[0]);
      assert (pre + s)[1..] == pre[1..] + s;
      TrimStartSkipsSpace(cc, pre[1..], s);
    }
  }

  lemma {:induction false} TrimEndSkipsSpace(cc: CharClasses, s: string, post: string)
    requires AllSpace(cc, post)
    ensures TrimEnd(cc, s + post) == TrimEnd(cc, s)
    decreases |post|
  {
    if post == [] {
      assert s + post == s;
    } else {
      var shorter := post[..|post| - 1];
      assert (s + post)[|s + post| - 1] == post[|post| - 1] && cc.isSpace(post[|post| - 1]);
      assert (s + post)[..|s + post| - 1] == s + shorter;
      TrimEndSkipsSpace(cc, s, shorter);
    }
  }

  /** Leading whitespace is dropped before the trailing end is trimmed. */
  lemma {:induction false} TrimEndAfterSpace(cc: CharClasses, s: string, post: string)
    requires AllSpace(cc, post)
    ensures TrimStart(cc, s + post) == TrimStart(cc, s) + post || TrimStart(cc, s) == []
    ensures TrimStart(cc, s) == [] ==> TrimStart(cc, s + post) == []
  {
    if s == [] {
      assert s + post == post;
      TrimStartAllSpace(cc, post);
    } else if cc.isSpace(s[0]) {
      assert (s + post)[1..] == s[1..] + post;
      TrimEndAfterSpace(cc, s[1..], post);
    }
  }

  lemma {:induction false} TrimStartAllSpace(cc: CharClasses, s: string)
    requires AllSpace(cc, s)
    ensures TrimStart(cc, s) == []
  {
    if s != [] {
      TrimStartAllSpace(cc, s[1..]);
    }
  }

  /** Surrounding whitespace does not change what `strip()` returns. */
  lemma StripIgnoresSurroundingSpace(cc: CharClasses, pre: string, s: string, post: string)
    requires AllSpace(cc, pre) && AllSpace(cc, post)
    ensures Strip(cc, pre + s + post) == Strip(cc, s)
  {
    assert pre + s + post == pre + (s + post);
    TrimStartSkipsSpace(cc, pre, s + post);
    TrimEndAfterSpace(cc, s, post);
    if TrimStart(cc, s) != [] {
      TrimEndSkipsSpace(cc, TrimStart(cc, s), post);
    }
  }

  /** A text made only of whitespace strips to nothing, and only such a text does. */
  lemma {:induction false} StripEmptyIffBlank(cc: CharClasses, s: string)
    ensures Strip(cc, s) == [] <==> AllSpace(cc, s)
  {
    if AllSpace(cc, s) {
      TrimStartAllSpace(cc, s);
    } else {
      var i :| 0 <= i < |s| && !cc.isSpace(s[i]);
      TrimStartKeeps(cc, s, i);
    }
  }

  lemma {:induction false} TrimStartKeeps(cc: CharClasses, s: string, i: int)
    requires 0 <= i < |s| && !cc.isSpace(s[i])
    ensures TrimStart(cc, s) != [] && !cc.isSpace(TrimStart(cc, s)[0])
  {
    if cc.isSpace(s[0]) {
      TrimStartKeeps(cc, s[1..], i - 1);
    }
  }
}
