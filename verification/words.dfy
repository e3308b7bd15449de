/** JavaScript's `String.prototype.trim`, `split(/\s+/)` and the upload form's word counter.
    Strings are sequences of Unicode scalar values; every JavaScript whitespace character lies
    in the Basic Multilingual Plane, so counting over scalars and over UTF-16 units agree. */
module Words {

  /** The characters JavaScript's `\s` and `trim` treat as whitespace (WhiteSpace and
      LineTerminator of ECMAScript). */
  predicate IsSpace(c: char) {
    || c == ' ' || c == '\t' || c == '\n' || c == '\U{B}' || c == '\U{C}' || c == '\r'
    || c == '\U{A0}' || c == '\U{1680}' || ('\U{2000}' <= c <= '\U{200A}')
    || c == '\U{2028}' || c == '\U{2029}' || c == '\U{202F}' || c == '\U{205F}'
    || c == '\U{3000}' || c == '\U{FEFF}'
  }

  predicate AllSpace(s: string) {
    forall i :: 0 <= i < |s| ==> IsSpace(s[i])
  }

  predicate NoSpace(s: string) {
    forall i :: 0 <= i < |s| ==> !IsSpace(s[i])
  }

  /** First index at or after `i` that does not hold whitespace, or `|s|`. */
  function SkipSpaces(s: string, i: nat): (j: nat)
    requires i <= |s|
    ensures i <= j <= |s|
    ensures forall k :: i <= k < j ==> IsSpace(s[k])
    ensures j < |s| ==> !IsSpace(s[j])
    decreases |s| - i
  {
    if i == |s| || !IsSpace(s[i]) then i else SkipSpaces(s, i + 1)
  }

  /** First index at or after `i` that holds whitespace, or `|s|`. */
  function FindSpace(s: string, i: nat): (j: nat)
    requires i <= |s|
    ensures i <= j <= |s|
    ensures forall k :: i <= k < j ==> !IsSpace(s[k])
    ensures j < |s| ==> IsSpace(s[j])
    decreases |s| - i
  {
    if i == |s| || IsSpace(s[i]) then i else FindSpace(s, i + 1)
  }

  /** Least `j` at or after `lo` such that only whitespace follows position `j`. */
  function TrimmedEnd(s: string, lo: nat, j: nat): (e: nat)
    requires lo <= j <= |s|
    requires forall k :: j <= k < |s| ==> IsSpace(s[k])
    ensures lo <= e <= j
    ensures forall k :: e <= k < |s| ==> IsSpace(s[k])
    ensures e > lo ==> !IsSpace(s[e - 1])
    decreases j
  {
    if j == lo || !IsSpace(s[j - 1]) then j else TrimmedEnd(s, lo, j - 1)
  }

  /** `s.trim()`: `s` without its leading and trailing whitespace. */
  function Trim(s: string): (r: string)
    ensures exists a, b :: 0 <= a <= b <= |s| && r == s[a..b] && AllSpace(s[..a]) && AllSpace(s[b..])
    ensures r == [] || (!IsSpace(r[0]) && !IsSpace(r[|r| - 1]))
    ensures r == [] <==> AllSpace(s)
  {
    var a := SkipSpaces(s, 0);
    var b := TrimmedEnd(s, a, |s|);
    assert AllSpace(s[..a]) && AllSpace(s[b..]);
    s[a..b]
  }

  /** `s.split(/\s+/)`: the pieces between maximal whitespace runs. A leading or trailing run
      yields an empty first or last piece, and the empty string yields `[""]`. */
  function SplitOnSpaceRuns(s: string): (pieces: seq<string>)
    ensures |pieces| >= 1
    ensures forall k :: 0 <= k < |pieces| ==> NoSpace(pieces[k])
    decreases |s|
  {
    var i := FindSpace(s, 0);
    if i == |s| then [s]
    else [s[..i]] + SplitOnSpaceRuns(s[SkipSpaces(s, i)..])
  }

  /** The pieces that are not empty, in order. */
  function NonEmpty(pieces: seq<string>): (words: seq<string>)
    ensures forall k :: 0 <= k < |words| ==> words[k] != []
    ensures |words| <= |pieces|
  {
    if pieces == [] then []
    else (if pieces[0] == [] then [] else [pieces[0]]) + NonEmpty(pieces[1..])
  }

  /** `countWords`: the number of non-empty pieces left when the trimmed text is split at
      every run of whitespace. */
  function CountWords(s: string): nat {
    |NonEmpty(SplitOnSpaceRuns(Trim(s)))|
  }

  /** Reference count of words: the positions holding a non-whitespace character whose
      predecessor is whitespace, or that come first when `afterSpace` holds. */
  function WordStarts(s: string, afterSpace: bool): nat {
    if s == [] then 0
    else (if afterSpace && !IsSpace(s[0]) then 1 else 0) + WordStarts(s[1..], IsSpace(s[0]))
  }

  lemma {:induction false} WordStartsAppend(u: string, v: string, afterSpace: bool)
    ensures WordStarts(u + v, afterSpace)
         == WordStarts(u, afterSpace) + WordStarts(v, if u == [] then afterSpace else IsSpace(u[|u| - 1]))
    decreases |u|
  {
    if u == [] {
      assert u + v == v;
    } else {
      assert (u + v)[1..] == u[1..] + v;
      WordStartsAppend(u[1..], v, IsSpace(u[0]));
    }
  }

  lemma {:induction false} WordStartsOfSpaces(u: string, afterSpace: bool)
    requires AllSpace(u)
    ensures WordStarts(u, afterSpace) == 0
    decreases |u|
  {
    if u != [] {
      WordStartsOfSpaces(u[1..], true);
    }
  }

  lemma {:induction false} WordStartsOfWord(u: string, afterSpace: bool)
    requires NoSpace(u)
    ensures WordStarts(u, afterSpace) == if u != [] && afterSpace then 1 else 0
    decreases |u|
  {
    if u != [] {
      WordStartsOfWord(u[1..], false);
    }
  }

  /** A word, then a whitespace run: the word contributes its one beginning and the text after
      the run is read as following whitespace. */
  lemma WordThenSpaces(w: string, sp: string, rest: string, afterSpace: bool)
    requires NoSpace(w) && AllSpace(sp) && sp != []
    ensures WordStarts(w + sp + rest, afterSpace)
         == (if w != [] && afterSpace then 1 else 0) + WordStarts(rest, true)
  {
    assert w + sp + rest == w + (sp + rest);
    WordStartsAppend(w, sp + rest, afterSpace);
    WordStartsOfWord(w, afterSpace);
    var flag := if w == [] then afterSpace else IsSpace(w[|w| - 1]);
    WordStartsAppend(sp, rest, flag);
    WordStartsOfSpaces(sp, flag);
  }

  /** Dropping the empty pieces of the split leaves exactly one piece per word. */
  lemma {:induction false} SplitCountsWordStarts(t: string)
    ensures |NonEmpty(SplitOnSpaceRuns(t))| == WordStarts(t, true)
    decreases |t|
  {
    var i := FindSpace(t, 0);
    if i == |t| {
      assert NoSpace(t);
      WordStartsOfWord(t, true);
    } else {
      var j := SkipSpaces(t, i);
      var word, run, rest := t[..i], t[i..j], t[j..];
      var pieces := [word] + SplitOnSpaceRuns(rest);
      assert SplitOnSpaceRuns(t) == pieces;
      assert pieces[1..] == SplitOnSpaceRuns(rest);
      assert |NonEmpty(pieces)| == (if word == [] then 0 else 1) + |NonEmpty(SplitOnSpaceRuns(rest))|;
      SplitCountsWordStarts(rest);
      assert t == word + run + rest;
      WordThenSpaces(word, run, rest, true);
    }
  }

  /** Surrounding whitespace begins no word. */
  lemma SurroundingSpaces(lead: string, mid: string, trail: string)
    requires AllSpace(lead) && AllSpace(trail)
    ensures WordStarts(lead + mid + trail, true) == WordStarts(mid, true)
  {
    assert lead + mid + trail == lead + (mid + trail);
    WordStartsAppend(lead, mid + trail, true);
    WordStartsOfSpaces(lead, true);
    WordStartsAppend(mid, trail, true);
    WordStartsOfSpaces(trail, if mid == [] then true else IsSpace(mid[|mid| - 1]));
  }

  lemma TrimKeepsWordStarts(s: string)
    ensures WordStarts(Trim(s), true) == WordStarts(s, true)
  {
    var a := SkipSpaces(s, 0);
    var b := TrimmedEnd(s, a, |s|);
    assert s == s[..a] + s[a..b] + s[b..];
    SurroundingSpaces(s[..a], s[a..b], s[b..]);
  }

  /** The word counter counts the maximal runs of non-whitespace characters. */
  lemma CountWordsIsWordStarts(s: string)
    ensures CountWords(s) == WordStarts(s, true)
  {
    SplitCountsWordStarts(Trim(s));
    TrimKeepsWordStarts(s);
  }

  lemma {:induction false} NoWordStartsIffAllSpace(s: string)
    ensures WordStarts(s, true) == 0 <==> AllSpace(s)
    decreases |s|
  {
    if s != [] {
      NoWordStartsIffAllSpace(s[1..]);
      if AllSpace(s) {
        WordStartsOfSpaces(s, true);
      }
    }
  }

  /** No words exactly when the text is empty or all whitespace. */
  lemma CountWordsZeroIffBlank(s: string)
    ensures CountWords(s) == 0 <==> AllSpace(s)
  {
    CountWordsIsWordStarts(s);
    NoWordStartsIffAllSpace(s);
  }
}
