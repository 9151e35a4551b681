/** Python's string operations used by the chunker, on `seq<char>`. */
module Text {

  const BLANK_LINE := "\n\n"

  /** The characters that `str.strip` and `str.split` treat as white space. */
  predicate IsSpace(c: char) {
    || '\t' <= c <= '\r'
    || '\U{1C}' <= c <= ' '
    || c == '\U{85}' || c == '\U{A0}' || c == '\U{1680}'
    || '\U{2000}' <= c <= '\U{200A}'
    || c == '\U{2028}' || c == '\U{2029}' || c == '\U{202F}' || c == '\U{205F}' || c == '\U{3000}'
  }

  /** The first position at or after `i` that holds no white space. */
  function SkipSpace(s: string, i: nat): (r: nat)
    requires i <= |s|
    ensures i <= r <= |s|
    decreases |s| - i
  {
    if i == |s| || !IsSpace(s[i]) then i else SkipSpace(s, i + 1)
  }

  lemma {:induction false} SkipSpaceFacts(s: string, i: nat)
    requires i <= |s|
    ensures var r := SkipSpace(s, i);
            && (r < |s| ==> !IsSpace(s[r]))
            && forall j :: i <= j < r ==> IsSpace(s[j])
    decreases |s| - i
  {
    if i < |s| && IsSpace(s[i]) { SkipSpaceFacts(s, i + 1); }
  }

  /** The end of `s[lo..hi]` once its trailing white space is cut off. */
  function TrimEnd(s: string, lo: nat, hi: nat): (r: nat)
    requires lo <= hi <= |s|
    ensures lo <= r <= hi
  {
    if lo == hi || !IsSpace(s[hi - 1]) then hi else TrimEnd(s, lo, hi - 1)
  }

  lemma {:induction false} TrimEndFacts(s: string, lo: nat, hi: nat)
    requires lo <= hi <= |s|
    ensures var r := TrimEnd(s, lo, hi);
            && (lo < r ==> !IsSpace(s[r - 1]))
            && forall j :: r <= j < hi ==> IsSpace(s[j])
  {
    if lo < hi && IsSpace(s[hi - 1]) { TrimEndFacts(s, lo, hi - 1); }
  }

  /** `s.strip()`. */
  function Strip(s: string): string {
    var lo := SkipSpace(s, 0);
    s[lo..TrimEnd(s, lo, |s|)]
  }

  predicate Blank(s: string) {
    forall i :: 0 <= i < |s| ==> IsSpace(s[i])
  }

  predicate NoSpace(p: string) {
    forall i :: 0 <= i < |p| ==> !IsSpace(p[i])
  }

  /** Neither end of `s` is white space. */
  predicate Trimmed(s: string) {
    s != "" ==> !IsSpace(s[0]) && !IsSpace(s[|s| - 1])
  }

  lemma StripFacts(s: string)
    ensures Trimmed(Strip(s)) && |Strip(s)| <= |s|
    ensures Strip(s) == "" <==> Blank(s)
    ensures Trimmed(s) ==> Strip(s) == s
  {
    var lo := SkipSpace(s, 0);
    SkipSpaceFacts(s, 0);
    TrimEndFacts(s, lo, |s|);
  }

  /** `Strip` takes nothing but white space from the ends, and all of it. */
  lemma StripMeans(s: string) returns (lo: nat, hi: nat)
    ensures lo <= hi <= |s| && Strip(s) == s[lo..hi] && Trimmed(s[lo..hi])
    ensures Blank(s[..lo]) && Blank(s[hi..])
  {
    StripFacts(s);
    lo := SkipSpace(s, 0);
    hi := TrimEnd(s, lo, |s|);
    SkipSpaceFacts(s, 0);
    TrimEndFacts(s, lo, |s|);
  }

  lemma {:induction false} TrimEndSnoc(s: string, c: char, lo: nat, hi: nat)
    requires lo <= hi <= |s|
    ensures TrimEnd(s + [c], lo, hi) == TrimEnd(s, lo, hi)
  {
    if lo < hi && IsSpace(s[hi - 1]) { TrimEndSnoc(s, c, lo, hi - 1); }
  }

  lemma StripSpaceSnoc(s: string, c: char)
    requires IsSpace(c)
    ensures Strip(s + [c]) == Strip(s)
  {
    var t := s + [c];
    var lo := SkipSpace(s, 0);
    SkipSpaceFacts(s, 0);
    SkipSpaceFacts(t, 0);
    assert forall j :: 0 <= j < |s| ==> t[j] == s[j];
    if lo < |s| {
      assert SkipSpace(t, 0) == lo;
      TrimEndSnoc(s, c, lo, |s|);
    } else {
      StripFacts(t);
    }
  }

  // ---- Paragraphs --------------------------------------------------------

  /** A blank line starts at position `i`. */
  predicate BreakAt(s: string, i: int) {
    0 <= i && i + 1 < |s| && s[i] == '\n' && s[i + 1] == '\n'
  }

  predicate Unbroken(s: string) {
    forall i :: 0 <= i < |s| ==> !BreakAt(s, i)
  }

  /** The leftmost break at or after `i`, or the end of the text. */
  function NextBreak(s: string, i: nat): (r: nat)
    requires i <= |s|
    ensures i <= r <= |s|
    ensures r < |s| ==> BreakAt(s, r)
    decreases |s| - i
  {
    if i == |s| || BreakAt(s, i) then i else NextBreak(s, i + 1)
  }

  lemma {:induction false} NextBreakIsFirst(s: string, i: nat)
    requires i <= |s|
    ensures forall j :: i <= j < NextBreak(s, i) ==> !BreakAt(s, j)
    decreases |s| - i
  {
    if i < |s| && !BreakAt(s, i) { NextBreakIsFirst(s, i + 1); }
  }

  /** The end of the run of newlines that starts at `i`. */
  function RunEnd(s: string, i: nat): (r: nat)
    requires i <= |s|
    ensures i <= r <= |s|
    decreases |s| - i
  {
    if i == |s| || s[i] != '\n' then i else RunEnd(s, i + 1)
  }

  lemma {:induction false} RunEndFacts(s: string, i: nat)
    requires i <= |s|
    ensures var r := RunEnd(s, i);
            && (r < |s| ==> s[r] != '\n')
            && forall j :: i <= j < r ==> s[j] == '\n'
    decreases |s| - i
  {
    if i < |s| && s[i] == '\n' { RunEndFacts(s, i + 1); }
  }

  function Nonblank(s: string): seq<string> {
    if Strip(s) == "" then [] else [Strip(s)]
  }

  /** The parts between runs of two or more newlines, each stripped, without the blank ones. */
  function Paragraphs(s: string): seq<string>
    decreases |s|
  {
    var i := NextBreak(s, 0);
    if i == |s| then Nonblank(s) else Nonblank(s[..i]) + Paragraphs(s[RunEnd(s, i + 2)..])
  }

  /** What a paragraph produced by `Paragraphs` looks like. */
  predicate Clean(p: string) {
    && p != "" && !IsSpace(p[0]) && !IsSpace(p[|p| - 1])
    && Unbroken(p)
  }

  predicate AllClean(ps: seq<string>) {
    forall i :: 0 <= i < |ps| ==> Clean(ps[i])
  }

  lemma NonblankClean(s: string)
    requires Unbroken(s)
    ensures AllClean(Nonblank(s))
  {
    StripFacts(s);
    var lo := SkipSpace(s, 0);
    forall i | 0 <= i < |Strip(s)| ensures !BreakAt(Strip(s), i) {
      assert !BreakAt(s, lo + i);
    }
  }

  /** The part before the first break has none. */
  lemma HeadUnbroken(s: string)
    ensures Unbroken(s[..NextBreak(s, 0)])
  {
    var i := NextBreak(s, 0);
    NextBreakIsFirst(s, 0);
    forall j | 0 <= j < i ensures !BreakAt(s[..i], j) { assert !BreakAt(s, j); }
  }

  lemma {:induction false} ParagraphsClean(s: string)
    ensures AllClean(Paragraphs(s))
    decreases |s|
  {
    var i := NextBreak(s, 0);
    HeadUnbroken(s);
    NonblankClean(s[..i]);
    if i < |s| {
      ParagraphsClean(s[RunEnd(s, i + 2)..]);
    } else {
      assert s[..i] == s;
    }
  }

  lemma ParagraphsOfUnbroken(p: string)
    requires Unbroken(p)
    ensures Paragraphs(p) == Nonblank(p)
  {
    var i := NextBreak(p, 0);
    assert i == |p|;
  }

  lemma BlankParts(s: string, i: nat, e: nat)
    requires i <= e <= |s| && forall j :: i <= j < e ==> IsSpace(s[j])
    ensures Blank(s) <==> Blank(s[..i]) && Blank(s[e..])
  {
    if Blank(s[..i]) && Blank(s[e..]) {
      forall j | 0 <= j < |s| ensures IsSpace(s[j]) {
        if j < i { assert s[j] == s[..i][j]; } else if j >= e { assert s[j] == s[e..][j - e]; }
      }
    }
  }

  lemma NonblankIff(s: string)
    ensures Nonblank(s) == [] <==> Blank(s)
  {
    StripFacts(s);
  }

  lemma BlankAroundBreak(s: string, i: nat)
    requires BreakAt(s, i)
    ensures Blank(s) <==> Blank(s[..i]) && Blank(s[RunEnd(s, i + 2)..])
  {
    RunEndFacts(s, i + 2);
    BlankParts(s, i, RunEnd(s, i + 2));
  }

  /** A text has a paragraph exactly when it is not blank. */
  lemma {:induction false} NonblankHasParagraph(s: string)
    ensures Paragraphs(s) == [] <==> Blank(s)
    decreases |s|
  {
    var i := NextBreak(s, 0);
    if i < |s| {
      NonblankHasParagraph(s[RunEnd(s, i + 2)..]);
      NonblankIff(s[..i]);
      BlankAroundBreak(s, i);
    } else {
      NonblankIff(s);
    }
  }

  lemma RunReaches(s: string, from: nat, n: nat, p: string)
    requires n + 2 <= |s| && from <= n + 2 && s[n + 2..] == p
    requires forall j :: from <= j < n + 2 ==> s[j] == '\n'
    requires p == "" || p[0] != '\n'
    ensures RunEnd(s, from) == n + 2
  {
    RunEndFacts(s, from);
    assert p != "" ==> s[n + 2] == p[0];
  }

  lemma FirstBreakOfConcat(x: string, p: string)
    ensures var i := NextBreak(x + BLANK_LINE + p, 0);
            i <= |x| && NextBreak(x, 0) == if i < |x| - 1 then i else |x|
  {
    var s := x + BLANK_LINE + p;
    var n := |x|;
    assert s[n] == '\n' && s[n + 1] == '\n';
    assert BreakAt(s, n);
    NextBreakIsFirst(s, 0);
    NextBreakIsFirst(x, 0);
    assert forall j :: 0 <= j < n - 1 ==> BreakAt(x, j) == BreakAt(s, j);
  }

  lemma ParagraphsUnfold(s: string, i: nat, head: string, rest: string)
    requires i == NextBreak(s, 0) < |s|
    requires head == s[..i] && rest == s[RunEnd(s, i + 2)..]
    ensures Paragraphs(s) == Nonblank(head) + Paragraphs(rest)
  {}

  lemma ConcatStep(x: string, p: string, i: nat, f: nat)
    requires i + 2 <= f <= |x|
    requires NextBreak(x + BLANK_LINE + p, 0) == i == NextBreak(x, 0)
    requires RunEnd(x + BLANK_LINE + p, i + 2) == f == RunEnd(x, i + 2)
    requires Paragraphs(x[f..] + BLANK_LINE + p) == Paragraphs(x[f..]) + Paragraphs(p)
    ensures Paragraphs(x + BLANK_LINE + p) == Paragraphs(x) + Paragraphs(p)
  {
    var s := x + BLANK_LINE + p;
    assert s[..i] == x[..i];
    assert s[f..] == x[f..] + BLANK_LINE + p;
    ParagraphsUnfold(s, i, x[..i], x[f..] + BLANK_LINE + p);
    ParagraphsUnfold(x, i, x[..i], x[f..]);
    Assoc(Nonblank(x[..i]), Paragraphs(x[f..]), Paragraphs(p));
  }

  lemma Assoc<T>(a: seq<T>, b: seq<T>, c: seq<T>)
    ensures a + (b + c) == a + b + c
  {}

  lemma SameRunEnd(x: string, y: string, i: nat)
    requires i <= |x| && RunEnd(x, i) < |x|
    ensures RunEnd(x + y, i) == RunEnd(x, i)
  {
    RunEndFacts(x, i);
    RunEndFacts(x + y, i);
    assert forall j :: 0 <= j < |x| ==> (x + y)[j] == x[j];
  }

  /** Splitting is a homomorphism at every blank line that is not followed by another newline. */
  lemma {:induction false} ParagraphsConcat(x: string, p: string)
    requires p == "" || p[0] != '\n'
    ensures Paragraphs(x + BLANK_LINE + p) == Paragraphs(x) + Paragraphs(p)
    decreases |x|
  {
    var s := x + BLANK_LINE + p;
    var n, i := |x|, NextBreak(x + BLANK_LINE + p, 0);
    FirstBreakOfConcat(x, p);
    if i < n - 1 && RunEnd(x, i + 2) < n {
      var f := RunEnd(x, i + 2);
      SameRunEnd(x, BLANK_LINE + p, i + 2);
      assert s == x + (BLANK_LINE + p);
      ParagraphsConcat(x[f..], p);
      ConcatStep(x, p, i, f);
    } else {
      if i < n - 1 { RunEndFacts(x, i + 2); }
      assert forall j :: 0 <= j < n ==> s[j] == x[j];
      assert s[n + 2..] == p;
      RunReaches(s, i + 2, n, p);
      ConcatLastBlock(x, p, i);
    }
  }

  /** The case of `ParagraphsConcat` in which the first break of the whole is the joint. */
  lemma ConcatLastBlock(x: string, p: string, i: nat)
    requires i == NextBreak(x + BLANK_LINE + p, 0)
    requires i <= |x| && NextBreak(x, 0) == if i < |x| - 1 then i else |x|
    requires RunEnd(x + BLANK_LINE + p, i + 2) == |x| + 2
    requires i < |x| - 1 ==> RunEnd(x, i + 2) == |x|
    ensures Paragraphs(x + BLANK_LINE + p) == Paragraphs(x) + Paragraphs(p)
  {
    var s := x + BLANK_LINE + p;
    var n := |x|;
    assert s[n + 2..] == p;
    if i < n - 1 {
      assert s[..i] == x[..i];
      assert x[n..] == "";
    } else if i == n - 1 {
      assert s[..i] == x[..i];
      assert x == x[..i] + [x[i]];
      assert BreakAt(s, i) && s[i] == x[i];
      StripSpaceSnoc(x[..i], x[i]);
    } else {
      assert s[..i] == x;
    }
  }

  /** `sep.join(ps)`. */
  function Join(sep: string, ps: seq<string>): string {
    if ps == [] then ""
    else if |ps| == 1 then ps[0]
    else ps[0] + sep + Join(sep, ps[1..])
  }

  lemma {:induction false} JoinSnoc(sep: string, ps: seq<string>, p: string)
    requires ps != []
    ensures Join(sep, ps + [p]) == Join(sep, ps) + sep + p
  {
    if |ps| > 1 {
      JoinSnoc(sep, ps[1..], p);
      assert (ps + [p])[1..] == ps[1..] + [p];
      assert ps[0] + sep + (Join(sep, ps[1..]) + sep + p) == (ps[0] + sep + Join(sep, ps[1..])) + sep + p;
    }
  }

  lemma {:induction false} JoinAppend(sep: string, ps: seq<string>, qs: seq<string>)
    requires ps != [] && qs != []
    ensures Join(sep, ps + qs) == Join(sep, ps) + sep + Join(sep, qs)
  {
    if |ps| == 1 {
      assert (ps + qs)[1..] == qs;
    } else {
      JoinAppend(sep, ps[1..], qs);
      assert (ps + qs)[1..] == ps[1..] + qs;
      assert ps[0] + sep + (Join(sep, ps[1..]) + sep + Join(sep, qs))
          == (ps[0] + sep + Join(sep, ps[1..])) + sep + Join(sep, qs);
    }
  }

  /** Splitting undoes joining: clean paragraphs survive the round trip unchanged. */
  lemma {:induction false} ParagraphsOfJoin(ps: seq<string>)
    requires AllClean(ps)
    ensures Paragraphs(Join(BLANK_LINE, ps)) == ps
    ensures ps != [] ==> Join(BLANK_LINE, ps) != "" && !IsSpace(Join(BLANK_LINE, ps)[0])
  {
    if ps == [] {
    } else {
      ParagraphsOfUnbroken(ps[0]);
      StripFacts(ps[0]);
      if |ps| > 1 {
        ParagraphsOfJoin(ps[1..]);
        ParagraphsConcat(ps[0], Join(BLANK_LINE, ps[1..]));
      }
    }
  }

  // ---- Searching ---------------------------------------------------------

  predicate OccursAt(text: string, sub: string, i: int) {
    0 <= i && i + |sub| <= |text| && text[i..i + |sub|] == sub
  }

  predicate Occurs(text: string, sub: string) {
    exists i :: 0 <= i <= |text| && OccursAt(text, sub, i)
  }

  /** `text.find(sub, i)`. */
  function FindFrom(text: string, sub: string, i: nat): (r: int)
    requires i <= |text|
    ensures r == -1 || (i <= r <= |text| && OccursAt(text, sub, r))
    decreases |text| - i
  {
    if OccursAt(text, sub, i) then i
    else if i == |text| then -1
    else FindFrom(text, sub, i + 1)
  }

  /** The end of the word that starts at `i`. */
  function WordEnd(s: string, i: nat): (r: nat)
    requires i <= |s|
    ensures i <= r <= |s|
    ensures i < |s| && !IsSpace(s[i]) ==> i < r
    decreases |s| - i
  {
    if i == |s| || IsSpace(s[i]) then i else WordEnd(s, i + 1)
  }

  /** `s[i:].split()`. */
  function WordsFrom(s: string, i: nat): seq<string>
    requires i <= |s|
    decreases |s| - i
  {
    var a := SkipSpace(s, i);
    if a == |s| then [] else
      SkipSpaceFacts(s, i);
      var b := WordEnd(s, a);
      [s[a..b]] + WordsFrom(s, b)
  }
}
