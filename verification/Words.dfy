/** `str.split()`: what the words of a text are. */
module Words {
  import opened Text

  function Words(s: string): seq<string> {
    WordsFrom(s, 0)
  }

  lemma {:induction false} SkipSpaceFrom(s: string, k: nat, i: nat)
    requires k <= i <= |s|
    ensures SkipSpace(s[k..], i - k) == SkipSpace(s, i) - k
    decreases |s| - i
  {
    if i < |s| && IsSpace(s[i]) { SkipSpaceFrom(s, k, i + 1); }
  }

  lemma {:induction false} WordEndFrom(s: string, k: nat, i: nat)
    requires k <= i <= |s|
    ensures WordEnd(s[k..], i - k) == WordEnd(s, i) - k
    decreases |s| - i
  {
    if i < |s| && !IsSpace(s[i]) { WordEndFrom(s, k, i + 1); }
  }

  lemma {:induction false} WordsFromSuffix(s: string, k: nat, i: nat)
    requires k <= i <= |s|
    ensures WordsFrom(s[k..], i - k) == WordsFrom(s, i)
    decreases |s| - i
  {
    var a := SkipSpace(s, i);
    SkipSpaceFrom(s, k, i);
    if a < |s| {
      SkipSpaceFacts(s, i);
      WordEndFrom(s, k, a);
      WordsFromSuffix(s, k, WordEnd(s, a));
      SuffixStep(s, s[k..], k, i, a, WordEnd(s, a));
    }
  }

  lemma SliceOfSuffix<T>(s: seq<T>, k: nat, a: nat, b: nat)
    requires k <= a <= b <= |s|
    ensures s[k..][a - k..b - k] == s[a..b]
  {
    forall j | 0 <= j < b - a ensures s[k..][a - k..b - k][j] == s[a..b][j] {}
  }

  lemma SuffixStep(s: string, t: string, k: nat, i: nat, a: nat, b: nat)
    requires k <= i <= a < |s| && a <= b <= |s| && t == s[k..] && !IsSpace(s[a])
    requires a == SkipSpace(s, i) && a - k == SkipSpace(t, i - k)
    requires b == WordEnd(s, a) && b - k == WordEnd(t, a - k)
    requires WordsFrom(t, b - k) == WordsFrom(s, b)
    ensures WordsFrom(t, i - k) == WordsFrom(s, i)
  {
    var w := s[a..b];
    SliceOfSuffix(s, k, a, b);
    WordsUnfold(s, i, a, b, w);
    WordsUnfold(t, i - k, a - k, b - k, w);
  }

  lemma WordsUnfold(s: string, i: nat, a: nat, b: nat, w: string)
    requires i <= a < |s| && a == SkipSpace(s, i) && !IsSpace(s[a]) && b == WordEnd(s, a) && w == s[a..b]
    ensures WordsFrom(s, i) == [w] + WordsFrom(s, b)
  {}

  lemma {:induction false} SkipSpaceAppend(x: string, z: string, i: nat)
    requires i <= |x|
    ensures SkipSpace(x + z, i) == if SkipSpace(x, i) < |x| then SkipSpace(x, i) else SkipSpace(x + z, |x|)
    decreases |x| - i
  {
    if i < |x| && IsSpace(x[i]) { SkipSpaceAppend(x, z, i + 1); }
  }

  lemma {:induction false} WordEndAppend(x: string, c: char, y: string, i: nat)
    requires i <= |x| && IsSpace(c)
    ensures WordEnd(x + [c] + y, i) == WordEnd(x, i)
    decreases |x| - i
  {
    if i < |x| && !IsSpace(x[i]) { WordEndAppend(x, c, y, i + 1); }
  }

  /** White space separates words, and words only. */
  lemma {:induction false} WordsSplit(x: string, c: char, y: string)
    requires IsSpace(c)
    ensures Words(x + [c] + y) == Words(x) + Words(y)
    decreases |x|
  {
    var s, a := x + [c] + y, SkipSpace(x, 0);
    assert s == x + ([c] + y);
    SkipSpaceAppend(x, [c] + y, 0);
    if a == |x| {
      assert SkipSpace(s, |x|) == SkipSpace(s, |x| + 1);
      assert WordsFrom(s, 0) == WordsFrom(s, |x| + 1);
      WordsFromSuffix(s, |x| + 1, |x| + 1);
      assert s[|x| + 1..] == y;
    } else {
      SkipSpaceFacts(x, 0);
      var b := WordEnd(x, a);
      WordEndAppend(x, c, y, a);
      SplitStep(x, c, y, a, b);
      WordsSplit(x[b..], c, y);
    }
  }

  lemma SplitStep(x: string, c: char, y: string, a: nat, b: nat)
    requires a < |x| && a == SkipSpace(x, 0) == SkipSpace(x + [c] + y, 0) && !IsSpace(x[a])
    requires b == WordEnd(x, a) == WordEnd(x + [c] + y, a)
    ensures Words(x) == [x[a..b]] + Words(x[b..])
    ensures Words(x + [c] + y) == [x[a..b]] + Words(x[b..] + [c] + y)
  {
    var s := x + [c] + y;
    WordsFromSuffix(x, b, b);
    WordsFromSuffix(s, b, b);
    assert s[b..] == x[b..] + [c] + y && s[a..b] == x[a..b];
    WordsUnfold(x, 0, a, b, x[a..b]);
    WordsUnfold(s, 0, a, b, x[a..b]);
  }

  lemma {:induction false} WordEndOfWord(w: string, i: nat)
    requires NoSpace(w) && i <= |w|
    ensures WordEnd(w, i) == |w|
    decreases |w| - i
  {
    if i < |w| { WordEndOfWord(w, i + 1); }
  }

  /** A text without white space is a word, or empty. */
  lemma WordsOfWord(w: string)
    requires NoSpace(w)
    ensures Words(w) == if w == "" then [] else [w]
  {
    if w != "" {
      WordEndOfWord(w, 0);
      WordsUnfold(w, 0, 0, |w|, w);
      assert WordsFrom(w, |w|) == [];
    }
  }

  /** The characters Python takes for white space, by their codes. */
  lemma SpaceCodes(c: char)
    ensures IsSpace(c) <==>
              var n := c as int;
              || 9 <= n <= 13 || 28 <= n <= 32 || n == 133 || n == 160 || n == 5760 || 8192 <= n <= 8202
              || n == 8232 || n == 8233 || n == 8239 || n == 8287 || n == 12288
  {}
}
