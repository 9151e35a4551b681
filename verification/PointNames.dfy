/** The name that a point id is the UUIDv5 of: `f"{doc_id}:{chunk_idx}"`. */
module PointNames {

  predicate IsDigit(c: char) {
    '0' <= c <= '9'
  }

  /** `str(n)`. */
  function Decimal(n: nat): (s: string)
    ensures s != "" && IsDigit(s[|s| - 1])
  {
    (if n < 10 then "" else Decimal(n / 10)) + ['0' + (n % 10) as char]
  }

  /** The number that decimal digits denote. */
  function Value(s: string): int {
    if s == "" then 0 else 10 * Value(s[..|s| - 1]) + (s[|s| - 1] as int - '0' as int)
  }

  lemma DigitAdds(s: string, d: nat)
    requires d < 10
    ensures Value(s + ['0' + d as char]) == 10 * Value(s) + d
    ensures IsDigit('0' + d as char) && ('0' + d as char == '0' <==> d == 0)
  {
    assert (s + ['0' + d as char])[..|s|] == s;
  }

  lemma {:induction false} DecimalValue(n: nat)
    ensures Value(Decimal(n)) == n
  {
    var init := if n < 10 then "" else Decimal(n / 10);
    if n >= 10 { DecimalValue(n / 10); }
    DigitAdds(init, n % 10);
  }

  lemma {:induction false} DecimalDigits(n: nat)
    ensures forall i :: 0 <= i < |Decimal(n)| ==> IsDigit(Decimal(n)[i])
  {
    if n >= 10 { DecimalDigits(n / 10); }
  }

  lemma {:induction false} LeadingDigit(n: nat)
    ensures Decimal(n)[0] == '0' <==> n == 0
  {
    if n >= 10 { LeadingDigit(n / 10); } else { DigitAdds("", n); }
  }

  /** The decimal form of a number: digits that denote it, without a leading zero. */
  lemma DecimalMeans(n: nat)
    ensures Value(Decimal(n)) == n
    ensures forall i :: 0 <= i < |Decimal(n)| ==> IsDigit(Decimal(n)[i])
    ensures if n == 0 then Decimal(n) == "0" else Decimal(n)[0] != '0'
  {
    DecimalValue(n);
    DecimalDigits(n);
    LeadingDigit(n);
  }

  lemma DecimalInjective(m: nat, n: nat)
    requires Decimal(m) == Decimal(n)
    ensures m == n
  {
    DecimalMeans(m);
    DecimalMeans(n);
  }

  function PointName(docId: string, idx: nat): string {
    docId + ":" + Decimal(idx)
  }

  lemma ColonBefore(d: string, number: string)
    ensures (d + ":" + number)[|d|] == ':'
  {}

  lemma NoColonIn(e: string, number: string, k: int)
    requires forall i :: 0 <= i < |number| ==> IsDigit(number[i])
    requires |e| < k <= |e| + |number|
    ensures (e + ":" + number)[k] != ':'
  {
    assert (e + ":" + number)[k] == number[k - |e| - 1];
  }

  lemma ShorterNumber(d: string, i: nat, e: string, j: nat)
    requires PointName(d, i) == PointName(e, j)
    ensures |Decimal(i)| >= |Decimal(j)|
  {
    if |Decimal(i)| < |Decimal(j)| {
      ColonBefore(d, Decimal(i));
      DecimalMeans(j);
      NoColonIn(e, Decimal(j), |d|);
    }
  }

  /** No two chunks share a name, whatever colons and digits the document ids contain. */
  lemma PointNameInjective(d: string, i: nat, e: string, j: nat)
    requires PointName(d, i) == PointName(e, j)
    ensures d == e && i == j
  {
    ShorterNumber(d, i, e, j);
    ShorterNumber(e, j, d, i);
    var n := PointName(d, i);
    assert d == n[..|d|] && e == n[..|e|];
    assert Decimal(i) == n[|d| + 1..] && Decimal(j) == n[|e| + 1..];
    DecimalInjective(i, j);
  }
}
