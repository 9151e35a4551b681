/** What the store holds and recognises when writes may fail part way. */
module WriteAttempts {
  import opened PointNames
  import opened PointStore

  /**
   * An attempt to write a page, and how many of its points were written: all of them, those before a
   * failure, or none, as when the embedding failed or the visit was a skip.
   */
  datatype Attempt = Attempt(page: Page, written: nat)

  ghost predicate ValidAttempts(ats: seq<Attempt>) {
    forall j :: 0 <= j < |ats| ==> ValidPage(ats[j].page) && ats[j].written <= |ats[j].page.chunks|
  }

  function WritePart(m: Points, w: Page, n: nat): Points
    requires n <= |w.chunks| == |w.vectors|
  {
    WriteAll(m, PointsOf(w)[..n])
  }

  ghost function ReplayAttempts(ats: seq<Attempt>): Points
    requires ValidAttempts(ats)
  {
    if ats == [] then map[]
    else WritePart(ReplayAttempts(ats[..|ats| - 1]), ats[|ats| - 1].page, ats[|ats| - 1].written)
  }

  predicate Wrote(a: Attempt, d: string, i: nat) {
    a.page.docId == d && i < a.written
  }

  /** The last of the first `n` attempts that wrote point `i` of document `d`, or -1. */
  function LatestWrite(ats: seq<Attempt>, n: nat, d: string, i: nat): (j: int)
    requires n <= |ats|
    ensures -1 <= j < n
    ensures j >= 0 ==> Wrote(ats[j], d, i)
    ensures forall k :: j < k < n ==> !Wrote(ats[k], d, i)
  {
    if n == 0 then -1 else if Wrote(ats[n - 1], d, i) then n - 1 else LatestWrite(ats, n - 1, d, i)
  }

  /** The largest number of points ever written for document `d`. */
  function LargestWritten(ats: seq<Attempt>, d: string): nat {
    if ats == [] then 0
    else
      var a, rest := ats[|ats| - 1], LargestWritten(ats[..|ats| - 1], d);
      if a.page.docId == d && a.written > rest then a.written else rest
  }

  lemma {:induction false} LatestWritePrefix(ats: seq<Attempt>, n: nat, d: string, i: nat)
    requires n < |ats|
    ensures LatestWrite(ats, n, d, i) == LatestWrite(ats[..|ats| - 1], n, d, i)
  {
    if n > 0 { LatestWritePrefix(ats, n - 1, d, i); }
  }

  /** The store is the history of its attempts: point `i` holds the latest one that got as far as `i`. */
  lemma {:induction false} StoreIsAttempts(ats: seq<Attempt>, d: string, i: nat)
    requires ValidAttempts(ats)
    ensures var m, k, j := ReplayAttempts(ats), PointName(d, i), LatestWrite(ats, |ats|, d, i);
            && (k in m <==> i < LargestWritten(ats, d))
            && (k in m <==> j >= 0)
            && (k in m ==> m[k] == PayloadAt(ats[j].page, i))
    ensures Keyed(ReplayAttempts(ats))
  {
    if ats != [] {
      var init, a := ats[..|ats| - 1], ats[|ats| - 1];
      StoreIsAttempts(init, d, i);
      WrittenAt(ReplayAttempts(init), a.page, a.written, d, i);
      WriteKeepsKeyed(ReplayAttempts(init), a.page, a.written);
      LatestWritePrefix(ats, |init|, d, i);
    }
  }

  // ---- Recognising a page ------------------------------------------------------------

  /** Attempt `j` wrote more points of document `d` than every later attempt of it. */
  ghost predicate Outlasts(ats: seq<Attempt>, d: string, j: nat) {
    && j < |ats| && Wrote(ats[j], d, 0)
    && forall k :: j < k < |ats| && ats[k].page.docId == d ==> ats[k].written < ats[j].written
  }

  ghost predicate OutlastingHash(ats: seq<Attempt>, d: string, h: string) {
    exists j :: 0 <= j < |ats| && Outlasts(ats, d, j) && ats[j].page.pageHash == h
  }

  lemma {:induction false} LatestOutlasts(ats: seq<Attempt>, d: string, i: nat, j: nat)
    requires j == LatestWrite(ats, |ats|, d, i) && i + 1 == ats[j].written
    ensures Outlasts(ats, d, j)
  {
    forall k | j < k < |ats| && ats[k].page.docId == d ensures ats[k].written < ats[j].written {
      assert !Wrote(ats[k], d, i);
    }
  }

  /** The latest attempt that wrote a point is also the latest that wrote its own last one. */
  lemma {:induction false} SameAttemptLast(ats: seq<Attempt>, d: string, i: nat) returns (i': nat)
    requires LatestWrite(ats, |ats|, d, i) >= 0
    ensures i <= i' && LatestWrite(ats, |ats|, d, i') == LatestWrite(ats, |ats|, d, i)
    ensures i' + 1 == ats[LatestWrite(ats, |ats|, d, i)].written
  {
    var j := LatestWrite(ats, |ats|, d, i);
    i' := ats[j].written - 1;
    LatestIs(ats, |ats|, d, i', j);
  }

  lemma {:induction false} LatestIs(ats: seq<Attempt>, n: nat, d: string, i: nat, j: nat)
    requires j < n <= |ats| && Wrote(ats[j], d, i) && forall k :: j < k < n ==> !Wrote(ats[k], d, i)
    ensures LatestWrite(ats, n, d, i) == j
  {
    var l := LatestWrite(ats, n, d, i);
    assert l >= j;
  }

  /** After any attempts a hash is recognised exactly when some attempt with it outlasts all later ones. */
  lemma {:induction false} RecognisedAfterAttemptsIff(ats: seq<Attempt>, d: string, h: string)
    requires ValidAttempts(ats)
    ensures Unchanged(ReplayAttempts(ats), d, h) <==> OutlastingHash(ats, d, h)
  {
    if Unchanged(ReplayAttempts(ats), d, h) { RecognisedOutlasts(ats, d, h); }
    if j :| 0 <= j < |ats| && Outlasts(ats, d, j) && ats[j].page.pageHash == h { OutlastingIsRecognised(ats, d, j); }
  }

  lemma {:induction false} RecognisedOutlasts(ats: seq<Attempt>, d: string, h: string)
    requires ValidAttempts(ats) && Unchanged(ReplayAttempts(ats), d, h)
    ensures OutlastingHash(ats, d, h)
  {
    var m := ReplayAttempts(ats);
    StoreIsAttempts(ats, d, 0);
    var k :| k in m && m[k].chunk.docId == d && m[k].pageHash == h;
    var i := m[k].chunk.chunkId;
    StoreIsAttempts(ats, d, i);
    var i' := SameAttemptLast(ats, d, i);
    LatestOutlasts(ats, d, i', LatestWrite(ats, |ats|, d, i));
  }

  lemma {:induction false} OutlastingIsRecognised(ats: seq<Attempt>, d: string, j: nat)
    requires ValidAttempts(ats) && Outlasts(ats, d, j)
    ensures Unchanged(ReplayAttempts(ats), d, ats[j].page.pageHash)
  {
    var i := ats[j].written - 1;
    LatestIs(ats, |ats|, d, i, j);
    StoreIsAttempts(ats, d, i);
    var m, k := ReplayAttempts(ats), PointName(d, i);
    assert k in m && m[k] == PayloadAt(ats[j].page, i);
  }

  /** A failed write is made up for by the next visit exactly when it wrote nothing and the hash was not recognised anyway. */
  lemma {:induction false} RetriedIff(m: Points, w: Page, n: nat)
    requires ValidPage(w) && n <= |w.chunks|
    ensures !Unchanged(WritePart(m, w, n), w.docId, w.pageHash) <==> n == 0 && !Unchanged(m, w.docId, w.pageHash)
  {
    assert PointsOf(w)[..0] == [];
    if n > 0 {
      WrittenAt(m, w, n, w.docId, 0);
      var k := PointName(w.docId, 0);
      assert k in WritePart(m, w, n) && WritePart(m, w, n)[k] == PayloadAt(w, 0);
    }
  }

  // ---- When the store holds a version -------------------------------------------------

  /** The other attempts of `d` have other timestamps than attempt `j`. */
  ghost predicate OwnStamp(ats: seq<Attempt>, d: string, j: nat)
    requires j < |ats|
  {
    forall k :: 0 <= k < |ats| && k != j && ats[k].page.docId == d ==> ats[k].page.now != ats[j].page.now
  }

  /** Attempt `j` was completed, nothing was written for `d` after it, and no more points ever. */
  ghost predicate LastAndWhole(ats: seq<Attempt>, d: string, j: nat)
    requires j < |ats|
  {
    && ats[j].written == |ats[j].page.chunks| == LargestWritten(ats, d)
    && forall k :: j < k < |ats| && ats[k].page.docId == d ==> ats[k].written == 0
  }

  lemma {:induction false} WholeIsHeld(ats: seq<Attempt>, d: string, j: nat)
    requires ValidAttempts(ats) && j < |ats| && ats[j].page.docId == d && LastAndWhole(ats, d, j)
    ensures Holds(ReplayAttempts(ats), d, ats[j].page)
  {
    var m, w := ReplayAttempts(ats), ats[j].page;
    StoreIsAttempts(ats, d, 0);
    forall i: nat
      ensures (PointName(d, i) in m <==> i < |w.chunks|) && (i < |w.chunks| ==> m[PointName(d, i)] == PayloadAt(w, i))
    {
      StoreIsAttempts(ats, d, i);
      if i < |w.chunks| { LatestIs(ats, |ats|, d, i, j); }
    }
  }

  lemma {:induction false} HeldPoint(ats: seq<Attempt>, d: string, j: nat, i: nat)
    requires ValidAttempts(ats) && j < |ats| && ats[j].page.docId == d && OwnStamp(ats, d, j)
    requires Holds(ReplayAttempts(ats), d, ats[j].page) && i < |ats[j].page.chunks|
    ensures LatestWrite(ats, |ats|, d, i) == j
  {
    StoreIsAttempts(ats, d, i);
    assert PointName(d, i) in ReplayAttempts(ats);
    var l := LatestWrite(ats, |ats|, d, i);
    assert PayloadAt(ats[l].page, i).fetchedAt == PayloadAt(ats[j].page, i).fetchedAt;
  }

  lemma {:induction false} HeldIsWhole(ats: seq<Attempt>, d: string, j: nat)
    requires ValidAttempts(ats) && j < |ats| && ats[j].page.docId == d && OwnStamp(ats, d, j)
    requires Holds(ReplayAttempts(ats), d, ats[j].page)
    ensures LastAndWhole(ats, d, j)
  {
    var n := |ats[j].page.chunks|;
    HeldPoint(ats, d, j, n - 1);
    HeldPoint(ats, d, j, 0);
    StoreIsAttempts(ats, d, n);
    StoreIsAttempts(ats, d, n - 1);
    forall k | j < k < |ats| && ats[k].page.docId == d ensures ats[k].written == 0 { assert !Wrote(ats[k], d, 0); }
  }

  /** The store holds exactly the version of an attempt if and only if that was completed, last, and longest. */
  lemma {:induction false} HeldIff(ats: seq<Attempt>, d: string, j: nat)
    requires ValidAttempts(ats) && j < |ats| && ats[j].page.docId == d && OwnStamp(ats, d, j)
    ensures Holds(ReplayAttempts(ats), d, ats[j].page) <==> LastAndWhole(ats, d, j)
  {
    if LastAndWhole(ats, d, j) { WholeIsHeld(ats, d, j); }
    if Holds(ReplayAttempts(ats), d, ats[j].page) { HeldIsWhole(ats, d, j); }
  }

  // ---- When every recognised page is held ----------------------------------------------

  ghost predicate HeldHash(ats: seq<Attempt>, d: string, h: string)
    requires ValidAttempts(ats)
  {
    exists j :: 0 <= j < |ats| && ats[j].page.pageHash == h && Holds(ReplayAttempts(ats), d, ats[j].page)
  }

  /** Every version of `d` that is recognised is the one the store holds. */
  ghost predicate RecognisedAreHeld(ats: seq<Attempt>, d: string)
    requires ValidAttempts(ats)
  {
    forall h :: Unchanged(ReplayAttempts(ats), d, h) ==> HeldHash(ats, d, h)
  }

  ghost predicate OwnStamps(ats: seq<Attempt>, d: string) {
    forall j :: 0 <= j < |ats| && ats[j].page.docId == d ==> OwnStamp(ats, d, j)
  }

  lemma {:induction false} WrittenIsAtMost(ats: seq<Attempt>, d: string, j: nat)
    requires j < |ats| && ats[j].page.docId == d
    ensures ats[j].written <= LargestWritten(ats, d)
  {
    if j < |ats| - 1 { WrittenIsAtMost(ats[..|ats| - 1], d, j); }
  }

  lemma {:induction false} WholeMeansHeld(ats: seq<Attempt>, d: string, l: nat)
    requires ValidAttempts(ats) && l == LatestWrite(ats, |ats|, d, 0) && LastAndWhole(ats, d, l)
    ensures RecognisedAreHeld(ats, d)
  {
    WholeIsHeld(ats, d, l);
    forall h | Unchanged(ReplayAttempts(ats), d, h) ensures HeldHash(ats, d, h) {
      RecognisedAfterAttemptsIff(ats, d, h);
      var j :| 0 <= j < |ats| && Outlasts(ats, d, j) && ats[j].page.pageHash == h;
      WrittenIsAtMost(ats, d, j);
      assert j == l;
    }
  }

  lemma {:induction false} HeldMeansWhole(ats: seq<Attempt>, d: string, l: nat)
    requires ValidAttempts(ats) && OwnStamps(ats, d) && l == LatestWrite(ats, |ats|, d, 0)
    requires RecognisedAreHeld(ats, d)
    ensures LastAndWhole(ats, d, l)
  {
    forall k | l < k < |ats| && ats[k].page.docId == d ensures ats[k].written < ats[l].written { assert !Wrote(ats[k], d, 0); }
    OutlastingIsRecognised(ats, d, l);
    var h := ats[l].page.pageHash;
    assert HeldHash(ats, d, h);
    var j :| 0 <= j < |ats| && ats[j].page.pageHash == h && Holds(ReplayAttempts(ats), d, ats[j].page);
    HeldIff(ats, d, j);
    LatestIs(ats, |ats|, d, 0, j);
  }

  /**
   * A recognised page is always the one the store holds if and only if nothing was ever written for the
   * document, or the last attempt that wrote anything was completed and no attempt ever wrote more.
   */
  lemma {:induction false} RecognisedAreHeldIff(ats: seq<Attempt>, d: string)
    requires ValidAttempts(ats) && OwnStamps(ats, d)
    ensures var l := LatestWrite(ats, |ats|, d, 0);
            RecognisedAreHeld(ats, d) <==> l == -1 || LastAndWhole(ats, d, l)
  {
    var l := LatestWrite(ats, |ats|, d, 0);
    if l == -1 {
      forall h ensures !Unchanged(ReplayAttempts(ats), d, h) { RecognisedAfterAttemptsIff(ats, d, h); }
    } else {
      if LastAndWhole(ats, d, l) { WholeMeansHeld(ats, d, l); }
      if RecognisedAreHeld(ats, d) { HeldMeansWhole(ats, d, l); }
    }
  }

  // ---- Completed writes ------------------------------------------------------------------

  function Completed(ws: seq<Page>): seq<Attempt> {
    seq(|ws|, i requires 0 <= i < |ws| => Attempt(ws[i], |ws[i].chunks|))
  }

  lemma {:induction false} CompletedReplay(ws: seq<Page>)
    requires ValidHistory(ws)
    ensures ValidAttempts(Completed(ws)) && ReplayAttempts(Completed(ws)) == Replay(ws)
  {
    if ws != [] {
      var init, w := ws[..|ws| - 1], ws[|ws| - 1];
      CompletedReplay(init);
      assert Completed(ws)[..|init|] == Completed(init);
      assert PointsOf(w)[..|w.chunks|] == PointsOf(w);
    }
  }

  lemma {:induction false} LongestIsHeld(ws: seq<Page>, d: string, j: nat)
    requires ValidHistory(ws) && j == LastOf(ws, |ws|, d) && Largest(ws, d) == |ws[j].chunks|
    ensures Holds(Replay(ws), d, ws[j])
  {
    var m, w := Replay(ws), ws[j];
    StoreIsHistory(ws, d, 0);
    forall i: nat
      ensures (PointName(d, i) in m <==> i < |w.chunks|) && (i < |w.chunks| ==> m[PointName(d, i)] == PayloadAt(w, i))
    {
      StoreIsHistory(ws, d, i);
      if i < |w.chunks| { assert Latest(ws, |ws|, d, i) == j; }
    }
  }

  /** After completed writes the store holds exactly the last version if and only if no version was longer. */
  lemma {:induction false} LastIsHeldIff(ws: seq<Page>, d: string)
    requires ValidHistory(ws) && LastOf(ws, |ws|, d) >= 0
    ensures Holds(Replay(ws), d, ws[LastOf(ws, |ws|, d)]) <==> Largest(ws, d) == |ws[LastOf(ws, |ws|, d)].chunks|
  {
    var j := LastOf(ws, |ws|, d);
    if Largest(ws, d) == |ws[j].chunks| {
      LongestIsHeld(ws, d, j);
    } else {
      StoreIsHistory(ws, d, |ws[j].chunks|);
      StoreIsHistory(ws, d, |ws[j].chunks| - 1);
    }
  }
}
