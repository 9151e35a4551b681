/**
 * `upsert_tg_user`: a handle is released by every other row, then claimed, in two separate statements,
 * over a table whose unique index refuses a second row with the same handle.
 */
module Handles {
  import opened Basics

  datatype Row = Row(linkedAccount: Option<string>, username: Option<string>)

  /** `tg_users` by `telegram_id`. */
  type Table = map<int, Row>

  function LowerChar(c: char): char {
    if 'A' <= c <= 'Z' then ((c as int) - ('A' as int) + ('a' as int)) as char else c
  }

  /** SQL's `lower` on the ASCII letters Telegram handles are made of. */
  function Lower(s: string): string {
    seq(|s|, i requires 0 <= i < |s| => LowerChar(s[i]))
  }

  /** Row `id` carries the handle `h`, up to case. */
  predicate Holds(t: Table, id: int, h: string) {
    id in t && t[id].username.Some? && Lower(t[id].username.value) == Lower(h)
  }

  /** The first statement: every other row that carries the handle loses it. */
  function Release(t: Table, id: int, h: string): Table {
    map k | k in t :: if k != id && Holds(t, k, h) then t[k].(username := None) else t[k]
  }

  /** The unique index on `lower(username)`: another row carries the handle. */
  ghost predicate Refused(t: Table, id: int, username: Option<string>) {
    username.Some? && exists k :: k != id && Holds(t, k, username.value)
  }

  /** The second statement: insert the row, or set its handle; refused, it raises and changes nothing. */
  ghost function Claim(t: Table, id: int, username: Option<string>): Table {
    if Refused(t, id, username) then t
    else t[id := if id in t then t[id].(username := username) else Row(None, username)]
  }

  /** A call of `upsert_tg_user`. */
  datatype Call = Call(id: int, username: Option<string>)

  /** The call has a handle to release. */
  predicate HasHandle(c: Call) {
    c.username.Some? && c.username.value != ""
  }

  /** Two characters are equal, or the upper and the lower case of one ASCII letter, 32 codes apart. */
  predicate SameLetter(c: char, d: char) {
    || c == d
    || (65 <= c as int <= 90 && d as int == c as int + 32)
    || (65 <= d as int <= 90 && c as int == d as int + 32)
  }

  /** Two handles are the same up to case. */
  predicate SameButCase(s: string, t: string) {
    |s| == |t| && forall i :: 0 <= i < |s| ==> SameLetter(s[i], t[i])
  }

  /** When two handles count as one. */
  lemma LowerSameIff(s: string, t: string)
    ensures Lower(s) == Lower(t) <==> SameButCase(s, t)
  {
    assert |Lower(s)| == |s| && |Lower(t)| == |t|;
    forall i | 0 <= i < |s| == |t| ensures Lower(s)[i] == Lower(t)[i] <==> SameLetter(s[i], t[i]) {}
  }

  /** The row carries the handle `h`, up to case. */
  predicate Carries(r: Row, h: string) {
    r.username.Some? && SameButCase(r.username.value, h)
  }

  lemma HoldsIsCarries(t: Table, k: int, h: string)
    ensures Holds(t, k, h) <==> k in t && Carries(t[k], h)
  {
    if k in t && t[k].username.Some? { LowerSameIff(t[k].username.value, h); }
  }

  ghost predicate OnlyHolder(t: Table, id: int, h: string) {
    forall k :: Holds(t, k, h) <==> k == id
  }

  ghost predicate AtMostOneHolder(t: Table, h: string) {
    forall a, b :: Holds(t, a, h) && Holds(t, b, h) ==> a == b
  }

  /** What the index stands for. */
  ghost predicate Unique(t: Table) {
    forall h :: AtMostOneHolder(t, h)
  }

  /** An undisturbed call is never refused; it leaves its account the only holder and all other handles and links alone. */
  lemma CallAlone(t: Table, c: Call)
    requires HasHandle(c)
    ensures var h := c.username.value;
            var t' := Claim(Release(t, c.id, h), c.id, c.username);
            && !Refused(Release(t, c.id, h), c.id, c.username)
            && OnlyHolder(t', c.id, h)
            && (forall k, g :: k != c.id && Lower(g) != Lower(h) ==> (Holds(t', k, g) <==> Holds(t, k, g)))
            && t'.Keys == t.Keys + {c.id}
            && (forall k :: k in t ==> t'[k].linkedAccount == t[k].linkedAccount)
            && c.id in t' && t'[c.id].username == c.username
            && (forall k :: k in t && k != c.id && Carries(t[k], h) ==> t'[k].username == None)
            && (forall k :: k in t && k != c.id && !Carries(t[k], h) ==> t'[k] == t[k])
  {
    var h := c.username.value;
    forall k ensures Holds(t, k, h) <==> k in t && Carries(t[k], h) { HoldsIsCarries(t, k, h); }
    forall k ensures Holds(Release(t, c.id, h), k, h) <==> Holds(t, k, h) && k == c.id {
      HoldsAfterRelease(t, c.id, h, k, h);
    }
  }

  // ---- Interleaved calls ----------------------------------------------------------

  datatype Pc = Idle | Released | Done | Raised

  datatype State = State(table: Table, pcs: seq<Pc>)

  predicate Ended(p: Pc) {
    p == Done || p == Raised
  }

  /** Call `i` runs its next statement. */
  ghost function Step(calls: seq<Call>, s: State, i: nat): State
    requires i < |calls| == |s.pcs|
  {
    var c := calls[i];
    if s.pcs[i] == Idle && HasHandle(c) then
      State(Release(s.table, c.id, c.username.value), s.pcs[i := Released])
    else if Ended(s.pcs[i]) then s
    else
      State(Claim(s.table, c.id, c.username), s.pcs[i := if Refused(s.table, c.id, c.username) then Raised else Done])
  }

  ghost predicate Schedule(calls: seq<Call>, sched: seq<nat>) {
    forall n :: 0 <= n < |sched| ==> sched[n] < |calls|
  }

  /** The state after the calls moved in the order of the schedule. */
  ghost function Run(calls: seq<Call>, t: Table, sched: seq<nat>): (s: State)
    requires Schedule(calls, sched)
    ensures |s.pcs| == |calls|
  {
    if sched == [] then State(t, seq(|calls|, _ => Idle))
    else Step(calls, Run(calls, t, sched[..|sched| - 1]), sched[|sched| - 1])
  }

  /** The first move of a call with a handle to release: other rows that carry it lose it. */
  lemma FirstMoveReleases(calls: seq<Call>, s: State, i: nat, k: int)
    requires i < |calls| == |s.pcs| && s.pcs[i] == Idle && k in s.table
    requires calls[i].username != None && calls[i].username != Some("")
    ensures var s' := Step(calls, s, i);
            && s'.pcs == s.pcs[i := Released] && s'.table.Keys == s.table.Keys
            && s'.table[k] == if k != calls[i].id && Carries(s.table[k], calls[i].username.value) then s.table[k].(username := None)
                              else s.table[k]
  {
    HoldsIsCarries(s.table, k, calls[i].username.value);
  }

  /** Its second move, and the only one of a call without: it raises if another row carries the handle, and else sets it. */
  lemma LastMoveClaims(calls: seq<Call>, s: State, i: nat)
    requires i < |calls| == |s.pcs|
    requires s.pcs[i] == Released || (s.pcs[i] == Idle && (calls[i].username == None || calls[i].username == Some("")))
    ensures var c, s' := calls[i], Step(calls, s, i);
            if c.username.Some? && exists k :: k in s.table && k != c.id && Carries(s.table[k], c.username.value) then
              s' == State(s.table, s.pcs[i := Raised])
            else
              && s'.pcs == s.pcs[i := Done]
              && s'.table == s.table[c.id := Row(if c.id in s.table then s.table[c.id].linkedAccount else None, c.username)]
  {
    var c := calls[i];
    if c.username.Some? {
      forall k ensures Holds(s.table, k, c.username.value) <==> k in s.table && Carries(s.table[k], c.username.value) {
        HoldsIsCarries(s.table, k, c.username.value);
      }
    }
  }

  predicate IsFor(c: Call, h: string) {
    HasHandle(c) && Lower(c.username.value) == Lower(h)
  }

  lemma HoldsAfterRelease(t: Table, id: int, g: string, k: int, h: string)
    ensures Holds(Release(t, id, g), k, h) <==> Holds(t, k, h) && (k == id || Lower(g) != Lower(h))
  {}

  lemma HoldsAfterClaim(t: Table, id: int, u: Option<string>, k: int, h: string)
    ensures Holds(Claim(t, id, u), k, h) <==>
              if k == id && !Refused(t, id, u) then u.Some? && Lower(u.value) == Lower(h) else Holds(t, k, h)
  {}

  // ---- Every handle stays unique -----------------------------------------------------------

  lemma ClaimKeepsUnique(t: Table, id: int, u: Option<string>, h: string)
    requires AtMostOneHolder(t, h)
    ensures AtMostOneHolder(Claim(t, id, u), h)
  {
    forall a, b | Holds(Claim(t, id, u), a, h) && Holds(Claim(t, id, u), b, h) ensures a == b {
      HoldsAfterClaim(t, id, u, a, h);
      HoldsAfterClaim(t, id, u, b, h);
      if u.Some? && Lower(u.value) == Lower(h) {
        assert forall k :: Holds(t, k, h) ==> Holds(t, k, u.value);
      }
    }
  }

  lemma ReleaseKeepsUnique(t: Table, id: int, g: string, h: string)
    requires AtMostOneHolder(t, h)
    ensures AtMostOneHolder(Release(t, id, g), h)
  {
    forall a, b | Holds(Release(t, id, g), a, h) && Holds(Release(t, id, g), b, h) ensures a == b {
      HoldsAfterRelease(t, id, g, a, h);
      HoldsAfterRelease(t, id, g, b, h);
    }
  }

  /** In every interleaving of any calls a handle that is held at most once stays so. */
  lemma {:induction false} HandleStaysUnique(calls: seq<Call>, t: Table, sched: seq<nat>, h: string)
    requires Schedule(calls, sched) && AtMostOneHolder(t, h)
    ensures AtMostOneHolder(Run(calls, t, sched).table, h)
  {
    if sched != [] {
      var init, i := sched[..|sched| - 1], sched[|sched| - 1];
      var s, c := Run(calls, t, init), calls[i];
      HandleStaysUnique(calls, t, init, h);
      if s.pcs[i] == Idle && HasHandle(c) {
        ReleaseKeepsUnique(s.table, c.id, c.username.value, h);
      } else {
        ClaimKeepsUnique(s.table, c.id, c.username, h);
      }
    }
  }

  /** Every state that any run of any calls reaches satisfies the index. */
  lemma RunsStayUnique(calls: seq<Call>, t: Table, sched: seq<nat>)
    requires Schedule(calls, sched) && Unique(t)
    ensures Unique(Run(calls, t, sched).table)
  {
    forall h ensures AtMostOneHolder(Run(calls, t, sched).table, h) { HandleStaysUnique(calls, t, sched, h); }
  }

  // ---- Who holds a handle after any run -------------------------------------------------

  /** What a move of the schedule did to the table: nothing, if it was refused. */
  datatype Statement = Releases(id: int, handle: string) | Claims(id: int, username: Option<string>) | Nothing

  ghost function StatementOf(calls: seq<Call>, s: State, i: nat): Statement
    requires i < |calls| == |s.pcs|
  {
    var c := calls[i];
    if s.pcs[i] == Idle && HasHandle(c) then Releases(c.id, c.username.value)
    else if Ended(s.pcs[i]) || Refused(s.table, c.id, c.username) then Nothing
    else Claims(c.id, c.username)
  }

  ghost function Statements(calls: seq<Call>, t: Table, sched: seq<nat>): (es: seq<Statement>)
    requires Schedule(calls, sched)
    ensures |es| == |sched|
  {
    if sched == [] then []
    else
      var init := sched[..|sched| - 1];
      Statements(calls, t, init) + [StatementOf(calls, Run(calls, t, init), sched[|sched| - 1])]
  }

  predicate Gives(e: Statement, a: int, h: string) {
    e.Claims? && e.id == a && e.username.Some? && Lower(e.username.value) == Lower(h)
  }

  predicate Takes(e: Statement, a: int, h: string) {
    match e
    case Releases(id, handle) => id != a && Lower(handle) == Lower(h)
    case Claims(id, _) => id == a && !Gives(e, a, h)
    case Nothing => false
  }

  /** From statement `r` on account `a` claimed the handle, and nothing took it away since that claim. */
  ghost predicate GivenSince(es: seq<Statement>, r: nat, a: int, h: string) {
    exists n :: r <= n < |es| && Gives(es[n], a, h) && forall m :: n < m < |es| ==> !Takes(es[m], a, h)
  }

  /** No account but `id` was given the handle from statement `r` on and kept it. */
  ghost predicate NoOtherGiven(es: seq<Statement>, r: nat, id: int, h: string) {
    forall a :: a != id ==> !GivenSince(es, r, a, h)
  }

  ghost predicate NeverTaken(es: seq<Statement>, r: nat, a: int, h: string) {
    forall m :: r <= m < |es| ==> !Takes(es[m], a, h)
  }

  lemma StatementStep(calls: seq<Call>, s: State, i: nat, a: int, h: string)
    requires i < |calls| == |s.pcs|
    ensures var e := StatementOf(calls, s, i);
            Holds(Step(calls, s, i).table, a, h) <==> Gives(e, a, h) || (Holds(s.table, a, h) && !Takes(e, a, h))
  {
    var c := calls[i];
    if s.pcs[i] == Idle && HasHandle(c) {
      HoldsAfterRelease(s.table, c.id, c.username.value, a, h);
    } else if !Ended(s.pcs[i]) {
      HoldsAfterClaim(s.table, c.id, c.username, a, h);
    }
  }

  lemma GivenSnoc(es: seq<Statement>, e: Statement, r: nat, a: int, h: string)
    requires r <= |es|
    ensures GivenSince(es + [e], r, a, h) <==> Gives(e, a, h) || (GivenSince(es, r, a, h) && !Takes(e, a, h))
    ensures NeverTaken(es + [e], r, a, h) <==> NeverTaken(es, r, a, h) && !Takes(e, a, h)
  {
    var fs := es + [e];
    assert fs[|es|] == e && forall m :: 0 <= m < |es| ==> fs[m] == es[m];
    if Gives(e, a, h) { assert Gives(fs[|es|], a, h); }
    if n :| r <= n < |es| && Gives(es[n], a, h) && forall m :: n < m < |es| ==> !Takes(es[m], a, h) {
      assert Gives(fs[n], a, h);
    }
  }

  /**
   * Whatever happened up to move `r` of a run, an account holds a handle in the end exactly when it
   * claimed it from then on and nothing took it away since, or held it then and nothing took it away.
   */
  lemma {:induction false} HoldsIff(calls: seq<Call>, t: Table, sched: seq<nat>, r: nat, a: int, h: string)
    requires Schedule(calls, sched) && r <= |sched|
    ensures Holds(Run(calls, t, sched).table, a, h)
       <==> GivenSince(Statements(calls, t, sched), r, a, h)
            || (Holds(Run(calls, t, sched[..r]).table, a, h) && NeverTaken(Statements(calls, t, sched), r, a, h))
  {
    if r < |sched| {
      var init := sched[..|sched| - 1];
      var s, es := Run(calls, t, init), Statements(calls, t, init);
      HoldsIff(calls, t, init, r, a, h);
      assert init[..r] == sched[..r];
      StatementStep(calls, s, sched[|sched| - 1], a, h);
      GivenSnoc(es, StatementOf(calls, s, sched[|sched| - 1]), r, a, h);
    } else {
      assert sched[..r] == sched;
    }
  }

  /** Call `i` ran its first statement at move `r` of the schedule. */
  ghost predicate ReleasedAt(calls: seq<Call>, t: Table, sched: seq<nat>, i: nat, r: nat)
    requires Schedule(calls, sched) && i < |calls|
  {
    r < |sched| && sched[r] == i && Run(calls, t, sched[..r]).pcs[i] == Idle && HasHandle(calls[i])
  }

  lemma {:induction false} ReleaseMove(calls: seq<Call>, t: Table, sched: seq<nat>, i: nat) returns (r: nat)
    requires Schedule(calls, sched) && i < |calls| && Run(calls, t, sched).pcs[i] == Released
    ensures ReleasedAt(calls, t, sched, i, r)
  {
    var n := |sched| - 1;
    var init := sched[..n];
    if Run(calls, t, init).pcs[i] == Released {
      r := ReleaseMove(calls, t, init, i);
      assert init[..r] == sched[..r];
    } else {
      r := n;
    }
  }

  lemma {:induction false} StatementAt(calls: seq<Call>, t: Table, sched: seq<nat>, r: nat)
    requires Schedule(calls, sched) && r < |sched|
    ensures Statements(calls, t, sched)[r] == StatementOf(calls, Run(calls, t, sched[..r]), sched[r])
  {
    var init := sched[..|sched| - 1];
    if r < |init| {
      StatementAt(calls, t, init, r);
      assert init[..r] == sched[..r];
    } else {
      assert sched[..r] == init;
    }
  }

  /** After the release of call `i`, other accounts hold its handle exactly if they were given it since. */
  lemma HeldSinceRelease(calls: seq<Call>, t: Table, sched: seq<nat>, i: nat, r: nat, a: int, h: string)
    requires Schedule(calls, sched) && i < |calls| && IsFor(calls[i], h) && a != calls[i].id
    requires ReleasedAt(calls, t, sched, i, r)
    ensures Holds(Run(calls, t, sched).table, a, h) <==> GivenSince(Statements(calls, t, sched), r + 1, a, h)
  {
    var before := Run(calls, t, sched[..r]);
    HoldsIff(calls, t, sched, r + 1, a, h);
    StatementStep(calls, before, i, a, h);
    assert sched[..r + 1][..r] == sched[..r];
    assert Run(calls, t, sched[..r + 1]) == Step(calls, before, i);
  }

  /** What is to come of a call for `h` that has released the handle: its claim raises, or it is accepted. */
  lemma ClaimEnds(calls: seq<Call>, t: Table, sched: seq<nat>, i: nat, h: string)
    requires Schedule(calls, sched) && i < |calls| && IsFor(calls[i], h) && Run(calls, t, sched).pcs[i] == Released
    ensures Schedule(calls, sched + [i])
    ensures var s, s' := Run(calls, t, sched), Run(calls, t, sched + [i]);
            if exists k :: k != calls[i].id && Holds(s.table, k, h) then s'.pcs[i] == Raised && s'.table == s.table
            else s'.pcs[i] == Done && OnlyHolder(s'.table, calls[i].id, h)
  {
    var s, c := Run(calls, t, sched), calls[i];
    assert (sched + [i])[..|sched|] == sched;
    assert Run(calls, t, sched + [i]) == Step(calls, s, i);
    forall k ensures Holds(s.table, k, h) <==> Holds(s.table, k, c.username.value) {}
    forall k ensures Holds(Claim(s.table, c.id, c.username), k, h) <==>
                if k == c.id && !Refused(s.table, c.id, c.username) then true else Holds(s.table, k, h) {
      HoldsAfterClaim(s.table, c.id, c.username, k, h);
    }
  }

  /**
   * A call raises, in any run of any calls and from any table, exactly when some other account was given
   * the handle after this call released it, and kept it since. Otherwise its account becomes the only holder.
   */
  lemma CallRaisesIff(calls: seq<Call>, t: Table, sched: seq<nat>, i: nat, h: string) returns (r: nat)
    requires Schedule(calls, sched) && i < |calls| && IsFor(calls[i], h)
    requires Run(calls, t, sched).pcs[i] == Released
    ensures ReleasedAt(calls, t, sched, i, r) && Schedule(calls, sched + [i])
    ensures var s' := Run(calls, t, sched + [i]);
            && (s'.pcs[i] == Raised <==> !NoOtherGiven(Statements(calls, t, sched), r + 1, calls[i].id, h))
            && (s'.pcs[i] == Raised ==> s'.table == Run(calls, t, sched).table)
            && (s'.pcs[i] != Raised ==> s'.pcs[i] == Done && OnlyHolder(s'.table, calls[i].id, h))
  {
    r := ReleaseMove(calls, t, sched, i);
    var s, es, since, id := Run(calls, t, sched), Statements(calls, t, sched), r + 1, calls[i].id;
    ClaimEnds(calls, t, sched, i, h);
    forall a | a != id ensures Holds(s.table, a, h) <==> GivenSince(es, since, a, h) {
      HeldSinceRelease(calls, t, sched, i, r, a, h);
    }
    if a :| a != id && GivenSince(es, since, a, h) { assert Holds(s.table, a, h); }
  }

  /** A call during which no other account is given the handle never raises: its account becomes the only holder. */
  lemma UndisturbedCallSucceeds(calls: seq<Call>, t: Table, sched: seq<nat>, i: nat, r: nat, h: string)
    requires Schedule(calls, sched) && i < |calls| && IsFor(calls[i], h)
    requires Run(calls, t, sched).pcs[i] == Released && ReleasedAt(calls, t, sched, i, r)
    requires forall n :: r < n < |sched| ==> !GivesOther(Statements(calls, t, sched)[n], calls[i].id, h)
    ensures Schedule(calls, sched + [i])
    ensures var s' := Run(calls, t, sched + [i]); s'.pcs[i] == Done && OnlyHolder(s'.table, calls[i].id, h)
  {
    var s, id := Run(calls, t, sched), calls[i].id;
    ClaimEnds(calls, t, sched, i, h);
    forall k | k != id ensures !Holds(s.table, k, h) {
      HeldSinceRelease(calls, t, sched, i, r, k, h);
    }
  }

  /** The statement gives the handle to an account other than `id`. */
  predicate GivesOther(e: Statement, id: int, h: string) {
    e.Claims? && e.id != id && Gives(e, e.id, h)
  }

  // ---- Complete runs --------------------------------------------------------------------------

  /** How often call `i` moves. */
  function Moves(sched: seq<nat>, i: nat): nat {
    if sched == [] then 0 else Moves(sched[..|sched| - 1], i) + if sched[|sched| - 1] == i then 1 else 0
  }

  /** Calls of different accounts for one handle, none of which moves more than twice. */
  ghost predicate CompetingFor(calls: seq<Call>, sched: seq<nat>, h: string) {
    && Schedule(calls, sched)
    && (forall i :: 0 <= i < |calls| ==> IsFor(calls[i], h) && Moves(sched, i) <= 2)
    && (forall i, j :: 0 <= i < j < |calls| ==> calls[i].id != calls[j].id)
  }

  lemma {:induction false} PcByMoves(calls: seq<Call>, t: Table, sched: seq<nat>, i: nat)
    requires Schedule(calls, sched) && i < |calls| && HasHandle(calls[i])
    ensures var p := Run(calls, t, sched).pcs[i];
            if Moves(sched, i) == 0 then p == Idle else if Moves(sched, i) == 1 then p == Released else Ended(p)
  {
    if sched != [] { PcByMoves(calls, t, sched[..|sched| - 1], i); }
  }

  /** The last move is the first one of its call: a release. */
  predicate EndsInRelease(sched: seq<nat>) {
    sched != [] && Moves(sched, sched[|sched| - 1]) == 1
  }

  /**
   * Who holds the handle after a non-empty run of competing calls: after a release nobody, unless the
   * releasing call is the only one that moved, and after a claim one account whose call has ended.
   */
  ghost predicate OneOrNone(calls: seq<Call>, t: Table, sched: seq<nat>, h: string)
    requires CompetingFor(calls, sched, h) && sched != []
  {
    var table, j := Run(calls, t, sched).table, sched[|sched| - 1];
    if EndsInRelease(sched) then
      forall a :: Holds(table, a, h) ==> a == calls[j].id && forall k :: k != j ==> Moves(sched, k) == 0
    else
      exists k :: 0 <= k < |calls| && Moves(sched, k) == 2 && OnlyHolder(table, calls[k].id, h)
  }

  lemma MovesSnoc(sched: seq<nat>, i: nat, x: nat)
    ensures Moves(sched + [i], x) == Moves(sched, x) + if x == i then 1 else 0
  {
    assert (sched + [i])[..|sched|] == sched;
  }

  lemma {:induction false} MovesGrow(sched: seq<nat>, n: nat, x: nat)
    requires n <= |sched|
    ensures Moves(sched[..n], x) <= Moves(sched, x)
  {
    if n < |sched| {
      MovesGrow(sched[..|sched| - 1], n, x);
      assert sched[..|sched| - 1][..n] == sched[..n];
    } else {
      assert sched[..n] == sched;
    }
  }

  lemma CompetingPrefix(calls: seq<Call>, sched: seq<nat>, n: nat, h: string)
    requires CompetingFor(calls, sched, h) && n <= |sched|
    ensures CompetingFor(calls, sched[..n], h)
  {
    forall i | 0 <= i < |calls| ensures Moves(sched[..n], i) <= 2 { MovesGrow(sched, n, i); }
  }

  lemma {:induction false} NoMoves(sched: seq<nat>, i: nat, n: nat)
    requires n < |sched| && Moves(sched, i) == 0
    ensures sched[n] != i
  {
    if n < |sched| - 1 { NoMoves(sched[..|sched| - 1], i, n); }
  }

  lemma StepOfRun(calls: seq<Call>, t: Table, init: seq<nat>, i: nat)
    requires Schedule(calls, init + [i])
    ensures Schedule(calls, init) && i < |calls|
    ensures Run(calls, t, init + [i]) == Step(calls, Run(calls, t, init), i)
  {
    assert (init + [i])[|init|] == i && (init + [i])[..|init|] == init;
    forall n | 0 <= n < |init| ensures init[n] < |calls| { assert (init + [i])[n] == init[n]; }
  }

  lemma FirstMoveLeaves(calls: seq<Call>, t: Table, i: nat, h: string)
    requires CompetingFor(calls, [i], h)
    ensures OneOrNone(calls, t, [i], h)
  {
    assert [i][|[i]| - 1] == i && [] + [i] == [i];
    StepOfRun(calls, t, [], i);
    MovesSnoc([], i, i);
    forall a ensures Holds(Run(calls, t, [i]).table, a, h) ==> a == calls[i].id {
      HoldsAfterRelease(t, calls[i].id, calls[i].username.value, a, h);
    }
    forall k: nat | k != i ensures Moves([i], k) == 0 { MovesSnoc([], i, k); }
  }

  /** A release by a call that had not moved, after others have: nobody holds the handle. */
  lemma ReleaseLeavesNone(calls: seq<Call>, t: Table, init: seq<nat>, i: nat, h: string)
    requires CompetingFor(calls, init, h) && CompetingFor(calls, init + [i], h) && init != []
    requires OneOrNone(calls, t, init, h) && i < |calls| && Moves(init, i) == 0
    ensures forall a :: !Holds(Run(calls, t, init + [i]).table, a, h)
    ensures OneOrNone(calls, t, init + [i], h)
  {
    var s, j := Run(calls, t, init), init[|init| - 1];
    StepOfRun(calls, t, init, i);
    PcByMoves(calls, t, init, i);
    NoMoves(init, i, |init| - 1);
    assert calls[i].id != calls[j].id;
    MovesSnoc(init, i, i);
    assert !Holds(s.table, calls[i].id, h);
    forall a ensures !Holds(Run(calls, t, init + [i]).table, a, h) {
      HoldsAfterRelease(s.table, calls[i].id, calls[i].username.value, a, h);
    }
  }

  /** A claim is accepted exactly after a release, and then its account is the only holder. */
  lemma ClaimAfterRelease(calls: seq<Call>, t: Table, init: seq<nat>, i: nat, h: string)
    requires CompetingFor(calls, init, h) && CompetingFor(calls, init + [i], h) && init != []
    requires OneOrNone(calls, t, init, h) && i < |calls| && Moves(init, i) == 1
    ensures var s, s' := Run(calls, t, init), Run(calls, t, init + [i]);
            if EndsInRelease(init) then s'.pcs[i] == Done && OnlyHolder(s'.table, calls[i].id, h)
            else s'.pcs[i] == Raised && s'.table == s.table
    ensures OneOrNone(calls, t, init + [i], h)
  {
    var s, j := Run(calls, t, init), init[|init| - 1];
    PcByMoves(calls, t, init, i);
    ClaimEnds(calls, t, init, i, h);
    MovesSnoc(init, i, i);
    if EndsInRelease(init) {
      forall k | k != calls[i].id ensures !Holds(s.table, k, h) { assert i != j ==> Moves(init, i) != 0; }
    } else {
      var k :| 0 <= k < |calls| && Moves(init, k) == 2 && OnlyHolder(s.table, calls[k].id, h);
      assert calls[k].id != calls[i].id && Holds(s.table, calls[k].id, h);
      MovesSnoc(init, i, k);
    }
  }

  lemma {:induction false} RunIsOneOrNone(calls: seq<Call>, t: Table, sched: seq<nat>, h: string)
    requires CompetingFor(calls, sched, h) && sched != []
    ensures OneOrNone(calls, t, sched, h)
  {
    var init, i := sched[..|sched| - 1], sched[|sched| - 1];
    assert sched == init + [i];
    CompetingPrefix(calls, sched, |init|, h);
    if init == [] {
      FirstMoveLeaves(calls, t, i, h);
    } else {
      RunIsOneOrNone(calls, t, init, h);
      MovesSnoc(init, i, i);
      if Moves(init, i) == 0 { ReleaseLeavesNone(calls, t, init, i, h); } else { ClaimAfterRelease(calls, t, init, i, h); }
    }
  }

  lemma {:induction false} EndedStays(calls: seq<Call>, t: Table, sched: seq<nat>, n: nat, i: nat)
    requires Schedule(calls, sched) && n <= |sched| && i < |calls| && Ended(Run(calls, t, sched[..n]).pcs[i])
    ensures Run(calls, t, sched).pcs[i] == Run(calls, t, sched[..n]).pcs[i]
  {
    if n < |sched| {
      var init := sched[..|sched| - 1];
      assert init[..n] == sched[..n];
      EndedStays(calls, t, init, n, i);
    } else {
      assert sched[..n] == sched;
    }
  }

  /** Move `n` is the claim of its call. */
  predicate IsClaim(sched: seq<nat>, n: nat) {
    n < |sched| && Moves(sched[..n], sched[n]) == 1
  }

  /**
   * Any number of accounts compete for one handle, in any interleaving and from any table: a call ends
   * well exactly if the statement right before its claim is a release, and raises otherwise.
   */
  lemma CompetingCallEnds(calls: seq<Call>, t: Table, sched: seq<nat>, n: nat, h: string)
    requires CompetingFor(calls, sched, h) && IsClaim(sched, n)
    ensures Run(calls, t, sched).pcs[sched[n]] == if EndsInRelease(sched[..n]) then Done else Raised
  {
    var init, i := sched[..n], sched[n];
    assert sched[..n + 1] == init + [i];
    CompetingPrefix(calls, sched, n, h);
    CompetingPrefix(calls, sched, n + 1, h);
    RunIsOneOrNone(calls, t, init, h);
    ClaimAfterRelease(calls, t, init, i, h);
    EndedStays(calls, t, sched, n + 1, i);
  }

  /** Every call runs both its statements. */
  ghost predicate Complete(calls: seq<Call>, sched: seq<nat>) {
    forall i :: 0 <= i < |calls| ==> Moves(sched, i) == 2
  }

  /** `r` is the last release of the schedule. */
  ghost predicate LastReleaseAt(sched: seq<nat>, r: nat) {
    && r < |sched| && EndsInRelease(sched[..r + 1])
    && forall m :: r < m < |sched| ==> IsClaim(sched, m)
  }

  lemma {:induction false} FindLastRelease(calls: seq<Call>, sched: seq<nat>, h: string) returns (r: nat)
    requires CompetingFor(calls, sched, h) && sched != []
    ensures LastReleaseAt(sched, r)
  {
    var n := |sched| - 1;
    var init, i := sched[..n], sched[n];
    assert sched == init + [i];
    MovesSnoc(init, i, i);
    if Moves(init, i) == 0 {
      r := n;
      assert sched[..n + 1] == sched;
    } else {
      CompetingPrefix(calls, sched, n, h);
      r := FindLastRelease(calls, init, h);
      assert init[..r + 1] == sched[..r + 1];
      forall m | r < m < |sched| ensures IsClaim(sched, m) {
        if m < n { assert IsClaim(init, m) && init[..m] == sched[..m]; }
      }
    }
  }

  lemma {:induction false} WinnerStays(calls: seq<Call>, t: Table, sched: seq<nat>, r: nat, n: nat, h: string)
    requires CompetingFor(calls, sched, h) && LastReleaseAt(sched, r) && r + 2 <= n <= |sched|
    ensures OnlyHolder(Run(calls, t, sched[..n]).table, calls[sched[r + 1]].id, h)
  {
    var init, i := sched[..n - 1], sched[n - 1];
    assert sched[..n] == init + [i];
    CompetingPrefix(calls, sched, n - 1, h);
    CompetingPrefix(calls, sched, n, h);
    RunIsOneOrNone(calls, t, init, h);
    assert IsClaim(sched, n - 1);
    ClaimAfterRelease(calls, t, init, i, h);
    if n > r + 2 {
      WinnerStays(calls, t, sched, r, n - 1, h);
      ClaimIsNoRelease(sched, n - 2);
    }
  }

  lemma ClaimIsNoRelease(sched: seq<nat>, m: nat)
    requires IsClaim(sched, m)
    ensures !EndsInRelease(sched[..m + 1])
  {
    assert sched[..m + 1] == sched[..m] + [sched[m]];
    MovesSnoc(sched[..m], sched[m], sched[m]);
  }

  lemma LastReleaseIsLast(sched: seq<nat>, r: nat, q: nat)
    requires LastReleaseAt(sched, r) && q < |sched| && EndsInRelease(sched[..q + 1])
    ensures q <= r
  {
    if r < q { ClaimIsNoRelease(sched, q); }
  }

  /**
   * When all competing calls have run, exactly one account holds the handle: the one whose claim comes
   * right after the last release. Its call ended well, and all calls that claim after it raised.
   */
  lemma CompleteRunHasOneWinner(calls: seq<Call>, t: Table, sched: seq<nat>, h: string) returns (r: nat)
    requires CompetingFor(calls, sched, h) && Complete(calls, sched) && calls != []
    ensures LastReleaseAt(sched, r) && r + 1 < |sched|
    ensures var s := Run(calls, t, sched);
            && OnlyHolder(s.table, calls[sched[r + 1]].id, h) && s.pcs[sched[r + 1]] == Done
            && forall m :: r + 1 < m < |sched| ==> s.pcs[sched[m]] == Raised
  {
    assert Moves(sched, 0) == 2;
    r := FindLastRelease(calls, sched, h);
    assert sched[..|sched|] == sched;
    assert r + 1 < |sched| by { assert Moves(sched, sched[|sched| - 1]) == 2; }
    WinnerStays(calls, t, sched, r, |sched|, h);
    assert IsClaim(sched, r + 1);
    CompetingCallEnds(calls, t, sched, r + 1, h);
    forall m | r + 1 < m < |sched| ensures Run(calls, t, sched).pcs[sched[m]] == Raised {
      assert IsClaim(sched, m) && IsClaim(sched, m - 1);
      ClaimIsNoRelease(sched, m - 1);
      CompetingCallEnds(calls, t, sched, m, h);
    }
  }

  lemma {:induction false} AllMoves(sched: seq<nat>)
    requires forall n :: 0 <= n < |sched| ==> sched[n] < 2
    ensures |sched| == Moves(sched, 0) + Moves(sched, 1)
  {
    if sched != [] { AllMoves(sched[..|sched| - 1]); }
  }

  lemma PrefixMoves(sched: seq<nat>, x: nat)
    requires |sched| == 4
    ensures var a, b, c, d := sched[0] == x, sched[1] == x, sched[2] == x, sched[3] == x;
            && Moves(sched[..1], x) == (if a then 1 else 0)
            && Moves(sched[..2], x) == (if a then 1 else 0) + (if b then 1 else 0)
            && Moves(sched[..3], x) == (if a then 1 else 0) + (if b then 1 else 0) + (if c then 1 else 0)
            && Moves(sched, x) == (if a then 1 else 0) + (if b then 1 else 0) + (if c then 1 else 0) + (if d then 1 else 0)
  {
    assert sched[..1] == [] + [sched[0]] && sched[..2] == sched[..1] + [sched[1]];
    assert sched[..3] == sched[..2] + [sched[2]] && sched == sched[..3] + [sched[3]];
    MovesSnoc([], sched[0], x);
    MovesSnoc(sched[..1], sched[1], x);
    MovesSnoc(sched[..2], sched[2], x);
    MovesSnoc(sched[..3], sched[3], x);
  }

  /** One call runs before the other. */
  predicate Serial(sched: seq<nat>) {
    sched == [0, 0, 1, 1] || sched == [1, 1, 0, 0]
  }

  /** In the two serial schedules each claim follows a release, in the four others only the first one does. */
  lemma TwoCallSchedules(sched: seq<nat>)
    requires (forall n :: 0 <= n < |sched| ==> sched[n] < 2) && Moves(sched, 0) == 2 && Moves(sched, 1) == 2
    ensures |sched| == 4 && sched[2] != sched[3] <==> !Serial(sched)
    ensures Serial(sched) ==> IsClaim(sched, 1) && EndsInRelease(sched[..1]) && sched[0] == sched[1] != sched[3]
    ensures Serial(sched) ==> IsClaim(sched, 3) && EndsInRelease(sched[..3])
    ensures !Serial(sched) ==> IsClaim(sched, 2) && EndsInRelease(sched[..2])
    ensures !Serial(sched) ==> IsClaim(sched, 3) && !EndsInRelease(sched[..3])
  {
    AllMoves(sched);
    PrefixMoves(sched, 0);
    PrefixMoves(sched, 1);
    assert sched == [sched[0], sched[1], sched[2], sched[3]];
  }

  /**
   * Two accounts and one handle: run one after the other, both calls end well and the later account holds
   * it; overlapping, in whichever way, the first to claim holds it and the other call raises.
   */
  lemma OverlapRaises(t: Table, x: Call, y: Call, sched: seq<nat>, h: string)
    requires CompetingFor([x, y], sched, h) && Complete([x, y], sched)
    ensures |sched| == 4
    ensures var s := Run([x, y], t, sched);
            if Serial(sched) then s.pcs == [Done, Done] && OnlyHolder(s.table, [x, y][sched[3]].id, h)
            else s.pcs[sched[2]] == Done && s.pcs[sched[3]] == Raised && OnlyHolder(s.table, [x, y][sched[2]].id, h)
  {
    var calls := [x, y];
    assert Moves(sched, 0) == 2 && Moves(sched, 1) == 2 by { assert |calls| == 2; }
    TwoCallSchedules(sched);
    var r := CompleteRunHasOneWinner(calls, t, sched, h);
    CompetingCallEnds(calls, t, sched, 3, h);
    if Serial(sched) {
      CompetingCallEnds(calls, t, sched, 1, h);
      LastReleaseIsLast(sched, r, 2);
    } else {
      CompetingCallEnds(calls, t, sched, 2, h);
      LastReleaseIsLast(sched, r, 1);
    }
  }

  // ---- One call on the table ------------------------------------------------------------------

  /** The table as an object. */
  class Users {
    var rows: Table

    constructor ()
      ensures rows == map[]
    {
      rows := map[];
    }

    /** `upsert_tg_user`, undisturbed: it can only be refused an empty handle, which no account releases. */
    method UpsertTgUser(id: int, username: Option<string>) returns (raised: bool)
      modifies this
      ensures raised <==> username == Some("") && exists k :: k in old(rows) && k != id && old(rows)[k].username == Some("")
      ensures raised ==> rows == old(rows)
      ensures !raised ==> rows.Keys == old(rows).Keys + {id} && rows[id].username == username
      ensures !raised ==> rows[id].linkedAccount == if id in old(rows) then old(rows)[id].linkedAccount else None
      ensures username.Some? && username.value != "" ==>
                forall k :: k in rows && k != id ==> !Carries(rows[k], username.value)
      ensures username.Some? && username.value != "" ==>
                forall k :: k in old(rows) && k != id && Carries(old(rows)[k], username.value) ==>
                  k in rows && rows[k].username == None
      ensures forall k :: k in old(rows) && k != id ==> k in rows && rows[k].linkedAccount == old(rows)[k].linkedAccount
      ensures forall k :: k in old(rows) && k != id ==>
                (username.None? || username.value == "" || !Carries(old(rows)[k], username.value)) ==>
                  k in rows && rows[k] == old(rows)[k]
      ensures username.Some? && username.value != "" ==> OnlyHolder(rows, id, username.value)
    {
      if username.Some? && username.value != "" {
        CallAlone(rows, Call(id, username));
        rows := Release(rows, id, username.value);
      }
      if username.Some? {
        forall t: Table, k ensures Holds(t, k, username.value) <==> k in t && Carries(t[k], username.value) {
          HoldsIsCarries(t, k, username.value);
        }
      }
      var others := set k | k in rows && k != id && username.Some? && Holds(rows, k, username.value);
      if others != {} {
        var k :| k in others;
        assert Refused(rows, id, username);
        return true;
      }
      forall k | k != id && username.Some? ensures !Holds(rows, k, username.value) { assert k !in others; }
      rows := rows[id := if id in rows then rows[id].(username := username) else Row(None, username)];
      return false;
    }
  }
}
