/** What the unix id protocol promises over whole runs, whatever the interleaving. */
module UnixIdsProofs {
  import opened Options
  import opened UnixIds

  lemma {:induction false} InitInv(s: State)
    requires Init(s)
    ensures Inv(s)
  {
  }

  /** The next value of the sequence never falls, and the numbers handed out strictly grow - so none is handed out
      twice, those of deleted rows and of rolled back requests included. */
  lemma {:induction false} NeverTwice(s: State, es: seq<Event>, t: State)
    requires Inv(s) && Runs(s, es, t)
    ensures Inv(t) && Next(s) <= Next(t)
    ensures s.handed <= t.handed
    ensures forall i, j :: 0 <= i < j < |t.handed| ==> t.handed[i] < t.handed[j]
    ensures forall i :: |s.handed| <= i < |t.handed| ==> t.handed[i] >= Next(s)
    decreases |es|
  {
    if es != [] {
      InvStep(s, es[0]);
      NeverTwice(Do(s, es[0]), es[1..], t);
    }
  }

  /** A row's number, once committed, is its number for good: no later row takes its place either. */
  lemma {:induction false} NumberStays(s: State, es: seq<Event>, t: State, row: int)
    requires Inv(s) && Runs(s, es, t) && row in s.given
    ensures row in t.given && t.given[row] == s.given[row]
    ensures row in t.rows ==> t.rows[row] == Some(s.given[row])
    decreases |es|
  {
    hide Can, Do;
    if es != [] {
      InvStep(s, es[0]);
      NumberStep(s, es[0], row);
      NumberStays(Do(s, es[0]), es[1..], t, row);
    }
  }

  lemma {:induction false} NumberStep(s: State, e: Event, row: int)
    requires Inv(s) && Can(s, e) && row in s.given
    ensures row in Do(s, e).given && Do(s, e).given[row] == s.given[row]
  {
  }

  /** All requests for one row that have told their callers a number, and are not rolled back, have told the same
      one. */
  lemma {:induction false} SameAnswer(s: State, p: int, q: int)
    requires Inv(s) && p in s.requests && q in s.requests && s.requests[p].row == s.requests[q].row
    requires Answer(s.requests[p].phase).Some? && Answer(s.requests[q].phase).Some?
    ensures Answer(s.requests[p].phase) == Answer(s.requests[q].phase)
  {
    assert RequestOk(s, p) && RequestOk(s, q);
  }

  /** What a request has told stays what it told, unless it is rolled back. */
  lemma {:induction false} AnswerStays(s: State, es: seq<Event>, t: State, q: int)
    requires Inv(s) && Runs(s, es, t) && q in s.requests && Answer(s.requests[q].phase).Some?
    ensures q in t.requests
            && (t.requests[q].phase == RolledBack || Answer(t.requests[q].phase) == Answer(s.requests[q].phase))
    decreases |es|
  {
    hide Can, Do, Inv, Answer;
    if es != [] {
      InvStep(s, es[0]);
      AnswerStep(s, es[0], q);
      var u := Do(s, es[0]);
      if u.requests[q].phase == RolledBack {
        RolledBackStays(u, es[1..], t, q);
      } else {
        AnswerStays(u, es[1..], t, q);
      }
    }
  }

  lemma {:induction false} AnswerStep(s: State, e: Event, q: int)
    requires Can(s, e) && q in s.requests && Answer(s.requests[q].phase).Some?
    ensures var u := Do(s, e);
            q in u.requests
              && (u.requests[q].phase == RolledBack || Answer(u.requests[q].phase) == Answer(s.requests[q].phase))
  {
  }

  lemma {:induction false} RolledBackStays(s: State, es: seq<Event>, t: State, q: int)
    requires Runs(s, es, t) && q in s.requests && s.requests[q].phase == RolledBack
    ensures q in t.requests && t.requests[q].phase == RolledBack
    decreases |es|
  {
    hide Can, Do;
    if es != [] {
      RolledBackStep(s, es[0], q);
      RolledBackStays(Do(s, es[0]), es[1..], t, q);
    }
  }

  lemma {:induction false} RolledBackStep(s: State, e: Event, q: int)
    requires Can(s, e) && q in s.requests && s.requests[q].phase == RolledBack
    ensures q in Do(s, e).requests && Do(s, e).requests[q].phase == RolledBack
  {
  }

  /** Reading again always finds a number, unless the row is gone. */
  lemma {:induction false} RereadFinds(s: State, q: int)
    requires Inv(s) && Can(s, Reread(q)) && s.requests[q].row in s.rows
    ensures Answer(Do(s, Reread(q)).requests[q].phase).Some?
  {
    assert RequestOk(s, q);
  }

  // ---------------------------------------------------------------- raising the sequence

  /** With this step the raise `r` finishes: it has seen the sequence ahead, or has put it ahead. */
  ghost predicate Finishes(s: State, e: Event, r: int) {
    Can(s, e) && r in Do(s, e).raises && Do(s, e).raises[r].Finished? && !(r in s.raises && s.raises[r].Finished?)
  }

  /** A raise that finishes leaves the sequence above every number in the table and every number being given. */
  lemma {:induction false} RaiseReaches(s: State, e: Event, r: int)
    requires Inv(s) && Finishes(s, e, r)
    ensures var t := Do(s, e);
            Ahead(t) && forall q :: q in t.requests && t.requests[q].phase.Holding? ==> t.requests[q].phase.n < Next(t)
  {
    InvStep(s, e);
    var t := Do(s, e);
    if e.Finish? {
      assert RaiseOk(s, r);
    }
    forall q | q in t.requests && t.requests[q].phase.Holding? ensures t.requests[q].phase.n < Next(t) {
      assert RequestOk(t, q);
    }
  }

  /** Once above, the sequence stays above. */
  lemma {:induction false} AheadStays(s: State, es: seq<Event>, t: State)
    requires Inv(s) && Runs(s, es, t) && Ahead(s)
    ensures Ahead(t)
    decreases |es|
  {
    hide Can, Do, Inv, Ahead;
    if es != [] {
      InvStep(s, es[0]);
      AheadStep(s, es[0]);
      AheadStays(Do(s, es[0]), es[1..], t);
    }
  }

  lemma {:induction false} AheadStep(s: State, e: Event)
    requires Inv(s) && Can(s, e) && Ahead(s)
    ensures Ahead(Do(s, e))
  {
    InvStep(s, e);
    if e.Commit? {
      assert RequestOk(s, e.q);
    }
    RowsStep(s, e);
  }

  /** Only a commit puts a number into the table. */
  lemma {:induction false} RowsStep(s: State, e: Event)
    requires Can(s, e)
    ensures var t := Do(s, e);
            forall a :: a in t.rows ==>
              || t.rows[a] == None || (a in s.rows && t.rows[a] == s.rows[a])
              || (e.Commit? && s.requests[e.q].phase.Holding? && t.rows[a] == Some(s.requests[e.q].phase.n))
  {
  }

  /** No number stands twice, in the table or on its way into it. */
  ghost predicate AllDistinct(s: State) {
    && (forall a, b :: a in s.rows && b in s.rows && a != b && s.rows[a].Some? ==> s.rows[a] != s.rows[b])
    && (forall q, a :: q in s.requests && s.requests[q].phase.Holding? && a in s.rows ==>
          s.rows[a] != Some(s.requests[q].phase.n))
    && (forall p, q ::
          && p in s.requests && q in s.requests && p != q
          && s.requests[p].phase.Holding? && s.requests[q].phase.Holding? ==>
          s.requests[p].phase.n != s.requests[q].phase.n)
  }

  lemma {:induction false} DistinctTake(s: State, q: int)
    requires Inv(s) && Can(s, Take(q)) && Ahead(s) && AllDistinct(s)
    ensures AllDistinct(Do(s, Take(q)))
  {
    forall p | p in s.requests && s.requests[p].phase.Holding? ensures s.requests[p].phase.n < Next(s) {
      assert RequestOk(s, p);
    }
    assert Do(s, Take(q)).rows == s.rows;
  }

  lemma {:induction false} DistinctCommit(s: State, q: int)
    requires Inv(s) && Can(s, Commit(q)) && AllDistinct(s)
    ensures AllDistinct(Do(s, Commit(q)))
  {
    var t := Do(s, Commit(q));
    assert forall a :: a in t.rows && a != s.requests[q].row ==> t.rows[a] == s.rows[a];
  }

  lemma {:induction false} DistinctStep(s: State, e: Event)
    requires Inv(s) && Can(s, e) && Ahead(s) && AllDistinct(s)
    ensures AllDistinct(Do(s, e))
  {
    if e.Take? {
      DistinctTake(s, e.q);
    } else if e.Commit? {
      DistinctCommit(s, e.q);
    } else {
      RowsStep(s, e);
      HoldersStep(s, e);
      DistinctWithin(s, Do(s, e));
    }
  }

  /** Only a request that takes a number comes to hold one. */
  lemma {:induction false} HoldersStep(s: State, e: Event)
    requires Can(s, e) && !e.Take?
    ensures var t := Do(s, e);
            forall q :: q in t.requests && t.requests[q].phase.Holding? ==>
              q in s.requests && s.requests[q] == t.requests[q]
  {
  }

  lemma {:induction false} DistinctWithin(s: State, t: State)
    requires AllDistinct(s)
    requires forall a :: a in t.rows ==> t.rows[a] == None || (a in s.rows && t.rows[a] == s.rows[a])
    requires forall q :: q in t.requests && t.requests[q].phase.Holding? ==>
             q in s.requests && s.requests[q] == t.requests[q]
    ensures AllDistinct(t)
  {
  }

  /** From a table of distinct numbers that the sequence is ahead of, every run keeps the numbers distinct. */
  lemma {:induction false} RunsStayDistinct(s: State, es: seq<Event>, t: State)
    requires Inv(s) && Runs(s, es, t) && Ahead(s) && AllDistinct(s)
    ensures AllDistinct(t)
    decreases |es|
  {
    hide Can, Do, Inv, Ahead, AllDistinct;
    if es != [] {
      DistinctStep(s, es[0]);
      InvStep(s, es[0]);
      AheadStep(s, es[0]);
      RunsStayDistinct(Do(s, es[0]), es[1..], t);
    }
  }

  /** From any table that a dump may leave, and after any run: if no number stands twice when a raise finishes, none
      ever does, whatever requests, failures and further raises follow - and the sequence stays ahead. */
  lemma {:induction false} DistinctOnceRaised(s: State, es: seq<Event>, u: State, e: Event, r: int, fs: seq<Event>,
                                              t: State)
    requires Init(s) && Runs(s, es, u) && Finishes(u, e, r) && AllDistinct(Do(u, e)) && Runs(Do(u, e), fs, t)
    ensures AllDistinct(t) && Ahead(t)
  {
    InitInv(s);
    NeverTwice(s, es, u);
    InvStep(u, e);
    RaiseReaches(u, e, r);
    hide Can, Do, Inv, Ahead, AllDistinct, Finishes;
    RunsStayDistinct(Do(u, e), fs, t);
    AheadStays(Do(u, e), fs, t);
  }

  // ---------------------------------------------------------------- why the table is locked

  /** Were a number drawn between reading the largest number and setting the sequence to it, the sequence would fall -
      and the lock is what keeps every request from drawing. */
  lemma {:induction false} SetAfterDrawFalls(s: State, r: int)
    requires Inv(s) && Can(s, Set(r)) && s.raises[r].m == Next(s)
    ensures var drawn := Drawn(Drawn(s)); Can(drawn, Set(r)) && Next(Do(drawn, Set(r))) < Next(drawn)
    ensures forall q :: !Can(s, Burn(q)) && !Can(s, Take(q))
  {
    assert RaiseOk(s, r);
  }

  // ---------------------------------------------------------------- requests and raises that meet nobody

  lemma {:induction false} RunAfter(s: State, es: seq<Event>, t: State, fs: seq<Event>, u: State)
    requires Runs(s, es, t) && Runs(t, fs, u)
    ensures Runs(s, es + fs, u)
    decreases |es|
  {
    hide Can, Do;
    if es == [] {
      assert es + fs == fs;
    } else {
      RunAfter(Do(s, es[0]), es[1..], t, fs, u);
      assert (es + fs)[1..] == es[1..] + fs;
    }
  }

  lemma {:induction false} OneStep(s: State, e: Event)
    requires Can(s, e)
    ensures Runs(s, [e], Do(s, e))
  {
    hide Can, Do;
    assert [e][1..] == [];
  }

  lemma {:induction false} TwoSteps(s: State, e: Event, f: Event)
    requires Can(s, e) && Can(Do(s, e), f)
    ensures Runs(s, [e, f], Do(Do(s, e), f))
  {
    hide Can, Do;
    OneStep(s, e);
    OneStep(Do(s, e), f);
    RunAfter(s, [e], Do(s, e), [f], Do(Do(s, e), f));
    assert [e] + [f] == [e, f];
  }

  /** A request that nobody keeps off gives the row the next number, and tells it; no other row gets one. */
  lemma {:induction false} RequestNumbers(s: State, q: int, row: int) returns (t: State)
    requires Inv(s) && q !in s.requests && row in s.rows && s.rows[row].None? && WritersMayStart(s) && RowFree(s, row)
    ensures Runs(s, [Begin(q, row), StartUpdate(q)] + [Take(q), Commit(q)], t)
    ensures t.rows == s.rows[row := Some(Next(s))] && t.given == s.given[row := Next(s)]
    ensures t.requests == s.requests[q := Request(row, Committed(Next(s)))]
    ensures t.handed == s.handed + [Next(s)] && Next(t) == Next(s) + 1 && t.raises == s.raises && t.used == s.used
  {
    var s1 := Do(s, Begin(q, row));
    var s2 := Do(s1, StartUpdate(q));
    TwoSteps(s, Begin(q, row), StartUpdate(q));
    var s3 := Do(s2, Take(q));
    t := Do(s3, Commit(q));
    TwoSteps(s2, Take(q), Commit(q));
    hide Can, Do;
    RunAfter(s, [Begin(q, row), StartUpdate(q)], s2, [Take(q), Commit(q)], t);
  }

  /** A request for a row that has a number tells it at once, and changes nothing. */
  lemma {:induction false} RequestKnows(s: State, q: int, row: int) returns (t: State)
    requires Inv(s) && q !in s.requests && row in s.rows && s.rows[row].Some?
    ensures Runs(s, [Begin(q, row), Commit(q)], t)
    ensures t == s.(requests := s.requests[q := Request(row, Committed(s.rows[row].value))])
  {
    t := Do(Do(s, Begin(q, row)), Commit(q));
    TwoSteps(s, Begin(q, row), Commit(q));
  }

  /** A request that comes too late reads the number again, with the table still locked for writers, and tells it; the
      numbers it drew while it waited are lost. */
  lemma {:induction false} RequestTooLate(s: State, q: int) returns (u: State, t: State)
    requires Inv(s) && q in s.requests && s.requests[q].phase.Updating? && RowFree(s, s.requests[q].row)
    requires s.requests[q].row in s.rows && s.rows[s.requests[q].row].Some?
    ensures Runs(s, [Burn(q), Miss(q)] + [Reread(q)], u) && q in u.requests && WritesTable(u.requests[q].phase)
    ensures Runs(u, [Commit(q)], t) && t.rows == s.rows && t.given == s.given && Next(t) == Next(s) + 1
    ensures t.requests == s.requests[q := Request(s.requests[q].row, Committed(s.rows[s.requests[q].row].value))]
  {
    var s1 := Do(s, Burn(q));
    var s2 := Do(s1, Miss(q));
    TwoSteps(s, Burn(q), Miss(q));
    u := Do(s2, Reread(q));
    OneStep(s2, Reread(q));
    t := Do(u, Commit(q));
    OneStep(u, Commit(q));
    hide Can, Do;
    RunAfter(s, [Burn(q), Miss(q)], s2, [Reread(q)], u);
  }

  lemma {:induction false} RaiseLocks(s: State, r: int) returns (t: State)
    requires r !in s.raises && WritersMayStart(s) && !Ahead(s)
    requires forall q :: q in s.requests ==> !WritesTable(s.requests[q].phase)
    ensures Runs(s, [Check(r), Lock(r)], t) && t == s.(raises := s.raises[r := Locked])
  {
    t := Do(Do(s, Check(r)), Lock(r));
    TwoSteps(s, Check(r), Lock(r));
  }

  lemma {:induction false} RaiseDecides(s: State, r: int, m: int) returns (t: State)
    requires r in s.raises && s.raises[r].Locked? && IsMax(s, m) && !Ahead(s)
    ensures Runs(s, [Read(r, m), Set(r)], t) && t == s.(last := m, called := true, raises := s.raises[r := Settled])
  {
    t := Do(Do(s, Read(r, m)), Set(r));
    TwoSteps(s, Read(r, m), Set(r));
  }

  lemma {:induction false} BehindMax(s: State, m: int)
    requires IsMax(s, m) && m >= Next(s)
    ensures !Ahead(s)
  {
  }

  /** A raise that finds the sequence behind, and nobody at the table, sets it to the largest number. */
  lemma {:induction false} RaiseSets(s: State, r: int, m: int) returns (t: State)
    requires r !in s.raises && WritersMayStart(s) && IsMax(s, m) && m >= Next(s)
    requires forall q :: q in s.requests ==> !WritesTable(s.requests[q].phase)
    ensures Runs(s, [Check(r), Lock(r)] + ([Read(r, m), Set(r)] + [Finish(r)]), t)
    ensures t == s.(last := m, called := true, raises := s.raises[r := Finished]) && Next(t) == m + 1
    ensures exists row :: row in s.rows && s.rows[row] == Some(m)
    ensures forall row :: row in s.rows && s.rows[row].Some? ==> s.rows[row].value <= m
  {
    BehindMax(s, m);
    var s2 := RaiseLocks(s, r);
    BehindMax(s2, m);
    var s4 := RaiseDecides(s2, r, m);
    t := Do(s4, Finish(r));
    OneStep(s4, Finish(r));
    hide Can, Do, Runs;
    RunAfter(s2, [Read(r, m), Set(r)], s4, [Finish(r)], t);
    RunAfter(s, [Check(r), Lock(r)], s2, [Read(r, m), Set(r)] + [Finish(r)], t);
  }

  /** Rows come without a number, and go when nobody is at work with them; the numbers they had stay theirs. */
  lemma {:induction false} RowsComeAndGo(s: State, row: int)
    requires WritersMayStart(s)
    ensures row !in s.used ==>
              && Can(s, Insert(row))
              && Do(s, Insert(row)) == s.(rows := s.rows[row := None], used := s.used + {row})
    ensures row in s.rows && RowFree(s, row) ==>
              Can(s, Delete(row)) && Do(s, Delete(row)) == s.(rows := s.rows - {row})
  {
  }

  /** A raise that finds the sequence ahead takes no lock and changes nothing. */
  lemma {:induction false} RaiseLeaves(s: State, r: int) returns (t: State)
    requires Inv(s) && r !in s.raises && Ahead(s)
    ensures Runs(s, [Check(r)], t) && t == s.(raises := s.raises[r := Finished])
  {
    t := Do(s, Check(r));
    OneStep(s, Check(r));
  }
}
