/** When exactly the start-up lock can let two processes in. */
module InitLockProofs {
  import opened InitLock
  import opened Options
  import opened Sets

  ghost predicate Inside(s: State, p: int) {
    PhaseOf(s, p).InBody?
  }

  /** The process is inside although the server has ended its session. */
  ghost predicate InsideCutOff(s: State, p: int) {
    PhaseOf(s, p).InBody? && PhaseOf(s, p).session !in s.live
  }

  ghost predicate NoDeaths(es: seq<Event>) {
    forall i :: 0 <= i < |es| ==> !es[i].SessionDies?
  }

  lemma {:induction false} RunAfter(s: State, es: seq<Event>, t: State, fs: seq<Event>, u: State)
    requires Runs(s, es, t) && Runs(t, fs, u)
    ensures Runs(s, es + fs, u)
    decreases |es|
  {
    if es == [] {
      assert es + fs == fs;
    } else {
      RunAfter(Do(s, es[0]), es[1..], t, fs, u);
      assert (es + fs)[1..] == es[1..] + fs;
    }
  }

  lemma {:induction false} OneStep(s: State, e: Event)
    requires Can(s, e)
    ensures Runs(s, [e], Do(s, e))
  {
    assert [e][1..] == [];
  }

  // ---------------------------------------------------------------- a second process can follow

  lemma {:induction false} Larger(ids: set<int>) returns (n: int)
    ensures forall i :: i in ids ==> i < n
    decreases ids
  {
    n := 0;
    if ids != {} {
      var i := Pick(ids);
      var rest := ids - {i};
      var m := Larger(rest);
      n := if i < m then m else i + 1;
      forall j | j in ids ensures j < n {
        assert j == i || j in rest;
      }
    }
  }

  /** There always are a process and a session that nobody has seen. */
  lemma {:induction false} Newcomer(s: State) returns (q: int, session: int)
    ensures q !in s.phases && Unused(s, session)
  {
    var sessions := set p | p in s.phases && !s.phases[p].Out? :: s.phases[p].session;
    q := Larger(s.phases.Keys);
    assert q !in s.phases.Keys;
    var all := s.live + s.pool + s.lost + sessions;
    session := Larger(all);
    assert session !in all;
    forall p ensures PhaseOf(s, p).Out? || PhaseOf(s, p).session != session {
      if p in s.phases && !s.phases[p].Out? {
        assert s.phases[p].session in sessions;
      }
    }
  }

  /** With the lock free a newcomer gets in, and nobody else is moved. */
  lemma {:induction false} NewcomerEnters(s: State, p: int) returns (es: seq<Event>, t: State, q: int)
    requires s.holder == None && Inside(s, p)
    ensures Runs(s, es, t) && NoDeaths(es) && q != p && Inside(t, q) && PhaseOf(t, p) == PhaseOf(s, p)
  {
    var session;
    q, session := Newcomer(s);
    var s1 := Do(s, Connect(q, session));
    var s2 := Do(s1, Grant(q));
    t := Do(s2, Enter(q));
    OneStep(s, Connect(q, session));
    OneStep(s1, Grant(q));
    OneStep(s2, Enter(q));
    hide Do, Can, Unused;
    RunAfter(s, [Connect(q, session)], s1, [Grant(q)], s2);
    RunAfter(s, [Connect(q, session)] + [Grant(q)], s2, [Enter(q)], t);
    es := [Connect(q, session)] + [Grant(q)] + [Enter(q)];
  }

  /** A process whose session has the lock and has yet to ask gets in. */
  lemma {:induction false} AskerEnters(s: State, q: int, p: int) returns (es: seq<Event>, t: State)
    requires Inv(s) && InsideCutOff(s, p) && PhaseOf(s, q).Asking? && Has(s, PhaseOf(s, q).session)
    ensures Runs(s, es, t) && NoDeaths(es) && q != p && Inside(t, q) && PhaseOf(t, p) == PhaseOf(s, p)
  {
    var s1 := Do(s, Grant(q));
    t := Do(s1, Enter(q));
    OneStep(s, Grant(q));
    OneStep(s1, Enter(q));
    hide Do, Can;
    RunAfter(s, [Grant(q)], s1, [Enter(q)], t);
    es := [Grant(q)] + [Enter(q)];
  }

  /** A pooled session that has the lock lets in the newcomer who gets it. */
  lemma {:induction false} PooledEnters(s: State, p: int) returns (es: seq<Event>, t: State, q: int)
    requires Inv(s) && InsideCutOff(s, p) && s.holder.Some? && s.holder.value.session in s.pool
    ensures Runs(s, es, t) && NoDeaths(es) && q != p && Inside(t, q) && PhaseOf(t, p) == PhaseOf(s, p)
  {
    var session := s.holder.value.session;
    var unused;
    q, unused := Newcomer(s);
    var s1 := Do(s, Connect(q, session));
    InvStep(s, Connect(q, session));
    OneStep(s, Connect(q, session));
    assert PhaseOf(s1, p) == PhaseOf(s, p);
    hide Do, Can, Inv;
    es, t := AskerEnters(s1, q, p);
    RunAfter(s, [Connect(q, session)], s1, es, t);
    es := [Connect(q, session)] + es;
  }

  /** So does one that comes back with the lock because it had it twice over. */
  lemma {:induction false} FreedEnters(s: State, r: int, p: int) returns (es: seq<Event>, t: State, q: int)
    requires Inv(s) && InsideCutOff(s, p) && PhaseOf(s, r).Freed? && Has(s, PhaseOf(s, r).session)
    ensures Runs(s, es, t) && NoDeaths(es) && q != p && Inside(t, q) && PhaseOf(t, p) == PhaseOf(s, p)
  {
    var s1 := Do(s, Return(r));
    InvStep(s, Return(r));
    OneStep(s, Return(r));
    assert PhaseOf(s1, p) == PhaseOf(s, p);
    hide Do, Can, Inv;
    es, t, q := PooledEnters(s1, p);
    RunAfter(s, [Return(r)], s1, es, t);
    es := [Return(r)] + es;
  }

  /** A process that fails to free the lock has its session invalidated. */
  lemma {:induction false} FreeingFrees(s: State, r: int, p: int) returns (es: seq<Event>, t: State)
    requires Inv(s) && PhaseOf(s, r).Freeing? && Has(s, PhaseOf(s, r).session) && p != r
    ensures Runs(s, es, t) && NoDeaths(es) && t.holder == None && PhaseOf(t, p) == PhaseOf(s, p)
  {
    var given := Do(s, FreeFails(r));
    InvStep(s, FreeFails(r));
    OneStep(s, FreeFails(r));
    DiscardFrees(given, r, p);
    OneStep(given, Invalidate(r));
    t := Do(given, Invalidate(r));
    RunAfter(s, [FreeFails(r)], given, [Invalidate(r)], t);
    es := [FreeFails(r)] + [Invalidate(r)];
  }

  /** A connection to be discarded frees the lock. */
  lemma {:induction false} DiscardFrees(s: State, r: int, p: int)
    requires Inv(s) && (PhaseOf(s, r).Discarding? || PhaseOf(s, r).Refused?) && Has(s, PhaseOf(s, r).session) && p != r
    ensures Can(s, Invalidate(r)) && Do(s, Invalidate(r)).holder == None
    ensures PhaseOf(Do(s, Invalidate(r)), p) == PhaseOf(s, p)
  {
  }

  /** From any state the lock can become free, or another process goes inside, without a move of `p`, whose session the
      server has ended. */
  lemma {:induction false} LockComesFree(s: State, p: int) returns (es: seq<Event>, t: State, q: int)
    requires Inv(s) && InsideCutOff(s, p)
    ensures Runs(s, es, t) && NoDeaths(es) && PhaseOf(t, p) == PhaseOf(s, p)
    ensures t.holder == None || (q != p && Inside(t, q))
  {
    es, t, q := [], s, p;
    if s.holder.Some? {
      var session := s.holder.value.session;
      if session in s.lost {
        es, t := [Collect(session)], Do(s, Collect(session));
        OneStep(s, Collect(session));
      } else if session in s.pool {
        es, t, q := PooledEnters(s, p);
      } else {
        var r :| r in s.phases && Uses(s, r, session);
        es, t, q := UserMoves(s, r, p);
      }
    }
  }

  /** What the process can do whose session has the lock. */
  lemma {:induction false} UserMoves(s: State, r: int, p: int) returns (es: seq<Event>, t: State, q: int)
    requires Inv(s) && InsideCutOff(s, p) && !PhaseOf(s, r).Out? && Has(s, PhaseOf(s, r).session)
    ensures Runs(s, es, t) && NoDeaths(es) && PhaseOf(t, p) == PhaseOf(s, p)
    ensures t.holder == None || (q != p && Inside(t, q))
  {
    es, t, q := [], s, r;
    var phase := PhaseOf(s, r);
    if phase.Asking? {
      es, t := AskerEnters(s, r, p);
    } else if phase.Granted? {
      es, t := [Enter(r)], Do(s, Enter(r));
      OneStep(s, Enter(r));
    } else if phase.Freeing? {
      es, t := FreeingFrees(s, r, p);
    } else if phase.Freed? {
      es, t, q := FreedEnters(s, r, p);
    } else if phase.Discarding? || phase.Refused? {
      DiscardFrees(s, r, p);
      es, t := [Invalidate(r)], Do(s, Invalidate(r));
      OneStep(s, Invalidate(r));
    }
  }

  /** While a process is inside whose session the server has ended, a second one can follow, with no other session ended
      and the first still inside. */
  lemma {:induction false} SecondFollows(s: State, p: int) returns (es: seq<Event>, t: State, q: int)
    requires Inv(s) && InsideCutOff(s, p)
    ensures Runs(s, es, t) && NoDeaths(es) && q != p && Inside(t, q) && Inside(t, p)
  {
    es, t, q := LockComesFree(s, p);
    if !(q != p && Inside(t, q)) {
      var fs, u, r := NewcomerEnters(t, p);
      RunAfter(s, es, t, fs, u);
      es, t, q := es + fs, u, r;
    }
  }

  /** A process whose session the server keeps leaves the body, frees the lock and gives its session back to the
      pool. */
  lemma {:induction false} LeavesClean(s: State, p: int) returns (t: State)
    requires Inv(s) && Clean(s) && PhaseOf(s, p).InBody? && PhaseOf(s, p).session in s.live
    ensures Runs(s, [Leave(p)] + [Free(p)] + [Return(p)], t)
    ensures t.holder == None && PhaseOf(t, p) == Out && t.live == s.live && t.lost == s.lost
    ensures t.pool == s.pool + {PhaseOf(s, p).session} && forall q :: q != p ==> PhaseOf(t, q) == PhaseOf(s, q)
  {
    var s1 := Do(s, Leave(p));
    var s2 := Do(s1, Free(p));
    t := Do(s2, Return(p));
    OneStep(s, Leave(p));
    OneStep(s1, Free(p));
    OneStep(s2, Return(p));
    RunAfter(s, [Leave(p)], s1, [Free(p)], s2);
    RunAfter(s, [Leave(p)] + [Free(p)], s2, [Return(p)], t);
  }

  // ---------------------------------------------------------------- and only then

  /** Nobody comes in with an ended session, and no session of a process inside ends but by the server. */
  lemma {:induction false} CutOffBefore(s: State, e: Event, p: int)
    requires Inv(s) && Can(s, e) && !e.SessionDies? && InsideCutOff(Do(s, e), p)
    ensures InsideCutOff(s, p)
  {
  }

  lemma {:induction false} CutOffFromStart(s: State, es: seq<Event>, t: State, p: int)
    requires Inv(s) && Runs(s, es, t) && NoDeaths(es) && InsideCutOff(t, p)
    ensures InsideCutOff(s, p)
    decreases |es|
  {
    if es != [] {
      InvStep(s, es[0]);
      CutOffFromStart(Do(s, es[0]), es[1..], t, p);
      CutOffBefore(s, es[0], p);
    }
  }

  ghost predicate TwoInside(s: State, p: int, q: int) {
    p != q && Inside(s, p) && Inside(s, q)
  }

  /** The run, on which the server ends no session, brings two processes inside together. */
  ghost predicate BringsTwo(s: State, es: seq<Event>, t: State) {
    Runs(s, es, t) && NoDeaths(es) && exists p, q :: TwoInside(t, p, q)
  }

  /** From any state that can be reached, two processes can come to be inside together without another session ended by
      the server if and only if one is inside now whose session the server has ended. */
  lemma {:induction false} TwoInsideExactly(start: State, before: seq<Event>, s: State)
    requires Init(start) && Runs(start, before, s)
    ensures (exists es, t :: BringsTwo(s, es, t)) <==> exists p :: InsideCutOff(s, p)
  {
    assert Inv(start);
    RunInv(start, before, s);
    if es, t :| BringsTwo(s, es, t) {
      var p, q :| TwoInside(t, p, q);
      RunInv(s, es, t);
      var r := if PhaseOf(t, p).session in t.live then q else p;
      assert InsideCutOff(t, r);
      CutOffFromStart(s, es, t, r);
    }
    if p :| InsideCutOff(s, p) {
      var es, t, q := SecondFollows(s, p);
      assert TwoInside(t, p, q);
      assert BringsTwo(s, es, t);
    }
  }

  lemma {:induction false} FirstInside(s: State) returns (es: seq<Event>, t: State)
    requires Init(s)
    ensures Runs(s, es, t) && t == State({10}, {}, {}, Some(Hold(10, 1)), map[1 := InBody(10)])
  {
    var s1 := State({10}, {}, {}, None, map[1 := Asking(10)]);
    var s2 := State({10}, {}, {}, Some(Hold(10, 1)), map[1 := Granted(10)]);
    t := State({10}, {}, {}, Some(Hold(10, 1)), map[1 := InBody(10)]);
    assert s1 == Do(s, Connect(1, 10));
    assert s2 == Do(s1, Grant(1));
    assert t == Do(s2, Enter(1));
    OneStep(s, Connect(1, 10));
    OneStep(s1, Grant(1));
    OneStep(s2, Enter(1));
    hide Do, Can;
    RunAfter(s, [Connect(1, 10)], s1, [Grant(1)], s2);
    RunAfter(s, [Connect(1, 10)] + [Grant(1)], s2, [Enter(1)], t);
    es := [Connect(1, 10)] + [Grant(1)] + [Enter(1)];
  }

  /** From the start on, a session ended by the server can let a second process in while the first is inside. */
  lemma {:induction false} DeadSessionLetsIn(s: State)
    requires Init(s)
    ensures exists es, t, p, q :: Runs(s, es, t) && TwoInside(t, p, q)
  {
    var es, first := FirstInside(s);
    assert Inv(s);
    RunInv(s, es, first);
    var cut := SessionEnds(first);
    hide Do, Can, Inv;
    RunAfter(s, es, first, [SessionDies(10)], cut);
    var fs, t, q := SecondFollows(cut, 1);
    RunAfter(s, es + [SessionDies(10)], cut, fs, t);
    assert TwoInside(t, 1, q);
  }

  lemma {:induction false} SessionEnds(s: State) returns (t: State)
    requires Inv(s) && s == State({10}, {}, {}, Some(Hold(10, 1)), map[1 := InBody(10)])
    ensures Inv(t) && Runs(s, [SessionDies(10)], t) && InsideCutOff(t, 1)
  {
    t := Do(s, SessionDies(10));
    InvStep(s, SessionDies(10));
    OneStep(s, SessionDies(10));
  }
}
