/** The lock that lets one process at a time do the start-up work (backend/app/db_init.py, init_lock), with failures at
    any of its database calls. The lock belongs to a database session, not to a transaction, and one session may take it
    several times over. */
module InitLock {
  import opened Options

  datatype Phase =
    | Out
    | Asking(session: int)      // connected, the lock statement not done
    | Granted(session: int)     // the server has given the lock, its transaction not yet ended
    | InBody(session: int)
    | Freeing(session: int)     // the body is over, the unlock statement not done
    | Freed(session: int)       // unlock answered true; its transaction not yet ended
    | Discarding(session: int)  // to be invalidated, and closed if that succeeds
    | Refused(session: int)     // the asking failed: to be invalidated, and closed whether that succeeds or not

  datatype Hold = Hold(session: int, times: nat)

  /** `live` are the sessions the server knows, `pool` those waiting to be used again, `lost` those dropped unclosed. */
  datatype State = State(live: set<int>, pool: set<int>, lost: set<int>, holder: Option<Hold>, phases: map<int, Phase>)

  datatype Event =
    | Connect(p: int, session: int)   // a pooled or a new session
    | AskFails(p: int)                // SET LOCAL or the lock statement fails, the lock not taken
    | Grant(p: int)
    | GrantFails(p: int)              // the lock taken, but its statement or the commit after it fails
    | Enter(p: int)                   // the commit succeeds
    | Leave(p: int)                   // the body ends or raises
    | FreeFails(p: int)               // the rollback or the unlock statement fails, nothing unlocked
    | FreeFailsLate(p: int)           // unlocked, but the answer is lost
    | Free(p: int)                    // unlock answers true if this session had the lock, else false
    | Return(p: int)                  // the commit after it succeeds or fails; back into the pool
    | Invalidate(p: int)
    | CutShort(p: int)                // the invalidation of a refused session fails or is cancelled: it is closed only
    | Cancel(p: int)                  // cancelled while freeing or invalidating after it: not closed
    | Collect(session: int)           // a session dropped unclosed is terminated
    | SessionDies(session: int)       // the server ends a session on its own

  function PhaseOf(s: State, p: int): Phase {
    if p in s.phases then s.phases[p] else Out
  }

  predicate Has(s: State, session: int) {
    s.holder.Some? && s.holder.value.session == session
  }

  predicate MayTake(s: State, session: int) {
    session in s.live && (s.holder.None? || Has(s, session))
  }

  ghost predicate Unused(s: State, session: int) {
    && session !in s.pool && session !in s.lost && session !in s.live
    && forall p :: PhaseOf(s, p).Out? || PhaseOf(s, p).session != session
  }

  ghost predicate Can(s: State, e: Event) {
    match e
    case Connect(p, session) => PhaseOf(s, p).Out? && (session in s.pool || Unused(s, session))
    case AskFails(p) => PhaseOf(s, p).Asking?
    case Grant(p) => PhaseOf(s, p).Asking? && MayTake(s, PhaseOf(s, p).session)
    case GrantFails(p) => PhaseOf(s, p).Granted?
    case Enter(p) => PhaseOf(s, p).Granted? && PhaseOf(s, p).session in s.live
    case Leave(p) => PhaseOf(s, p).InBody?
    case FreeFails(p) => PhaseOf(s, p).Freeing?
    case FreeFailsLate(p) => PhaseOf(s, p).Freeing? && Has(s, PhaseOf(s, p).session)
    case Free(p) => PhaseOf(s, p).Freeing? && PhaseOf(s, p).session in s.live
    case Return(p) => PhaseOf(s, p).Freed?
    case Invalidate(p) => PhaseOf(s, p).Discarding? || PhaseOf(s, p).Refused?
    case CutShort(p) => PhaseOf(s, p).Refused?
    case Cancel(p) => PhaseOf(s, p).Freeing? || PhaseOf(s, p).Freed? || PhaseOf(s, p).Discarding?
    case Collect(session) => session in s.lost
    case SessionDies(session) => session in s.live
  }

  function To(s: State, p: int, to: Phase): State {
    s.(phases := s.phases[p := to])
  }

  function Take(s: State, session: int): State {
    s.(holder := Some(Hold(session, if Has(s, session) then s.holder.value.times + 1 else 1)))
  }

  /** pg_advisory_unlock: one time less; the lock is free when none is left. */
  function Unlock(s: State, session: int): State {
    if !Has(s, session) then s
    else if s.holder.value.times <= 1 then s.(holder := None)
    else s.(holder := Some(Hold(session, s.holder.value.times - 1)))
  }

  /** A session that takes the lock so many times must let it go so many times, one by one. */
  lemma {:induction false} TakeUnlock(s: State, session: int)
    requires MayTake(s, session) && (s.holder.Some? ==> s.holder.value.times >= 1)
    ensures Has(Take(s, session), session) && Unlock(Take(s, session), session) == s
    ensures Take(s, session).holder.value.times == (if Has(s, session) then s.holder.value.times else 0) + 1
  {
  }

  /** The end of a session frees all it has locked. */
  function End(s: State, session: int): State {
    s.(live := s.live - {session}, holder := if Has(s, session) then None else s.holder)
  }

  ghost function Do(s: State, e: Event): State
    requires Can(s, e)
  {
    match e
    case Connect(p, session) =>
      var live := if session in s.pool then s.live else s.live + {session};
      To(s, p, Asking(session)).(pool := s.pool - {session}, live := live)
    case AskFails(p) => To(s, p, Refused(PhaseOf(s, p).session))
    case Grant(p) => To(Take(s, PhaseOf(s, p).session), p, Granted(PhaseOf(s, p).session))
    case GrantFails(p) => To(s, p, Refused(PhaseOf(s, p).session))
    case Enter(p) => To(s, p, InBody(PhaseOf(s, p).session))
    case Leave(p) => To(s, p, Freeing(PhaseOf(s, p).session))
    case FreeFails(p) => To(s, p, Discarding(PhaseOf(s, p).session))
    case FreeFailsLate(p) => To(Unlock(s, PhaseOf(s, p).session), p, Discarding(PhaseOf(s, p).session))
    case Free(p) =>
      var session := PhaseOf(s, p).session;
      To(Unlock(s, session), p, if Has(s, session) then Freed(session) else Discarding(session))
    case Return(p) => To(s, p, Out).(pool := s.pool + {PhaseOf(s, p).session})
    case CutShort(p) => To(s, p, Out).(pool := s.pool + {PhaseOf(s, p).session})
    case Invalidate(p) => To(End(s, PhaseOf(s, p).session), p, Out)
    case Cancel(p) => To(s, p, Out).(lost := s.lost + {PhaseOf(s, p).session})
    case Collect(session) => End(s, session).(lost := s.lost - {session})
    case SessionDies(session) => End(s, session)
  }

  ghost predicate Runs(s: State, es: seq<Event>, t: State)
    decreases |es|
  {
    if es == [] then s == t else Can(s, es[0]) && Runs(Do(s, es[0]), es[1..], t)
  }

  predicate Init(s: State) {
    s == State({}, {}, {}, None, map[])
  }

  /** The phases in which the session has the lock, as long as the server keeps the session. */
  predicate Locks(p: Phase) {
    p.Granted? || p.InBody? || p.Freeing?
  }

  ghost predicate Inv(s: State) {
    // every session is in one place only
    && (forall p, q :: p != q && !PhaseOf(s, p).Out? && !PhaseOf(s, q).Out? ==>
          PhaseOf(s, p).session != PhaseOf(s, q).session)
    && (forall p :: !PhaseOf(s, p).Out? ==> PhaseOf(s, p).session !in s.pool && PhaseOf(s, p).session !in s.lost)
    && s.pool !! s.lost
    // the lock is held by a live session that is somewhere
    && (s.holder.Some? ==>
          var h := s.holder.value.session;
          h in s.live && (h in s.lost || h in s.pool || exists p :: p in s.phases && Uses(s, p, h)))
    && (forall p :: Locks(PhaseOf(s, p)) && PhaseOf(s, p).session in s.live ==> Has(s, PhaseOf(s, p).session))
  }

  predicate Uses(s: State, p: int, session: int) {
    !PhaseOf(s, p).Out? && PhaseOf(s, p).session == session
  }

  /** The lock is held once, and not by a session that waits in the pool or has yet to ask or has freed it. */
  ghost predicate Clean(s: State) {
    && (s.holder.Some? ==> s.holder.value.times == 1 && s.holder.value.session !in s.pool)
    && (forall p :: PhaseOf(s, p).Asking? || PhaseOf(s, p).Freed? ==> !Has(s, PhaseOf(s, p).session))
  }

  lemma {:induction false} ConnectStep(s: State, p: int, session: int)
    requires Inv(s) && Can(s, Connect(p, session))
    ensures Inv(Do(s, Connect(p, session)))
  {
    var t := Do(s, Connect(p, session));
    assert forall q :: PhaseOf(t, q) == if q == p then Asking(session) else PhaseOf(s, q);
    assert forall q :: !PhaseOf(s, q).Out? ==> PhaseOf(s, q).session != session;
  }

  lemma {:induction false} AskStep(s: State, e: Event)
    requires Inv(s) && Can(s, e) && (e.AskFails? || e.Grant? || e.GrantFails? || e.Enter? || e.Leave?)
    ensures Inv(Do(s, e))
  {
    var t := Do(s, e);
    assert forall q :: q != e.p ==> PhaseOf(t, q) == PhaseOf(s, q);
    assert PhaseOf(t, e.p).session == PhaseOf(s, e.p).session;
  }

  lemma {:induction false} FreeStep(s: State, e: Event)
    requires Inv(s) && Can(s, e) && (e.FreeFails? || e.FreeFailsLate? || e.Free?)
    ensures Inv(Do(s, e))
  {
    var t := Do(s, e);
    assert forall q :: q != e.p ==> PhaseOf(t, q) == PhaseOf(s, q);
    assert PhaseOf(t, e.p).session == PhaseOf(s, e.p).session;
  }

  lemma {:induction false} LeaveStep(s: State, e: Event)
    requires Inv(s) && Can(s, e) && (e.Return? || e.Invalidate? || e.CutShort? || e.Cancel?)
    ensures Inv(Do(s, e))
  {
    var t := Do(s, e);
    assert forall q :: PhaseOf(t, q) == if q == e.p then Out else PhaseOf(s, q);
  }

  lemma {:induction false} EndStep(s: State, e: Event)
    requires Inv(s) && Can(s, e) && (e.Collect? || e.SessionDies?)
    ensures Inv(Do(s, e))
  {
    var t := Do(s, e);
    assert forall q :: PhaseOf(t, q) == PhaseOf(s, q);
  }

  lemma {:induction false} InvStep(s: State, e: Event)
    requires Inv(s) && Can(s, e)
    ensures Inv(Do(s, e))
  {
    if e.Connect? {
      ConnectStep(s, e.p, e.session);
    } else if e.AskFails? || e.Grant? || e.GrantFails? || e.Enter? || e.Leave? {
      AskStep(s, e);
    } else if e.FreeFails? || e.FreeFailsLate? || e.Free? {
      FreeStep(s, e);
    } else if e.Return? || e.Invalidate? || e.CutShort? || e.Cancel? {
      LeaveStep(s, e);
    } else {
      EndStep(s, e);
    }
  }

  lemma {:induction false} RunInv(s: State, es: seq<Event>, t: State)
    requires Inv(s) && Runs(s, es, t)
    ensures Inv(t)
    decreases |es|
  {
    if es != [] {
      InvStep(s, es[0]);
      RunInv(Do(s, es[0]), es[1..], t);
    }
  }

  /** Two processes are inside the locked body together only if the server has ended the session of one of them,
      whatever fails or is cancelled. */
  lemma {:induction false} OneInside(s: State, es: seq<Event>, t: State, p: int, q: int)
    requires Init(s) && Runs(s, es, t)
    ensures PhaseOf(t, p).InBody? && PhaseOf(t, q).InBody? && p != q ==>
              PhaseOf(t, p).session !in t.live || PhaseOf(t, q).session !in t.live
  {
    assert Inv(s);
    RunInv(s, es, t);
  }

  ghost predicate InUseLive(s: State) {
    && (forall p :: !PhaseOf(s, p).Out? ==> PhaseOf(s, p).session in s.live)
    && s.pool <= s.live && s.lost <= s.live
  }

  lemma {:induction false} LiveStep(s: State, e: Event)
    requires Inv(s) && InUseLive(s) && Can(s, e) && !e.SessionDies?
    ensures InUseLive(Do(s, e))
  {
    var t := Do(s, e);
    if e.Invalidate? {
      assert forall q :: PhaseOf(t, q) == if q == e.p then Out else PhaseOf(s, q);
    } else if e.Collect? {
      assert forall q :: PhaseOf(t, q) == PhaseOf(s, q);
    } else {
      assert forall q :: q != e.p ==> PhaseOf(t, q) == PhaseOf(s, q);
    }
  }

  lemma {:induction false} RunLive(s: State, es: seq<Event>, t: State)
    requires Inv(s) && InUseLive(s) && Runs(s, es, t) && forall i :: 0 <= i < |es| ==> !es[i].SessionDies?
    ensures InUseLive(t)
    decreases |es|
  {
    if es != [] {
      InvStep(s, es[0]);
      LiveStep(s, es[0]);
      RunLive(Do(s, es[0]), es[1..], t);
    }
  }

  /** With failures at any database call - the lock taken or not, unlocked or not - but no session ended by the server,
      at most one process is inside the body. */
  lemma {:induction false} AtMostOneInside(s: State, es: seq<Event>, t: State, p: int, q: int)
    requires Init(s) && Runs(s, es, t) && forall i :: 0 <= i < |es| ==> !es[i].SessionDies?
    requires PhaseOf(t, p).InBody? && PhaseOf(t, q).InBody?
    ensures p == q
  {
    RunLive(s, es, t);
    OneInside(s, es, t, p, q);
  }

  // ---------------------------------------------------------------- the lock and the pool

  /** The session of a process whose asking failed goes back into the pool with the lock. */
  ghost predicate PoolsLock(s: State, e: Event) {
    e.CutShort? && PhaseOf(s, e.p).Refused? && Has(s, PhaseOf(s, e.p).session)
  }

  /** A step lets the lock into the pool, or be held twice over, if and only if it cuts the invalidation of a session
      short that has the lock. */
  lemma {:induction false} CleanStep(s: State, e: Event)
    requires Inv(s) && Clean(s) && Can(s, e)
    ensures Clean(Do(s, e)) <==> !PoolsLock(s, e)
  {
    var t := Do(s, e);
    if e.Collect? || e.SessionDies? {
      assert forall q :: PhaseOf(t, q) == PhaseOf(s, q);
    } else {
      assert forall q :: q != e.p ==> PhaseOf(t, q) == PhaseOf(s, q);
    }
  }

  ghost predicate NonePools(s: State, es: seq<Event>, t: State)
    requires Runs(s, es, t)
    decreases |es|
  {
    es == [] || (!PoolsLock(s, es[0]) && NonePools(Do(s, es[0]), es[1..], t))
  }

  ghost predicate AllClean(s: State, es: seq<Event>, t: State)
    requires Runs(s, es, t)
    decreases |es|
  {
    Clean(s) && (es == [] || AllClean(Do(s, es[0]), es[1..], t))
  }

  /** Over a whole run the lock is held once at a time and never by a pooled session exactly when no invalidation of a
      session that has the lock is cut short. */
  lemma {:induction false} RunClean(s: State, es: seq<Event>, t: State)
    requires Inv(s) && Clean(s) && Runs(s, es, t)
    ensures AllClean(s, es, t) <==> NonePools(s, es, t)
    ensures NonePools(s, es, t) ==> Clean(t)
    decreases |es|
  {
    hide Can, Do, Inv, Clean, PoolsLock;
    if es != [] {
      InvStep(s, es[0]);
      CleanStep(s, es[0]);
      if !PoolsLock(s, es[0]) {
        RunClean(Do(s, es[0]), es[1..], t);
      } else {
        NotAllClean(Do(s, es[0]), es[1..], t);
      }
    }
  }

  lemma {:induction false} NotAllClean(s: State, es: seq<Event>, t: State)
    requires Runs(s, es, t) && !Clean(s)
    ensures !AllClean(s, es, t)
  {
  }

  /** When every process has gone its way and no connection is left dangling, the lock is free again - unless such a
      session has taken it into the pool. */
  lemma {:induction false} NeverStuck(s: State, es: seq<Event>, t: State)
    requires Init(s) && Runs(s, es, t) && t.lost == {} && forall p :: PhaseOf(t, p).Out?
    ensures t.holder.Some? ==> t.holder.value.session in t.pool
    ensures NonePools(s, es, t) ==> t.holder == None
  {
    RunInv(s, es, t);
    RunClean(s, es, t);
  }
}
