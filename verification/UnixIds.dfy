/** Unix ids given once and for all: requests that number a row (backend/app/routers/auth.py, _ensure_unix_id) and the
    raising of the sequence at start-up (backend/app/db_init.py, raise_unix_id_sequences), step by step, in any
    interleaving of their transactions. */
module UnixIds {
  import opened Options

  /** How far a request is. `Updating`, `Rereading` and a `Known` that came from them hold the table's lock for writers
      to the end of their transaction; `Holding` also holds the row's. */
  datatype Phase =
    | Looking
    | Updating
    | Holding(n: int)
    | Rereading
    | Known(n: int, writer: bool)
    | Committed(n: int)
    | RolledBack
    | Failed

  datatype Request = Request(row: int, phase: Phase)

  /** How far a raise is; from `Locked` to `Settled` it keeps every writer off the table. */
  datatype Raise = WantsLock | Locked | Decided(m: int) | Settled | Finished | Aborted

  /** The committed table, the sequence, and everybody at work. `used` are the ids any row ever had, `given` the number
      each row was ever committed with, `handed` every number the sequence gave out. */
  datatype State = State(
    rows: map<int, Option<int>>, used: set<int>, given: map<int, int>,
    last: int, called: bool, handed: seq<int>,
    requests: map<int, Request>, raises: map<int, Raise>)

  function Next(s: State): int {
    if s.called then s.last + 1 else s.last
  }

  predicate KeepsWritersOff(r: Raise) {
    r.Locked? || r.Decided? || r.Settled?
  }

  predicate WritesTable(p: Phase) {
    p.Updating? || p.Holding? || p.Rereading? || (p.Known? && p.writer)
  }

  ghost predicate WritersMayStart(s: State) {
    forall r :: r in s.raises ==> !KeepsWritersOff(s.raises[r])
  }

  /** No other transaction has the row locked. */
  ghost predicate RowFree(s: State, row: int) {
    forall q :: q in s.requests && s.requests[q].row == row ==> !s.requests[q].phase.Holding?
  }

  /** The largest number in the table. */
  ghost predicate IsMax(s: State, m: int) {
    && (exists r :: r in s.rows && s.rows[r] == Some(m))
    && (forall r :: r in s.rows && s.rows[r].Some? ==> s.rows[r].value <= m)
  }

  /** The sequence is above every number in the table. */
  ghost predicate Ahead(s: State) {
    forall r :: r in s.rows && s.rows[r].Some? ==> s.rows[r].value < Next(s)
  }

  datatype Event =
    | Begin(q: int, row: int)      // load the row; answer at once if it has a number
    | StartUpdate(q: int)          // the UPDATE takes the table's lock for writers
    | Burn(q: int)                 // a number taken while waiting for the row's lock, and lost
    | Take(q: int)                 // the row is still without a number: give it the next one
    | Miss(q: int)                 // the row has a number meanwhile, or is gone
    | Reread(q: int)
    | Commit(q: int)
    | Rollback(q: int)
    | Insert(row: int)
    | Delete(row: int)
    | Check(r: int)                // a raise looks whether the sequence is behind
    | Lock(r: int)
    | Read(r: int, m: int)         // the largest number, read under the lock
    | Set(r: int)
    | Finish(r: int)
    | Abort(r: int)

  ghost predicate Can(s: State, e: Event) {
    match e
    case Begin(q, row) => q !in s.requests && row in s.rows
    case StartUpdate(q) => q in s.requests && s.requests[q].phase.Looking? && WritersMayStart(s)
    case Burn(q) => q in s.requests && s.requests[q].phase.Updating?
    case Take(q) =>
      && q in s.requests && s.requests[q].phase.Updating? && RowFree(s, s.requests[q].row)
      && s.requests[q].row in s.rows && s.rows[s.requests[q].row].None?
    case Miss(q) =>
      && q in s.requests && s.requests[q].phase.Updating? && RowFree(s, s.requests[q].row)
      && (s.requests[q].row in s.rows ==> s.rows[s.requests[q].row].Some?)
    case Reread(q) => q in s.requests && s.requests[q].phase.Rereading?
    case Commit(q) => q in s.requests && (s.requests[q].phase.Holding? || s.requests[q].phase.Known?)
    case Rollback(q) =>
      q in s.requests && !s.requests[q].phase.Committed? && !s.requests[q].phase.RolledBack?
        && !s.requests[q].phase.Failed?
    case Insert(row) => row !in s.used && WritersMayStart(s)
    case Delete(row) => row in s.rows && WritersMayStart(s) && RowFree(s, row)
    case Check(r) => r !in s.raises
    case Lock(r) =>
      && r in s.raises && s.raises[r].WantsLock? && WritersMayStart(s)
      && forall q :: q in s.requests ==> !WritesTable(s.requests[q].phase)
    case Read(r, m) => r in s.raises && s.raises[r].Locked? && (IsMax(s, m) || forall x :: !IsMax(s, x))
    case Set(r) => r in s.raises && s.raises[r].Decided?
    case Finish(r) => r in s.raises && s.raises[r].Settled?
    case Abort(r) => r in s.raises && !s.raises[r].Finished? && !s.raises[r].Aborted?
  }

  function At(s: State, q: int, p: Phase): State
    requires q in s.requests
  {
    s.(requests := s.requests[q := s.requests[q].(phase := p)])
  }

  /** nextval: not undone by a rollback. */
  function Drawn(s: State): State {
    s.(last := Next(s), called := true, handed := s.handed + [Next(s)])
  }

  ghost function Do(s: State, e: Event): State
    requires Can(s, e)
  {
    match e
    case Begin(q, row) =>
      s.(requests :=
        s.requests[q := Request(row, if s.rows[row].Some? then Known(s.rows[row].value, false) else Looking)])
    case StartUpdate(q) => At(s, q, Updating)
    case Burn(q) => Drawn(s)
    case Take(q) => At(Drawn(s), q, Holding(Next(s)))
    case Miss(q) => At(s, q, Rereading)
    case Reread(q) =>
      var row := s.requests[q].row;
      At(s, q, if row in s.rows && s.rows[row].Some? then Known(s.rows[row].value, true) else Failed)
    case Commit(q) =>
      var row, p := s.requests[q].row, s.requests[q].phase;
      var done := At(s, q, Committed(p.n));
      if p.Holding? then done.(rows := s.rows[row := Some(p.n)], given := s.given[row := p.n]) else done
    case Rollback(q) => At(s, q, RolledBack)
    case Insert(row) => s.(rows := s.rows[row := None], used := s.used + {row})
    case Delete(row) => s.(rows := s.rows - {row})
    case Check(r) => s.(raises := s.raises[r := if Ahead(s) then Finished else WantsLock])
    case Lock(r) => s.(raises := s.raises[r := Locked])
    case Read(r, m) => s.(raises := s.raises[r := if Ahead(s) then Settled else Decided(m)])
    case Set(r) => s.(last := s.raises[r].m, called := true, raises := s.raises[r := Settled])
    case Finish(r) => s.(raises := s.raises[r := Finished])
    case Abort(r) => s.(raises := s.raises[r := Aborted])
  }

  ghost predicate Runs(s: State, es: seq<Event>, t: State)
    decreases |es|
  {
    if es == [] then s == t else Can(s, es[0]) && Runs(Do(s, es[0]), es[1..], t)
  }

  // ---------------------------------------------------------------- what every step keeps

  /** What a request tells its caller, unless it is rolled back. */
  function Answer(p: Phase): Option<int> {
    match p
    case Holding(n) => Some(n)
    case Known(n, _) => Some(n)
    case Committed(n) => Some(n)
    case _ => None
  }

  ghost predicate RowsOk(s: State) {
    && s.rows.Keys <= s.used && s.given.Keys <= s.used
    && (forall r :: r in s.rows ==>
          (s.rows[r].Some? <==> r in s.given) && (s.rows[r].Some? ==> s.rows[r].value == s.given[r]))
  }

  ghost predicate SequenceOk(s: State) {
    && (forall i :: 0 <= i < |s.handed| ==> s.handed[i] < Next(s))
    && (forall i, j :: 0 <= i < j < |s.handed| ==> s.handed[i] < s.handed[j])
  }

  ghost predicate RequestOk(s: State, q: int)
    requires q in s.requests
  {
    var row, p := s.requests[q].row, s.requests[q].phase;
    && row in s.used
    && (p.Holding? ==> p.n in s.handed && row in s.rows && s.rows[row].None?)
    && (p.Holding? ==>
          forall o :: o in s.requests && o != q && s.requests[o].row == row ==> !s.requests[o].phase.Holding?)
    && (p.Known? || p.Committed? ==> row in s.given && s.given[row] == p.n)
    && (p.Rereading? && row in s.rows ==> s.rows[row].Some?)
  }

  ghost predicate RaiseOk(s: State, r: int)
    requires r in s.raises
  {
    && (KeepsWritersOff(s.raises[r]) ==>
          && (forall q :: q in s.requests ==> !WritesTable(s.requests[q].phase))
          && (forall o :: o in s.raises && o != r ==> !KeepsWritersOff(s.raises[o])))
    && (s.raises[r].Decided? ==> s.raises[r].m >= Next(s) && IsMax(s, s.raises[r].m))
    && (s.raises[r].Settled? ==> Ahead(s))
  }

  ghost predicate Inv(s: State) {
    && RowsOk(s) && SequenceOk(s)
    && (forall q :: q in s.requests ==> RequestOk(s, q))
    && (forall r :: r in s.raises ==> RaiseOk(s, r))
  }

  /** Any table, as a dump may leave it, with nobody at work. */
  ghost predicate Init(s: State) {
    && s.requests == map[] && s.raises == map[] && s.handed == []
    && s.used == s.rows.Keys && s.given.Keys <= s.used
    && forall r :: r in s.rows ==>
       (s.rows[r].Some? <==> r in s.given) && (s.rows[r].Some? ==> s.rows[r].value == s.given[r])
  }

  lemma {:induction false} NotAheadMax(s: State)
    requires !Ahead(s)
    ensures exists m :: IsMax(s, m)
  {
    var r :| r in s.rows && s.rows[r].Some? && s.rows[r].value >= Next(s);
    MaxExists(s, s.rows.Keys, r);
  }

  lemma {:induction false} MaxExists(s: State, keys: set<int>, r: int)
    requires keys <= s.rows.Keys && r in keys && s.rows[r].Some?
    ensures exists m :: m in keys && s.rows[m].Some? &&
                        forall x :: x in keys && s.rows[x].Some? ==> s.rows[x].value <= s.rows[m].value
    ensures keys == s.rows.Keys ==> exists m :: IsMax(s, m)
    decreases |keys|
  {
    var best := r;
    if x :| x in keys && x != r {
      MaxExists(s, keys - {x}, r);
      var m :| m in keys - {x} && s.rows[m].Some? &&
               forall y :: y in keys - {x} && s.rows[y].Some? ==> s.rows[y].value <= s.rows[m].value;
      best := if s.rows[x].Some? && s.rows[x].value > s.rows[m].value then x else m;
    }
    assert forall y :: y in keys && s.rows[y].Some? ==> s.rows[y].value <= s.rows[best].value;
    assert keys == s.rows.Keys ==> IsMax(s, s.rows[best].value);
  }

  lemma {:induction false} BeginStep(s: State, q: int, row: int)
    requires Inv(s) && Can(s, Begin(q, row))
    ensures Inv(Do(s, Begin(q, row))) && Next(Do(s, Begin(q, row))) == Next(s)
  {
  }

  lemma {:induction false} RequestStep(s: State, e: Event)
    requires Inv(s) && Can(s, e) && (e.StartUpdate? || e.Miss? || e.Reread? || e.Rollback?)
    ensures Inv(Do(s, e)) && Next(Do(s, e)) == Next(s)
  {
  }

  lemma {:induction false} DrawStep(s: State, e: Event)
    requires Inv(s) && Can(s, e) && (e.Burn? || e.Take?)
    ensures Inv(Do(s, e)) && Next(Do(s, e)) == Next(s) + 1
  {
  }

  lemma {:induction false} CommitRows(s: State, q: int)
    requires Inv(s) && Can(s, Commit(q))
    ensures RowsOk(Do(s, Commit(q))) && SequenceOk(Do(s, Commit(q)))
  {
    assert RequestOk(s, q);
  }

  lemma {:induction false} CommitRequest(s: State, q: int, p: int)
    requires Inv(s) && Can(s, Commit(q)) && p in s.requests
    ensures RequestOk(Do(s, Commit(q)), p)
  {
    assert RequestOk(s, q) && RequestOk(s, p);
  }

  lemma {:induction false} CommitRaise(s: State, q: int, r: int)
    requires Inv(s) && Can(s, Commit(q)) && r in s.raises
    ensures RaiseOk(Do(s, Commit(q)), r)
  {
    assert RequestOk(s, q) && RaiseOk(s, r);
  }

  lemma {:induction false} CommitStep(s: State, q: int)
    requires Inv(s) && Can(s, Commit(q))
    ensures Inv(Do(s, Commit(q)))
  {
    hide RowsOk, SequenceOk, RequestOk, RaiseOk;
    var t := Do(s, Commit(q));
    CommitRows(s, q);
    forall p | p in t.requests ensures RequestOk(t, p) {
      CommitRequest(s, q, p);
    }
    forall r | r in t.raises ensures RaiseOk(t, r) {
      CommitRaise(s, q, r);
    }
  }

  lemma {:induction false} RowStep(s: State, e: Event)
    requires Inv(s) && Can(s, e) && (e.Insert? || e.Delete?)
    ensures Inv(Do(s, e))
  {
  }

  lemma {:induction false} RaiseStartStep(s: State, e: Event)
    requires Inv(s) && Can(s, e) && (e.Check? || e.Lock?)
    ensures Inv(Do(s, e)) && Next(Do(s, e)) == Next(s)
  {
  }

  lemma {:induction false} RaiseReadStep(s: State, r: int, m: int)
    requires Inv(s) && Can(s, Read(r, m))
    ensures Inv(Do(s, Read(r, m))) && Next(Do(s, Read(r, m))) == Next(s)
  {
    if !Ahead(s) {
      NotAheadMax(s);
    }
  }

  lemma {:induction false} RaiseSetStep(s: State, r: int)
    requires Inv(s) && Can(s, Set(r))
    ensures Inv(Do(s, Set(r))) && Next(s) <= Next(Do(s, Set(r)))
  {
  }

  lemma {:induction false} RaiseEndStep(s: State, e: Event)
    requires Inv(s) && Can(s, e) && (e.Finish? || e.Abort?)
    ensures Inv(Do(s, e)) && Next(Do(s, e)) == Next(s)
  {
  }

  lemma {:induction false} InvStep(s: State, e: Event)
    requires Inv(s) && Can(s, e)
    ensures Inv(Do(s, e))
    ensures Next(s) <= Next(Do(s, e))
  {
    if e.Burn? || e.Take? {
      DrawStep(s, e);
    } else if e.Commit? {
      CommitStep(s, e.q);
    } else if e.Insert? || e.Delete? {
      RowStep(s, e);
    } else if e.Begin? {
      BeginStep(s, e.q, e.row);
    } else if e.StartUpdate? || e.Miss? || e.Reread? || e.Rollback? {
      RequestStep(s, e);
    } else if e.Check? || e.Lock? {
      RaiseStartStep(s, e);
    } else if e.Read? {
      RaiseReadStep(s, e.r, e.m);
    } else if e.Set? {
      RaiseSetStep(s, e.r);
    } else {
      RaiseEndStep(s, e);
    }
  }
}
