/** Rows that each name at most one parent row: upward chains, cycles, and what changing one parent does to them. */
module Forest {
  import opened Options
  import opened Sets

  type Id = int

  /** The parent of each row; a parent may name a row that is not there. */
  type Links = map<Id, Option<Id>>

  /** The n-th ancestor of `a`, if the chain gets that far. */
  function Up(g: Links, a: Id, n: nat): Option<Id>
    decreases n
  {
    if n == 0 then Some(a)
    else if a in g && g[a].Some? then Up(g, g[a].value, n - 1)
    else None
  }

  /** `b` is `a` or one of its ancestors. */
  ghost predicate OnChain(g: Links, a: Id, b: Id) {
    exists n: nat :: Up(g, a, n) == Some(b)
  }

  ghost predicate Acyclic(g: Links) {
    forall a: Id, n: nat :: n > 0 ==> Up(g, a, n) != Some(a)
  }

  /** The row is on no circle. */
  ghost predicate OffCircle(g: Links, a: Id) {
    forall n: nat :: n > 0 ==> Up(g, a, n) != Some(a)
  }

  lemma {:induction false} UpAdd(g: Links, a: Id, m: nat, n: nat)
    ensures Up(g, a, m + n) == match Up(g, a, m) case None => None case Some(b) => Up(g, b, n)
    decreases m
  {
    if m > 0 && a in g && g[a].Some? {
      UpAdd(g, g[a].value, m - 1, n);
    }
  }

  /** The chain one step further. */
  lemma {:induction false} UpNext(g: Links, a: Id, n: nat)
    ensures Up(g, a, n + 1) == match Up(g, a, n) case None => None case Some(b) => if b in g then g[b] else None
  {
    UpAdd(g, a, n, 1);
    match Up(g, a, n)
    case None =>
    case Some(b) =>
      if b in g && g[b].Some? {
        assert Up(g, b, 1) == Up(g, g[b].value, 0);
      }
  }

  /** Every link of `h` is a link of `g`. */
  predicate Fewer(h: Links, g: Links) {
    forall a :: a in h && h[a].Some? ==> a in g && g[a] == h[a]
  }

  lemma {:induction false} FewerUp(h: Links, g: Links, a: Id, n: nat)
    requires Fewer(h, g) && Up(h, a, n).Some?
    ensures Up(g, a, n) == Up(h, a, n)
    decreases n
  {
    if n > 0 {
      FewerUp(h, g, h[a].value, n - 1);
    }
  }

  /** Taking links away makes no cycle. */
  lemma {:induction false} FewerAcyclic(h: Links, g: Links)
    requires Fewer(h, g) && Acyclic(g)
    ensures Acyclic(h)
  {
    forall a: Id, n: nat | n > 0 && Up(h, a, n) == Some(a) ensures false {
      FewerUp(h, g, a, n);
    }
  }

  /** Two graphs that differ only in the parent of `d` agree on chains that have not met `d`. */
  lemma {:induction false} SameBefore(g: Links, h: Links, d: Id, a: Id, n: nat)
    requires forall x :: x != d ==> (x in g <==> x in h) && (x in g ==> g[x] == h[x])
    requires forall k: nat :: k < n ==> Up(g, a, k) != Some(d)
    ensures Up(h, a, n) == Up(g, a, n)
    decreases n
  {
    if n > 0 {
      assert Up(g, a, 0) != Some(d);
      if a in g && g[a].Some? {
        forall k: nat | k < n - 1 ensures Up(g, g[a].value, k) != Some(d) {
          assert Up(g, a, k + 1) == Up(g, g[a].value, k);
        }
        SameBefore(g, h, d, g[a].value, n - 1);
      }
    }
  }

  /** The first place where the chain of `a` meets `d`. */
  lemma {:induction false} FirstMeeting(g: Links, a: Id, d: Id, n: nat) returns (m: nat)
    requires Up(g, a, n) == Some(d)
    ensures m <= n && Up(g, a, m) == Some(d) && forall k: nat :: k < m ==> Up(g, a, k) != Some(d)
  {
    m := 0;
    while Up(g, a, m) != Some(d)
      invariant m <= n && forall k: nat :: k < m ==> Up(g, a, k) != Some(d)
      decreases n - m
    {
      m := m + 1;
    }
  }

  /** Giving `d` the parent `p` keeps a forest exactly when `d` is not on the chain of `p`. */
  lemma {:induction false} LinkAcyclic(g: Links, d: Id, p: Id)
    requires Acyclic(g)
    ensures Acyclic(g[d := Some(p)]) <==> !OnChain(g, p, d)
  {
    var h := g[d := Some(p)];
    if OnChain(g, p, d) {
      var n: nat :| Up(g, p, n) == Some(d);
      var m := FirstMeeting(g, p, d, n);
      SameBefore(g, h, d, p, m);
      assert Up(h, d, m + 1) == Some(d);
    } else {
      forall a: Id, n: nat | n > 0 && Up(h, a, n) == Some(a) ensures false {
        NewCycle(g, d, p, a, n);
      }
    }
  }

  lemma {:induction false} NewCycle(g: Links, d: Id, p: Id, a: Id, n: nat)
    requires Acyclic(g) && n > 0 && Up(g[d := Some(p)], a, n) == Some(a)
    ensures OnChain(g, p, d)
  {
    var h := g[d := Some(p)];
    if k: nat :| k < n && Up(h, a, k) == Some(d) {
      UpAdd(h, a, n, k);
      UpAdd(h, a, k, n);
      assert Up(h, d, n) == Up(h, p, n - 1) == Some(d);
      var m := FirstMeeting(h, p, d, n - 1);
      SameBefore(h, g, d, p, m);
    } else {
      SameBefore(h, g, d, a, n);
      assert Up(g, a, n) == Some(a);
    }
  }

  // ---------------------------------------------------------------- chains that end

  ghost predicate Ends(g: Links, a: Id) {
    exists n: nat :: Up(g, a, n) == None
  }

  lemma {:induction false} StaysEnded(g: Links, a: Id, m: nat, n: nat)
    requires m <= n && Up(g, a, m) == None
    ensures Up(g, a, n) == None
  {
    UpAdd(g, a, m, n - m);
  }

  /** A chain that comes back to a row never ends. */
  lemma {:induction false} RepeatNeverEnds(g: Links, a: Id, i: nat, j: nat, n: nat)
    requires i < j && Up(g, a, i) == Up(g, a, j) && Up(g, a, j).Some?
    ensures Up(g, a, n).Some?
    decreases n
  {
    if n < j {
      if Up(g, a, n).None? {
        StaysEnded(g, a, n, j);
      }
    } else {
      RepeatNeverEnds(g, a, i, j, n - (j - i));
      UpAdd(g, a, i, n - j);
      UpAdd(g, a, j, n - j);
    }
  }

  /** The rows the chain of `a` meets in its first n steps. */
  ghost function Met(g: Links, a: Id, n: nat): set<Id> {
    if n == 0 then {} else Met(g, a, n - 1) + (match Up(g, a, n - 1) case None => {} case Some(b) => {b})
  }

  lemma {:induction false} MetIsUp(g: Links, a: Id, n: nat, x: Id)
    requires x in Met(g, a, n)
    ensures exists k: nat :: k < n && Up(g, a, k) == Some(x)
  {
    if Up(g, a, n - 1) != Some(x) {
      MetIsUp(g, a, n - 1, x);
    }
  }

  ghost predicate NoRepeat(g: Links, a: Id, n: nat) {
    forall i: nat, j: nat :: i < j < n ==> Up(g, a, i) != Up(g, a, j)
  }

  lemma {:induction false} MetCount(g: Links, a: Id, n: nat)
    requires Up(g, a, n).Some? && NoRepeat(g, a, n)
    ensures |Met(g, a, n)| == n && Met(g, a, n) <= g.Keys
  {
    if n > 0 {
      if Up(g, a, n - 1).None? {
        StaysEnded(g, a, n - 1, n);
      }
      MetCount(g, a, n - 1);
      UpNext(g, a, n - 1);
      var b := Up(g, a, n - 1).value;
      if b in Met(g, a, n - 1) {
        MetIsUp(g, a, n - 1, b);
      }
    }
  }

  /** A chain that meets no row twice ends within as many steps as there are rows, and one more. */
  lemma {:induction false} ShortChain(g: Links, a: Id)
    requires NoRepeat(g, a, |g.Keys| + 1)
    ensures Up(g, a, |g.Keys| + 1) == None
  {
    var n := |g.Keys| + 1;
    if Up(g, a, n).Some? {
      MetCount(g, a, n);
      SubsetSize(Met(g, a, n), g.Keys);
    }
  }

  lemma {:induction false} EndsSoon(g: Links, a: Id)
    requires Ends(g, a)
    ensures Up(g, a, |g.Keys| + 1) == None
  {
    var e: nat :| Up(g, a, e) == None;
    var n := |g.Keys| + 1;
    if Up(g, a, n).Some? {
      forall i: nat, j: nat | i < j < n ensures Up(g, a, i) != Up(g, a, j) {
        if Up(g, a, j).None? {
          StaysEnded(g, a, j, n);
        } else if Up(g, a, i) == Up(g, a, j) {
          RepeatNeverEnds(g, a, i, j, e);
        }
      }
      ShortChain(g, a);
    }
  }

  /** In a forest every chain ends. */
  lemma {:induction false} AcyclicEnds(g: Links, a: Id)
    requires Acyclic(g)
    ensures Ends(g, a)
  {
    var n := |g.Keys| + 1;
    if Up(g, a, n).Some? {
      forall i: nat, j: nat | i < j < n ensures Up(g, a, i) != Up(g, a, j) {
        if Up(g, a, j).None? {
          StaysEnded(g, a, j, n);
        }
        UpAdd(g, a, i, j - i);
      }
      ShortChain(g, a);
    }
  }

  // ---------------------------------------------------------------- rows off every circle

  lemma {:induction false} ChildOffCircle(g: Links, f: Id, c: Id)
    requires OffCircle(g, f) && c in g && g[c] == Some(f)
    ensures OffCircle(g, c)
  {
    forall n: nat | n > 0 ensures Up(g, c, n) != Some(c) {
      UpNext(g, f, n - 1);
      assert Up(g, c, n) == Up(g, f, n - 1);
    }
  }

  lemma {:induction false} RootOffCircle(g: Links, a: Id)
    requires a in g && g[a] == None
    ensures OffCircle(g, a)
  {
  }

  /** A row hung below a chain that ends and does not meet it is on no circle, whatever circles there are elsewhere. */
  lemma {:induction false} HungOffCircle(g: Links, a: Id, p: Id)
    requires Ends(g, p) && !OnChain(g, p, a)
    ensures OffCircle(g[a := Some(p)], a)
  {
    var h := g[a := Some(p)];
    forall n: nat | n > 0 ensures Up(h, a, n) != Some(a) {
      assert Up(h, a, n) == Up(h, p, n - 1);
      SameBefore(g, h, a, p, n - 1);
    }
  }

  // ---------------------------------------------------------------- a walk that looks for a row

  /** A walk up from `a` in search of `d` stops after n steps. */
  ghost predicate Stops(g: Links, a: Id, d: Id, n: nat) {
    Up(g, a, n) == None || Up(g, a, n) == Some(d)
  }

  ghost predicate WalkEnds(g: Links, start: Option<Id>, d: Id) {
    start.Some? ==> exists n: nat :: Stops(g, start.value, d, n)
  }

  /** Before a chain first meets a row it meets no row twice. */
  lemma {:induction false} NoRepeatBefore(g: Links, a: Id, d: Id, m: nat)
    requires Up(g, a, m) == Some(d) && forall k: nat :: k < m ==> Up(g, a, k) != Some(d)
    ensures NoRepeat(g, a, m)
  {
    forall i: nat, j: nat | i < j < m ensures Up(g, a, i) != Up(g, a, j) {
      if Up(g, a, j).None? {
        StaysEnded(g, a, j, m);
      } else if Up(g, a, i) == Up(g, a, j) {
        UpAdd(g, a, i, m - j);
        UpAdd(g, a, j, m - j);
        assert i + (m - j) < m;
      }
    }
  }

  /** On any table, with circles or without, the walk ends exactly if the chain ends or meets the row - and then within
      as many steps as there are rows, and one more. */
  lemma {:induction false} WalkEndsExactly(g: Links, a: Id, d: Id)
    ensures WalkEnds(g, Some(a), d) <==> Ends(g, a) || OnChain(g, a, d)
    ensures WalkEnds(g, Some(a), d) <==> exists n: nat :: n <= |g.Keys| + 1 && Stops(g, a, d, n)
  {
    if Ends(g, a) {
      EndsSoon(g, a);
      assert Stops(g, a, d, |g.Keys| + 1);
    } else if OnChain(g, a, d) {
      var n: nat :| Up(g, a, n) == Some(d);
      var m := FirstMeeting(g, a, d, n);
      NoRepeatBefore(g, a, d, m);
      MetCount(g, a, m);
      SubsetSize(Met(g, a, m), g.Keys);
      assert Stops(g, a, d, m);
    }
  }
}
