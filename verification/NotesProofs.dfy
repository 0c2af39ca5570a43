/** What the note operations keep: the forest over whole runs, and a listing that shows every note once. */
module NotesProofs {
  import opened Forest
  import opened NoteOrder
  import opened Notes
  import opened Options
  import Orders = PlaceOrders
  import opened Sequences

  // ---------------------------------------------------------------- the forest over whole runs

  datatype Op =
    | Create(id: int, parent: Option<int>)
    | Move(d: int, target: Target)
    | Remove(d: int, who: set<int>)
    | Delete(d: int, who: set<int>)
    | BulkDelete(d: int)
    | Restore(d: int)
    | Purge(d: int)
    | Convert(d: int, parent: Option<int>)

  /** One operation that succeeded. New ids are fresh; the walk of a move has found no circle; purging a row clears the
      links to it. Orders, titles and who asked do not matter here. */
  ghost predicate Step(docs: Docs, op: Op, after: Docs) {
    match op
    case Create(id, parent) =>
      id !in docs && (forall x :: x in docs ==> docs[x].parent != Some(id)) && parent != Some(id)
      && Parents(after) == Parents(docs)[id := parent]
    case Move(d, target) =>
      d in docs && (target.Under? ==> !OnChain(Parents(docs), target.p, d))
      && Parents(after) == (match target
                             case Keep => Parents(docs)
                             case Top => Parents(docs)[d := None]
                             case Under(p) => Parents(docs)[d := Some(p)])
    case Remove(d, who) => d in docs && after == Removed(docs, d, who)
    case Delete(d, who) => d in docs && after == Trashed(docs, d, who)
    case BulkDelete(d) => d in docs && after == Trashed(docs, d, docs.Keys)
    case Restore(d) => d in docs && after == docs[d := docs[d].(deleted := false)]
    case Purge(d) =>
      after == map x | x in docs && x != d :: if docs[x].parent == Some(d) then docs[x].(parent := None) else docs[x]
    case Convert(d, parent) => d in docs && exists order :: after == Converted(docs, d, parent, order)
  }

  /** A move that the method lets through - with or without a position - is such a step. */
  lemma {:induction false} MoveIsStep(docs: Docs, d: int, target: Target, wanted: seq<int>, orders: seq<int>)
    requires d in docs && (target.Under? ==> !OnChain(Parents(docs), target.p, d))
    requires |wanted| == |orders| && Distinct(wanted) && forall i :: 0 <= i < |wanted| ==> wanted[i] in docs
    ensures Step(docs, Move(d, target), WithOrders(WithParent(docs, d, NewParent(docs, d, target)), wanted, orders))
  {
    var moved := WithParent(docs, d, NewParent(docs, d, target));
    var after := WithOrders(moved, wanted, orders);
    WithOrdersAt(moved, wanted, orders, d);
    forall x | x in moved ensures x in after && after[x].parent == moved[x].parent {
      WithOrdersAt(moved, wanted, orders, x);
      if x in wanted {
        var i :| 0 <= i < |wanted| && wanted[i] == x;
      }
    }
    assert Parents(after) == Parents(moved);
    assert target.Keep? ==> Parents(moved) == Parents(docs);
  }

  /** The one operation that does not look for a circle. */
  ghost predicate ConvertsUnderItself(docs: Docs, op: Op) {
    op.Convert? && op.parent.Some? && OnChain(Parents(docs), op.parent.value, op.d)
  }

  lemma {:induction false} CreateAcyclic(g: Links, id: int, parent: Option<int>)
    requires Acyclic(g) && id !in g && (forall x :: x in g ==> g[x] != Some(id)) && parent != Some(id)
    ensures Acyclic(g[id := parent])
  {
    match parent
    case None =>
      FewerAcyclic(g[id := None], g);
    case Some(p) =>
      if OnChain(g, p, id) {
        var n: nat :| Up(g, p, n) == Some(id);
        UpNext(g, p, n - 1);
        assert false;
      }
      LinkAcyclic(g, id, p);
  }

  /** Every operation keeps the forest, except that a conversion keeps it exactly when the document is not on the
      chain above the chosen parent. */
  lemma {:induction false} StepAcyclic(docs: Docs, op: Op, after: Docs)
    requires Acyclic(Parents(docs)) && Step(docs, op, after)
    ensures Acyclic(Parents(after)) <==> !ConvertsUnderItself(docs, op)
  {
    var g, h := Parents(docs), Parents(after);
    match op
    case Create(id, parent) => CreateAcyclic(g, id, parent);
    case Move(d, target) =>
      if target.Under? {
        LinkAcyclic(g, d, target.p);
      } else {
        FewerAcyclic(h, g);
      }
    case Convert(d, parent) =>
      assert h == g[d := parent];
      if parent.Some? {
        LinkAcyclic(g, d, parent.value);
      } else {
        FewerAcyclic(h, g);
      }
    case _ => FewerAcyclic(h, g);
  }

  ghost predicate Run(states: seq<Docs>, ops: seq<Op>) {
    |states| == |ops| + 1 && forall i :: 0 <= i < |ops| ==> Step(states[i], ops[i], states[i + 1])
  }

  /** In every run without such a conversion the parent links are a forest at every moment - so the walk of a move ends
      whenever it is made. */
  lemma {:induction false} RunAcyclic(states: seq<Docs>, ops: seq<Op>, k: nat)
    requires Run(states, ops) && Acyclic(Parents(states[0])) && k < |states|
    requires forall i :: 0 <= i < |ops| ==> !ConvertsUnderItself(states[i], ops[i])
    ensures Acyclic(Parents(states[k]))
    ensures forall a :: Ends(Parents(states[k]), a)
  {
    if k > 0 {
      RunAcyclic(states, ops, k - 1);
      StepAcyclic(states[k - 1], ops[k - 1], states[k]);
    }
    forall a ensures Ends(Parents(states[k]), a) {
      AcyclicEnds(Parents(states[k]), a);
    }
  }

  /** Four ordinary requests that end in a circle: a note, a note of somebody else below it, the first one no longer a
      note - which leaves the other's link - and the first one made a note again, below the second. */
  lemma {:induction false} ConvertMakesCircle()
    ensures exists states, ops :: Run(states, ops) && |ops| == 4 && states[0] == map[] && !Acyclic(Parents(states[4]))
  {
    var one, two := Doc(true, false, None, 0, 0, true), Doc(true, false, Some(1), 0, 0, true);
    var s1: Docs := map[1 := one];
    var s2: Docs := map[1 := one, 2 := two];
    var s3: Docs := map[1 := one.(isNote := false), 2 := two];
    var s4: Docs := map[1 := one.(parent := Some(2)), 2 := two];
    var states := [map[], s1, s2, s3, s4];
    var ops := [Create(1, None), Create(2, Some(1)), Remove(1, {1}), Convert(1, Some(2))];
    assert Step(map[], ops[0], s1);
    assert Parents(s2) == Parents(s1)[2 := Some(1)];
    assert Step(s1, ops[1], s2);
    assert Step(s2, ops[2], s3);
    assert s4 == Converted(s3, 1, Some(2), 0);
    assert Step(s3, ops[3], s4);
    assert Up(Parents(s4), 1, 2) == Up(Parents(s4), 2, 1) == Up(Parents(s4), 1, 0) == Some(1);
    assert Run(states, ops);
  }

  // ---------------------------------------------------------------- the listing shows every note once

  /** The parents as the listing shows them. */
  function ShownLinks(docs: Docs, visible: set<int>): Links
    requires visible <= docs.Keys
  {
    map d | d in visible :: ShownParent(docs, visible, d)
  }

  function ShownTree(docs: Docs, u: User): Links {
    ShownLinks(docs, Visible(docs, u))
  }

  /** The tree as it is sent: each note followed by what hangs below it, to a depth of `fuel`. */
  function Flatten(children: map<int, seq<int>>, ids: seq<int>, fuel: nat): seq<int>
    decreases fuel, |ids|
  {
    if ids == [] || fuel == 0 then [] else
    var below := if ids[0] in children then Flatten(children, children[ids[0]], fuel - 1) else [];
    [ids[0]] + below + Flatten(children, ids[1..], fuel)
  }

  /** How often the chain of `x` passes one of `ids` in its first n steps. */
  ghost function Hits(g: Links, x: int, ids: seq<int>, n: nat): nat {
    if n == 0 then 0 else
    Hits(g, x, ids, n - 1) + (if Up(g, x, n - 1).Some? && Up(g, x, n - 1).value in ids then 1 else 0)
  }

  lemma {:induction false} HitsSplit(g: Links, x: int, ids: seq<int>, n: nat)
    requires ids != [] && Distinct(ids)
    ensures Hits(g, x, ids, n) == Hits(g, x, [ids[0]], n) + Hits(g, x, ids[1..], n)
  {
    if n > 0 {
      HitsSplit(g, x, ids, n - 1);
      assert forall y :: y in ids <==> y == ids[0] || y in ids[1..];
    }
  }

  /** `kids` are the rows whose parent is `p`, each once. */
  ghost predicate KidsOf(g: Links, p: int, kids: seq<int>) {
    && Distinct(kids)
    && (forall c :: c in kids ==> c in g && g[c] == Some(p))
    && forall c :: c in g && g[c] == Some(p) ==> c in kids
  }

  ghost predicate AllChildren(g: Links, children: map<int, seq<int>>) {
    && children.Keys == g.Keys
    && (forall p :: p in children ==> KidsOf(g, p, children[p]))
    && forall c :: c in g && g[c].Some? ==> g[c].value in children && c in children[g[c].value]
  }

  lemma {:induction false} HitsBelow(g: Links, children: map<int, seq<int>>, x: int, a: int, n: nat)
    requires AllChildren(g, children) && a in children
    ensures Hits(g, x, [a], n + 1) == (if x == a then 1 else 0) + Hits(g, x, children[a], n)
  {
    if n == 0 {
      assert Hits(g, x, [a], 1) == Hits(g, x, [a], 0) + (if x == a then 1 else 0);
    } else {
      HitsBelow(g, children, x, a, n - 1);
      UpNext(g, x, n - 1);
    }
  }

  lemma {:induction false} FlattenCount(g: Links, children: map<int, seq<int>>, ids: seq<int>, fuel: nat, x: int)
    requires AllChildren(g, children) && Distinct(ids) && forall i :: 0 <= i < |ids| ==> ids[i] in children
    ensures multiset(Flatten(children, ids, fuel))[x] == Hits(g, x, ids, fuel)
    decreases fuel, |ids|
  {
    hide Hits, AllChildren, Flatten, Up;
    if fuel == 0 || ids == [] {
      FlattenNone(children, ids, fuel);
      HitsNone(g, x, ids, fuel);
    } else {
      var a, below, rest := ids[0], Flatten(children, children[ids[0]], fuel - 1), Flatten(children, ids[1..], fuel);
      FlattenStep(children, ids, fuel);
      ChildrenInside(g, children, a);
      FlattenCount(g, children, children[a], fuel - 1, x);
      FlattenCount(g, children, ids[1..], fuel, x);
      HitsSplit(g, x, ids, fuel);
      HitsBelow(g, children, x, a, fuel - 1);
      CountThree(a, below, rest, x);
    }
  }

  lemma {:induction false} FlattenNone(children: map<int, seq<int>>, ids: seq<int>, fuel: nat)
    requires ids == [] || fuel == 0
    ensures Flatten(children, ids, fuel) == []
  {
  }

  lemma {:induction false} HitsNone(g: Links, x: int, ids: seq<int>, n: nat)
    requires ids == [] || n == 0
    ensures Hits(g, x, ids, n) == 0
  {
    if n > 0 {
      HitsNone(g, x, ids, n - 1);
    }
  }

  lemma {:induction false} FlattenStep(children: map<int, seq<int>>, ids: seq<int>, fuel: nat)
    requires ids != [] && fuel > 0 && ids[0] in children
    ensures Flatten(children, ids, fuel) ==
            [ids[0]] + Flatten(children, children[ids[0]], fuel - 1) + Flatten(children, ids[1..], fuel)
  {
  }

  lemma {:induction false} ChildrenInside(g: Links, children: map<int, seq<int>>, a: int)
    requires AllChildren(g, children) && a in children
    ensures Distinct(children[a]) && forall i :: 0 <= i < |children[a]| ==> children[a][i] in children
  {
    forall i | 0 <= i < |children[a]| ensures children[a][i] in children {
      assert children[a][i] in children[a];
    }
  }

  lemma {:induction false} CountThree(a: int, b: seq<int>, c: seq<int>, x: int)
    ensures multiset([a] + b + c)[x] == (if x == a then 1 else 0) + multiset(b)[x] + multiset(c)[x]
  {
    assert multiset([a] + b + c) == multiset([a]) + multiset(b) + multiset(c);
  }

  /** `roots` are the rows of `g` without a parent, and the other rows' parents are rows. */
  ghost predicate RootsOf(g: Links, roots: seq<int>) {
    && (forall a :: a in roots ==> a in g && g[a] == None)
    && (forall a :: a in g && g[a] == None ==> a in roots)
    && (forall a :: a in g && g[a].Some? ==> g[a].value in g)
  }

  lemma {:induction false} HitsRoots(g: Links, roots: seq<int>, x: int, n: nat)
    requires x in g && RootsOf(g, roots)
    ensures Hits(g, x, roots, n) == if Up(g, x, n) == None then 1 else 0
    ensures Up(g, x, n).Some? ==> Up(g, x, n).value in g
  {
    if n > 0 {
      HitsRoots(g, roots, x, n - 1);
      UpNext(g, x, n - 1);
    }
  }

  /** `roots` and `children` are what the listing method returns for `rows`. */
  ghost predicate ListedAs(docs: Docs, u: User, rows: seq<int>, roots: seq<int>, children: map<int, seq<int>>) {
    && IsListing(docs, u, rows)
    && roots == Below(docs, Visible(docs, u), rows, None) && children.Keys == Visible(docs, u)
    && forall p :: p in children ==> children[p] == Below(docs, Visible(docs, u), rows, Some(p))
  }

  lemma {:induction false} ListedRoots(docs: Docs, u: User, rows: seq<int>, roots: seq<int>,
                                       children: map<int, seq<int>>)
    requires ListedAs(docs, u, rows, roots, children)
    ensures var g := ShownTree(docs, u); g.Keys == children.Keys && Distinct(roots) && RootsOf(g, roots)
  {
    var visible := Visible(docs, u);
    var g := ShownLinks(docs, visible);
    BelowSorted(docs, visible, rows, None);
    forall a ensures a in Below(docs, visible, rows, None) <==> a in g && g[a] == None {
      BelowMembers(docs, visible, rows, None, a);
    }
  }

  lemma {:induction false} ListedChildren(docs: Docs, u: User, rows: seq<int>, roots: seq<int>,
                                          children: map<int, seq<int>>, p: int)
    requires ListedAs(docs, u, rows, roots, children) && p in children
    ensures KidsOf(ShownTree(docs, u), p, children[p])
  {
    var visible := Visible(docs, u);
    BelowSorted(docs, visible, rows, Some(p));
    forall c ensures c in Below(docs, visible, rows, Some(p)) <==>
      c in visible && ShownParent(docs, visible, c) == Some(p) {
      BelowMembers(docs, visible, rows, Some(p), c);
    }
  }

  lemma {:induction false} AllKids(g: Links, roots: seq<int>, children: map<int, seq<int>>)
    requires children.Keys == g.Keys && RootsOf(g, roots) && forall p :: p in children ==> KidsOf(g, p, children[p])
    ensures AllChildren(g, children)
  {
    forall c | c in g && g[c].Some? ensures g[c].value in children && c in children[g[c].value] {
      assert KidsOf(g, g[c].value, children[g[c].value]);
    }
  }

  /** What the listing method returns is the tree of the shown links. */
  lemma {:induction false} ListingTree(docs: Docs, u: User, rows: seq<int>, roots: seq<int>,
                                       children: map<int, seq<int>>)
    requires ListedAs(docs, u, rows, roots, children)
    ensures var g := ShownTree(docs, u);
            AllChildren(g, children) && Distinct(roots) && RootsOf(g, roots) && g.Keys == children.Keys
  {
    hide ListedAs, ShownTree, KidsOf, RootsOf, AllChildren, Distinct;
    ListedRoots(docs, u, rows, roots, children);
    forall p | p in children ensures KidsOf(ShownTree(docs, u), p, children[p]) {
      ListedChildren(docs, u, rows, roots, children, p);
    }
    AllKids(ShownTree(docs, u), roots, children);
  }

  /** The listing shows a readable note once if its chain of visible parents ends, and not at all if it runs in a
      circle. `fuel` only says that the tree is sent to its full depth. */
  lemma {:induction false} ListedOnce(docs: Docs, u: User, rows: seq<int>, roots: seq<int>,
                                      children: map<int, seq<int>>, fuel: nat, x: int)
    requires ListedAs(docs, u, rows, roots, children) && x in Visible(docs, u) && fuel > |Visible(docs, u)|
    ensures multiset(Flatten(children, roots, fuel))[x] == if Ends(ShownTree(docs, u), x) then 1 else 0
  {
    hide Flatten, Hits, ListedAs, AllChildren, ShownParent;
    var g := ShownTree(docs, u);
    ListingTree(docs, u, rows, roots, children);
    forall i | 0 <= i < |roots| ensures roots[i] in children {
      var a := roots[i];
      assert a in roots;
    }
    FlattenCount(g, children, roots, fuel, x);
    HitsRoots(g, roots, x, fuel);
    if Ends(g, x) {
      EndsSoon(g, x);
      assert g.Keys == Visible(docs, u);
      StaysEnded(g, x, |g.Keys| + 1, fuel);
    }
  }

  /** In a forest, so in every run without a conversion into a circle, every readable note is listed exactly once. */
  lemma {:induction false} ForestListedOnce(docs: Docs, u: User, x: int)
    requires Acyclic(Parents(docs))
    ensures Ends(ShownTree(docs, u), x)
  {
    FewerAcyclic(ShownTree(docs, u), Parents(docs));
    AcyclicEnds(ShownTree(docs, u), x);
  }

  /** Where a listing shows a note: below its parent if the user can see that, else at the top. */
  lemma {:induction false} ShownWhere(docs: Docs, u: User, rows: seq<int>, x: int, p: int)
    requires IsListing(docs, u, rows)
    ensures var seen := set d | d in docs && docs[d].isNote && !docs[d].deleted && d in u.readable;
            && (x in Below(docs, Visible(docs, u), rows, Some(p)) <==>
               x in seen && p in seen && docs[x].parent == Some(p))
            && (x in Below(docs, Visible(docs, u), rows, None) <==>
                x in seen && (docs[x].parent == None || docs[x].parent.value !in seen))
  {
    BelowMembers(docs, Visible(docs, u), rows, Some(p), x);
    BelowMembers(docs, Visible(docs, u), rows, None, x);
    assert Visible(docs, u) == set d | d in docs && docs[d].isNote && !docs[d].deleted && d in u.readable;
  }

  /** Of two notes in one place the one with the smaller order stands first, and of equal orders the smaller title. */
  lemma {:induction false} ShownInOrder(docs: Docs, u: User, rows: seq<int>, p: Option<int>, i: nat, j: nat)
    requires IsListing(docs, u, rows)
    requires var b := Below(docs, Visible(docs, u), rows, p); i < j < |b|
    ensures var b := Below(docs, Visible(docs, u), rows, p);
            && b[i] in docs && b[j] in docs && b[i] != b[j] && docs[b[i]].order <= docs[b[j]].order
            && (docs[b[i]].order == docs[b[j]].order ==> docs[b[i]].title <= docs[b[j]].title)
  {
    BelowSorted(docs, Visible(docs, u), rows, p);
  }
}
