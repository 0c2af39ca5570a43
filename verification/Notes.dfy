/** The note tree: creating, moving, removing, deleting, restoring, converting and listing notes
    (backend/app/routers/notes.py). Ids are those of documents; titles are given by their place in the database's
    collation order. */
module Notes {
  import opened Forest
  import opened Options
  import Orders = PlaceOrders

  datatype Doc = Doc(isNote: bool, deleted: bool, parent: Option<int>, order: int, title: int, markdown: bool)

  type Docs = map<int, Doc>

  /** What the user may read and change. */
  datatype User = User(readable: set<int>, writable: set<int>)

  datatype Outcome = Done | NotFound | Forbidden | Invalid | Conflict | DatabaseError

  function Parents(docs: Docs): Links {
    map d | d in docs :: docs[d].parent
  }

  predicate LiveNote(docs: Docs, d: int) {
    d in docs && docs[d].isNote && !docs[d].deleted
  }

  predicate ReadableParent(docs: Docs, u: User, p: int) {
    LiveNote(docs, p) && p in u.readable
  }

  /** The parent is a live note the user may read. */
  lemma {:induction false} ReadableParentIs(docs: Docs, u: User, p: int)
    ensures ReadableParent(docs, u, p) <==> p in docs && docs[p].isNote && !docs[p].deleted && p in u.readable
  {
  }

  // ---------------------------------------------------------------- what the user sees

  function Visible(docs: Docs, u: User): set<int> {
    set d | d in docs && LiveNote(docs, d) && d in u.readable
  }

  predicate KeyLe(docs: Docs, a: int, b: int)
    requires a in docs && b in docs
  {
    docs[a].order < docs[b].order || (docs[a].order == docs[b].order && docs[a].title <= docs[b].title)
  }

  /** `rows` is an answer to the query for all visible notes ordered by order, then title. */
  ghost predicate IsListing(docs: Docs, u: User, rows: seq<int>) {
    && (forall d :: d in rows <==> d in Visible(docs, u))
    && (forall i, j :: 0 <= i < j < |rows| ==> rows[i] != rows[j])
    && (forall i :: 0 <= i < |rows| ==> rows[i] in docs)
    && (forall i, j :: 0 <= i < j < |rows| ==> KeyLe(docs, rows[i], rows[j]))
  }

  /** A note is shown under its parent if that is visible, and at the top otherwise. */
  function ShownParent(docs: Docs, visible: set<int>, d: int): Option<int>
    requires d in docs
  {
    if docs[d].parent.Some? && docs[d].parent.value in visible then docs[d].parent else None
  }

  /** The notes of a listing shown under `p`, in the order of the listing. */
  function Below(docs: Docs, visible: set<int>, rows: seq<int>, p: Option<int>): seq<int>
    requires forall i :: 0 <= i < |rows| ==> rows[i] in docs
  {
    if rows == [] then []
    else (if ShownParent(docs, visible, rows[0]) == p then [rows[0]] else []) + Below(docs, visible, rows[1..], p)
  }

  function Without(rows: seq<int>, d: int): seq<int> {
    if rows == [] then [] else (if rows[0] == d then [] else [rows[0]]) + Without(rows[1..], d)
  }

  // ---------------------------------------------------------------- changes

  /** Where a note is to be moved: stay below its parent, go to the top, or go below a note. */
  datatype Target = Keep | Top | Under(p: int)

  function NewParent(docs: Docs, d: int, target: Target): Option<int>
    requires d in docs
  {
    match target
    case Keep => docs[d].parent
    case Top => None
    case Under(p) => Some(p)
  }

  function WithParent(docs: Docs, d: int, p: Option<int>): Docs
    requires d in docs
  {
    docs[d := docs[d].(parent := p)]
  }

  /** The siblings the note will have, as the user sees them, without the note itself. */
  function Siblings(docs: Docs, u: User, rows: seq<int>, d: int): seq<int>
    requires d in docs && forall i :: 0 <= i < |rows| ==> rows[i] in docs
  {
    Without(Below(docs, Visible(docs, u), rows, ShownParent(docs, Visible(docs, u), d)), d)
  }

  function Insert(s: seq<int>, position: int, d: int): seq<int> {
    var pos := if position < 0 then 0 else if position < |s| then position else |s|;
    s[..pos] + [d] + s[pos..]
  }

  /** In `wanted` the note `d` stands at the position asked for, or at the nearest end, and the siblings keep their
      order around it. */
  predicate StandsAt(wanted: seq<int>, siblings: seq<int>, position: int, d: int) {
    var p := if position < 0 then 0 else if position < |siblings| then position else |siblings|;
    |wanted| == |siblings| + 1 && wanted[p] == d && wanted[..p] == siblings[..p] && wanted[p + 1..] == siblings[p..]
  }

  lemma {:induction false} InsertStands(s: seq<int>, position: int, d: int)
    ensures StandsAt(Insert(s, position, d), s, position, d)
  {
  }

  function OrderItems(docs: Docs, writable: set<int>, s: seq<int>): seq<Orders.Item>
    requires forall i :: 0 <= i < |s| ==> s[i] in docs
  {
    seq(|s|, i requires 0 <= i < |s| => Orders.Item(s[i] in writable, docs[s[i]].order))
  }

  function WithOrders(docs: Docs, s: seq<int>, orders: seq<int>): Docs
    requires |s| == |orders| && forall i :: 0 <= i < |s| ==> s[i] in docs
  {
    if s == [] then docs else WithOrders(docs[s[0] := docs[s[0]].(order := orders[0])], s[1..], orders[1..])
  }

  lemma {:induction false} OrdersOnly(docs: Docs, s: seq<int>, orders: seq<int>)
    requires |s| == |orders| && forall i :: 0 <= i < |s| ==> s[i] in docs
    ensures var after := WithOrders(docs, s, orders);
            after.Keys == docs.Keys && forall x :: x in docs ==> after[x] == docs[x].(order := after[x].order)
  {
    if s != [] {
      OrdersOnly(docs[s[0] := docs[s[0]].(order := orders[0])], s[1..], orders[1..]);
    }
  }

  /** The user's child notes of `note` go to the top. */
  function Detached(docs: Docs, note: int, who: set<int>): Docs {
    map d | d in docs ::
      if docs[d].parent == Some(note) && docs[d].isNote && d in who then docs[d].(parent := None) else docs[d]
  }

  /** Of the other rows, the user's child notes of `note` are at the top, and all else is as it was. */
  ghost predicate ChildrenToTop(before: Docs, after: Docs, note: int, who: set<int>) {
    forall x :: x in before && x != note ==>
      && x in after
      && after[x] == var child := before[x].isNote && before[x].parent == Some(note) && x in who;
                     if child then before[x].(parent := None) else before[x]
  }

  /** The largest order among the live notes below `p`, -1 if there are none. */
  ghost predicate IsMaxOrder(docs: Docs, p: Option<int>, m: int) {
    var siblings := set d | d in docs && LiveNote(docs, d) && docs[d].parent == p;
    if siblings == {} then m == -1
    else (forall d :: d in siblings ==> docs[d].order <= m) && exists d :: d in siblings && docs[d].order == m
  }

  /** A note with this order comes after all live notes below the parent, and gets 0 if there are none. */
  ghost predicate ComesLast(docs: Docs, p: Option<int>, order: int) {
    && (forall d :: d in docs && docs[d].isNote && !docs[d].deleted && docs[d].parent == p ==> docs[d].order < order)
    && (order == 0 ||
        exists d :: d in docs && docs[d].isNote && !docs[d].deleted && docs[d].parent == p
          && docs[d].order == order - 1)
  }

  /** Where the move of `d` to a position leads, from the rows with the new parent: to rows with new orders of the
      wanted sequence, or nowhere if there is no placing it. */
  ghost predicate IsPlacing(u: User, d: int, position: int, after: Docs, rows: seq<int>, r: Option<Docs>)
    requires d in after && forall i :: 0 <= i < |rows| ==> rows[i] in after
  {
    var siblings := Siblings(after, u, rows, d);
    var wanted := Insert(siblings, position, d);
    && StandsAt(wanted, siblings, position, d)
    && (forall i :: 0 <= i < |wanted| ==> wanted[i] in after)
    && var items := OrderItems(after, u.writable + {d}, wanted);
       match r
       case None => !CanPlace(items)
       case Some(docs) =>
         exists orders :: |orders| == |wanted| && Placed(items, orders) && docs == WithOrders(after, wanted, orders)
  }

  class NoteStore {
    var docs: Docs

    /** `maxOrder` is the answer to the query for the largest order below the parent. */
    method CreateNote(u: User, id: int, title: int, parent: Option<int>, maxOrder: int) returns (r: Outcome)
      requires id !in docs && IsMaxOrder(docs, parent, maxOrder)
      modifies this
      ensures r == NotFound <==> parent.Some? && !ReadableParent(old(docs), u, parent.value)
      ensures r == Done ==> docs == old(docs)[id := Doc(true, false, parent, maxOrder + 1, title, true)]
      ensures r != Done ==> docs == old(docs) && r in {NotFound, DatabaseError}
      ensures r == DatabaseError ==> maxOrder >= Orders.MAX_ORDER
      ensures r == Done ==> maxOrder < Orders.MAX_ORDER && ComesLast(old(docs), parent, maxOrder + 1)
    {
      if parent.Some? && !ReadableParent(docs, u, parent.value) {
        return NotFound;
      }
      if maxOrder + 1 > Orders.MAX_ORDER {
        return DatabaseError;
      }
      LargerIsLast(docs, parent, maxOrder);
      docs := docs[id := Doc(true, false, parent, maxOrder + 1, title, true)];
      return Done;
    }

    /** Walks up from `start`; tells whether it meets `d`. The precondition says no more than that the walk ends. */
    method MeetsAbove(d: int, start: Option<int>) returns (met: bool)
      requires WalkEnds(Parents(docs), start, d)
      ensures met <==> start.Some? && OnChain(Parents(docs), start.value, d)
    {
      var g := Parents(docs);
      if start.None? {
        return false;
      }
      ghost var last: nat :| Stops(g, start.value, d, last);
      var check := start;
      ghost var n: nat := 0;
      while check.Some?
        invariant n <= last && check == Up(g, start.value, n)
        invariant forall k: nat :: k < n ==> Up(g, start.value, k) != Some(d)
        decreases last - n
      {
        if check.value == d {
          return true;
        }
        UpNext(g, start.value, n);
        check := if check.value in docs then docs[check.value].parent else None;
        n := n + 1;
      }
      forall k: nat ensures Up(g, start.value, k) != Some(d) {
        if k >= n {
          StaysEnded(g, start.value, n, k);
        }
      }
      return false;
    }

    /** `rows` is the answer to the query for all visible notes. If the request comes so far that it walks up from the
        new parent, that walk ends. */
    method MoveNote(u: User, d: int, target: Target, position: Option<int>, order: Option<int>, rows: seq<int>)
      returns (r: Outcome)
      requires IsListing(docs, u, rows)
      requires LiveNote(docs, d) && d in u.writable && target.Under? && target.p != d
               && ReadableParent(docs, u, target.p) ==>
                 WalkEnds(Parents(docs), docs[target.p].parent, d)
      modifies this
      ensures r == NotFound <==>
              || !LiveNote(old(docs), d)
              || (d in u.writable && target.Under? && target.p != d && !ReadableParent(old(docs), u, target.p))
      ensures r == Forbidden <==> LiveNote(old(docs), d) && d !in u.writable
      ensures r == Invalid <==>
              && LiveNote(old(docs), d) && d in u.writable && target.Under?
              && (target.p == d || (ReadableParent(old(docs), u, target.p) && OnChain(Parents(old(docs)), target.p, d)))
      ensures r in {Done, NotFound, Forbidden, Invalid, Conflict, DatabaseError}
      ensures r != Done ==> docs == old(docs)
      ensures r == Conflict ==> position.Some?
      ensures r == DatabaseError ==> position.None? && order.Some?
      ensures r in {Done, DatabaseError} && position.None? && order.Some? ==>
                (r == Done <==> -0x8000_0000 <= order.value <= 0x7fff_ffff)
      ensures r in {Done, Conflict} && position.Some? ==>
                var after := WithParent(old(docs), d, NewParent(old(docs), d, target));
                && (forall i :: 0 <= i < |rows| ==> rows[i] in after)
                && IsPlacing(u, d, position.value, after, rows, if r == Done then Some(docs) else None)
      ensures r == Done && position.None? ==>
                var after := WithParent(old(docs), d, NewParent(old(docs), d, target));
                docs == if order.Some? then after[d := after[d].(order := order.value)] else after
      ensures r == Done ==>
                && d in docs && docs[d].title == old(docs)[d].title && docs[d].isNote && !docs[d].deleted
                && (target.Keep? ==> docs[d].parent == old(docs)[d].parent)
                && (target.Top? ==> docs[d].parent == None)
                && (target.Under? ==> docs[d].parent == Some(target.p))
      ensures docs.Keys == old(docs).Keys
      ensures forall x :: x in docs && x != d ==> docs[x] == old(docs)[x].(order := docs[x].order)
    {
      hide IsPlacing, WalkEnds, OnChain, IsListing;
      if !LiveNote(docs, d) {
        return NotFound;
      }
      if d !in u.writable {
        return Forbidden;
      }
      if target.Under? {
        if target.p == d {
          return Invalid;
        }
        if !ReadableParent(docs, u, target.p) {
          return NotFound;
        }
        var circular := MeetsAbove(d, docs[target.p].parent);
        OnChainAbove(Parents(docs), target.p, d);
        if circular {
          return Invalid;
        }
      }
      var after := WithParent(docs, d, NewParent(docs, d, target));
      if position.Some? {
        SameRows(docs, after, u, rows);
        var placed := PlaceAmong(u, d, position.value, after, rows);
        if placed.None? {
          return Conflict;
        }
        docs := placed.value;
      } else {
        if order.Some? && !Orders.InRange(order.value) {
          return DatabaseError;
        }
        docs := if order.Some? then after[d := after[d].(order := order.value)] else after;
      }
      return Done;
    }

    /** Puts `d` among its siblings and gives them all their orders, if they can be placed. */
    static method PlaceAmong(u: User, d: int, position: int, after: Docs, rows: seq<int>) returns (r: Option<Docs>)
      requires d in after && forall i :: 0 <= i < |rows| ==> rows[i] in after
      ensures IsPlacing(u, d, position, after, rows, r)
      ensures r.Some? ==>
                r.value.Keys == after.Keys && forall x :: x in after ==>
                  r.value[x] == after[x].(order := r.value[x].order)
    {
      hide Siblings, WithOrders;
      var siblings := Siblings(after, u, rows, d);
      SiblingsInside(after, u, rows, d);
      var wanted := Insert(siblings, position, d);
      InsertStands(siblings, position, d);
      assert forall i :: 0 <= i < |wanted| ==> wanted[i] in after;
      var items := OrderItems(after, u.writable + {d}, wanted);
      var orders := Orders.PlaceOrders(items);
      if orders.None? {
        return None;
      }
      assert Placed(items, orders.value);
      OrdersOnly(after, wanted, orders.value);
      return Some(WithOrders(after, wanted, orders.value));
    }

    method RemoveNote(u: User, d: int) returns (r: Outcome)
      modifies this
      ensures r == NotFound <==> !LiveNote(old(docs), d)
      ensures r == Forbidden <==> LiveNote(old(docs), d) && d !in u.writable
      ensures r in {Done, NotFound, Forbidden} && (r != Done ==> docs == old(docs))
      ensures r == Done ==> docs == Removed(old(docs), d, u.writable)
      ensures r == Done ==>
                && docs.Keys == old(docs).Keys
                && docs[d] == old(docs)[d].(isNote := false, parent := None, order := 0)
                && ChildrenToTop(old(docs), docs, d, u.writable)
    {
      if !LiveNote(docs, d) {
        return NotFound;
      }
      if d !in u.writable {
        return Forbidden;
      }
      docs := Detached(docs, d, u.writable);
      docs := docs[d := docs[d].(isNote := false, parent := None, order := 0)];
      return Done;
    }

    method DeleteWithFile(u: User, d: int) returns (r: Outcome)
      modifies this
      ensures r == NotFound <==> d !in old(docs) || old(docs)[d].deleted
      ensures r == Forbidden <==> d in old(docs) && !old(docs)[d].deleted && d !in u.writable
      ensures r in {Done, NotFound, Forbidden} && (r != Done ==> docs == old(docs))
      ensures r == Done ==> docs == Trashed(old(docs), d, u.writable)
      ensures r == Done ==>
                && docs.Keys == old(docs).Keys
                && docs[d] == old(docs)[d].(deleted := true, parent := docs[d].parent)
                && (old(docs)[d].parent != Some(d) ==> docs[d].parent == old(docs)[d].parent)
                && ChildrenToTop(old(docs), docs, d, u.writable)
    {
      if d !in docs || docs[d].deleted {
        return NotFound;
      }
      if d !in u.writable {
        return Forbidden;
      }
      docs := Detached(docs, d, u.writable);
      docs := docs[d := docs[d].(deleted := true)];
      return Done;
    }

    method ConvertToNote(u: User, d: int, parent: Option<int>, maxOrder: int) returns (r: Outcome)
      requires IsMaxOrder(docs, parent, maxOrder)
      modifies this
      ensures r == Done <==> && d in old(docs) && !old(docs)[d].deleted && d in u.writable
                             && !old(docs)[d].isNote && old(docs)[d].markdown
                             && (parent.Some? ==> ReadableParent(old(docs), u, parent.value))
                             && maxOrder < Orders.MAX_ORDER
      ensures r != Done ==> docs == old(docs)
      ensures r == Done ==> docs == Converted(old(docs), d, parent, maxOrder + 1)
      ensures r == Done ==>
              docs == old(docs)[d := old(docs)[d].(isNote := true, parent := parent, order := maxOrder + 1)]
      ensures r == Done ==> ComesLast(old(docs), parent, maxOrder + 1)
      ensures r == Forbidden <==> d in old(docs) && !old(docs)[d].deleted && d !in u.writable
      ensures r == Invalid <==>
              && d in old(docs) && !old(docs)[d].deleted && d in u.writable
              && (old(docs)[d].isNote || !old(docs)[d].markdown)
      ensures r in {Done, NotFound, Forbidden, Invalid, DatabaseError}
      ensures r == DatabaseError ==> maxOrder >= 0x7fff_ffff
    {
      if d !in docs || docs[d].deleted {
        return NotFound;
      }
      if d !in u.writable {
        return Forbidden;
      }
      if docs[d].isNote || !docs[d].markdown {
        return Invalid;
      }
      if parent.Some? && !ReadableParent(docs, u, parent.value) {
        return NotFound;
      }
      if maxOrder + 1 > Orders.MAX_ORDER {
        return DatabaseError;
      }
      LargerIsLast(docs, parent, maxOrder);
      docs := docs[d := docs[d].(isNote := true, parent := parent, order := maxOrder + 1)];
      return Done;
    }

    /** The tree the user gets: the notes at the top, and below each note its children. */
    method ListNotes(u: User, rows: seq<int>) returns (roots: seq<int>, children: map<int, seq<int>>)
      requires IsListing(docs, u, rows)
      ensures roots == Below(docs, Visible(docs, u), rows, None)
      ensures children.Keys == Visible(docs, u)
      ensures forall p :: p in children ==> children[p] == Below(docs, Visible(docs, u), rows, Some(p))
    {
      hide Below, ListedUpTo;
      ghost var visible := Visible(docs, u);
      roots, children := [], map d | d in rows :: [];
      NoneListed(docs, visible, rows, children);
      for i := 0 to |rows|
        invariant ListedUpTo(docs, visible, rows, i, roots, children)
      {
        var d := rows[i];
        ListedStep(docs, visible, rows, i, roots, children);
        var pid := docs[d].parent;
        if pid.Some? && pid.value in children {
          children := children[pid.value := children[pid.value] + [d]];
        } else {
          roots := roots + [d];
        }
      }
      AllListed(docs, visible, rows, roots, children);
    }
  }

  lemma {:induction false} LargerIsLast(docs: Docs, p: Option<int>, m: int)
    requires IsMaxOrder(docs, p, m)
    ensures ComesLast(docs, p, m + 1)
  {
    var siblings := set d | d in docs && LiveNote(docs, d) && docs[d].parent == p;
    assert forall d :: d in docs && docs[d].isNote && !docs[d].deleted && docs[d].parent == p ==> d in siblings;
    if siblings != {} {
      var d :| d in siblings && docs[d].order == m;
      assert docs[d].order == (m + 1) - 1;
    }
  }

  /** The tree of the first `i` rows. */
  ghost predicate ListedUpTo(docs: Docs, visible: set<int>, rows: seq<int>, i: nat, roots: seq<int>,
                             children: map<int, seq<int>>)
    requires forall k :: 0 <= k < |rows| ==> rows[k] in docs
  {
    && i <= |rows| && children.Keys == visible
    && roots == Below(docs, visible, rows[..i], None)
    && forall p :: p in children ==> children[p] == Below(docs, visible, rows[..i], Some(p))
  }

  lemma {:induction false} NoneListed(docs: Docs, visible: set<int>, rows: seq<int>, children: map<int, seq<int>>)
    requires forall k :: 0 <= k < |rows| ==> rows[k] in docs
    requires children.Keys == visible && forall p :: p in children ==> children[p] == []
    ensures ListedUpTo(docs, visible, rows, 0, [], children)
  {
  }

  lemma {:induction false} ListedStep(docs: Docs, visible: set<int>, rows: seq<int>, i: nat, roots: seq<int>,
                                      children: map<int, seq<int>>)
    requires (forall k :: 0 <= k < |rows| ==> rows[k] in docs) && i < |rows|
    requires ListedUpTo(docs, visible, rows, i, roots, children)
    ensures var d, pid := rows[i], docs[rows[i]].parent;
            if pid.Some? && pid.value in children
            then ListedUpTo(docs, visible, rows, i + 1, roots, children[pid.value := children[pid.value] + [d]])
            else ListedUpTo(docs, visible, rows, i + 1, roots + [d], children)
  {
    forall p ensures Below(docs, visible, rows[..i + 1], p) ==
                     if ShownParent(docs, visible, rows[i]) == p then Below(docs, visible, rows[..i], p) + [rows[i]]
                     else Below(docs, visible, rows[..i], p)
    {
      BelowNext(docs, visible, rows, i, p);
    }
    hide Below;
  }

  lemma {:induction false} AllListed(docs: Docs, visible: set<int>, rows: seq<int>, roots: seq<int>,
                                     children: map<int, seq<int>>)
    requires (forall k :: 0 <= k < |rows| ==> rows[k] in docs)
             && ListedUpTo(docs, visible, rows, |rows|, roots, children)
    ensures roots == Below(docs, visible, rows, None) && children.Keys == visible
    ensures forall p :: p in children ==> children[p] == Below(docs, visible, rows, Some(p))
  {
    assert rows[..|rows|] == rows;
  }

  lemma {:induction false} BelowNext(docs: Docs, visible: set<int>, rows: seq<int>, i: nat, p: Option<int>)
    requires i < |rows| && forall k :: 0 <= k < |rows| ==> rows[k] in docs
    ensures Below(docs, visible, rows[..i + 1], p) ==
            if ShownParent(docs, visible, rows[i]) == p then Below(docs, visible, rows[..i], p) + [rows[i]]
            else Below(docs, visible, rows[..i], p)
  {
    assert rows[..i + 1] == rows[..i] + [rows[i]];
    BelowAppend(docs, visible, rows[..i], rows[i], p);
    assert Below(docs, visible, rows[..i], p) + [] == Below(docs, visible, rows[..i], p);
  }

  function Removed(docs: Docs, d: int, who: set<int>): Docs
    requires d in docs
  {
    var rest := Detached(docs, d, who);
    rest[d := rest[d].(isNote := false, parent := None, order := 0)]
  }

  function Trashed(docs: Docs, d: int, who: set<int>): Docs
    requires d in docs
  {
    var rest := Detached(docs, d, who);
    rest[d := rest[d].(deleted := true)]
  }

  function Converted(docs: Docs, d: int, p: Option<int>, order: int): Docs
    requires d in docs
  {
    docs[d := docs[d].(isNote := true, parent := p, order := order)]
  }

  /** `orders` is the assignment the placing algorithm settles on. */
  ghost predicate Placed(items: seq<Orders.Item>, orders: seq<int>) {
    && |orders| == |items|
    && CanPlace(items)
    && forall i :: 0 <= i < |items| ==> orders[i] == Orders.OrderAt(items, i)
  }

  ghost predicate CanPlace(items: seq<Orders.Item>) {
    Orders.AllWritable(items) ||
    (forall i :: 0 <= i < |items| ==> Orders.Room(items, i) && Orders.InRange(Orders.OrderAt(items, i)))
  }

  lemma {:induction false} OnChainAbove(g: Links, p: int, d: int)
    ensures OnChain(g, p, d) <==> p == d || (p in g && g[p].Some? && OnChain(g, g[p].value, d))
  {
    if OnChain(g, p, d) && p != d {
      var n: nat :| Up(g, p, n) == Some(d);
      assert Up(g, g[p].value, n - 1) == Some(d);
    }
    if p == d {
      assert Up(g, p, 0) == Some(d);
    } else if p in g && g[p].Some? && OnChain(g, g[p].value, d) {
      var n: nat :| Up(g, g[p].value, n) == Some(d);
      assert Up(g, p, n + 1) == Some(d);
    }
  }

  /** Where a note hangs does not change which notes are listed, or in what order. */
  lemma {:induction false} SameRows(docs: Docs, after: Docs, u: User, rows: seq<int>)
    requires IsListing(docs, u, rows) && docs.Keys == after.Keys
    requires forall d :: d in docs ==> after[d] == docs[d].(parent := after[d].parent)
    ensures IsListing(after, u, rows)
  {
    assert Visible(after, u) == Visible(docs, u);
  }

  lemma {:induction false} BelowAppend(docs: Docs, visible: set<int>, rows: seq<int>, d: int, p: Option<int>)
    requires d in docs && forall i :: 0 <= i < |rows| ==> rows[i] in docs
    ensures Below(docs, visible, rows + [d], p) ==
            Below(docs, visible, rows, p) + (if ShownParent(docs, visible, d) == p then [d] else [])
  {
    hide ShownParent;
    var more := if ShownParent(docs, visible, d) == p then [d] else [];
    if rows == [] {
      assert rows + [d] == [d] && [d][1..] == [];
    } else {
      assert (rows + [d])[0] == rows[0] && (rows + [d])[1..] == rows[1..] + [d];
      BelowAppend(docs, visible, rows[1..], d, p);
      var first := if ShownParent(docs, visible, rows[0]) == p then [rows[0]] else [];
      var rest := Below(docs, visible, rows[1..], p);
      assert first + (rest + more) == first + rest + more;
    }
  }

  lemma {:induction false} BelowMembers(docs: Docs, visible: set<int>, rows: seq<int>, p: Option<int>, x: int)
    requires forall i :: 0 <= i < |rows| ==> rows[i] in docs
    ensures x in Below(docs, visible, rows, p) <==> x in rows && ShownParent(docs, visible, x) == p
  {
    if rows != [] {
      BelowMembers(docs, visible, rows[1..], p, x);
    }
  }

  lemma {:induction false} WithoutMembers(rows: seq<int>, d: int, x: int)
    ensures x in Without(rows, d) <==> x in rows && x != d
  {
    if rows != [] {
      WithoutMembers(rows[1..], d, x);
    }
  }

  lemma {:induction false} SiblingsInside(docs: Docs, u: User, rows: seq<int>, d: int)
    requires d in docs && forall i :: 0 <= i < |rows| ==> rows[i] in docs
    ensures var s := Siblings(docs, u, rows, d); forall i :: 0 <= i < |s| ==> s[i] in docs
  {
    var visible := Visible(docs, u);
    var p := ShownParent(docs, visible, d);
    var b := Below(docs, visible, rows, p);
    forall x | x in Without(b, d) ensures x in docs {
      WithoutMembers(b, d, x);
      BelowMembers(docs, visible, rows, p, x);
    }
  }
}
