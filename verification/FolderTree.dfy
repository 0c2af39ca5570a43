/** The nested tree of the folders a user may see (backend/app/routers/folders.py, _build_tree and list_folders). */
module FolderTree {
  import opened Folders
  import opened Forest
  import opened Options
  import opened Sequences

  /** A visible folder, and the folder it is in, which the user may not see. */
  datatype Item = Item(id: int, parent: Option<int>)

  datatype Tree = Node(id: int, children: seq<Tree>)

  function LinksOf(items: seq<Item>): Links {
    if items == [] then map[] else
    var last := |items| - 1;
    LinksOf(items[..last])[items[last].id := items[last].parent]
  }

  predicate DistinctIds(items: seq<Item>) {
    forall i, j :: 0 <= i < j < |items| ==> items[i].id != items[j].id
  }

  /** The folders listed in `parent`, in the order of the list. */
  function ChildIds(items: seq<Item>, parent: Option<int>): seq<int> {
    if items == [] then [] else
    var last := |items| - 1;
    ChildIds(items[..last], parent) + if items[last].parent == parent then [items[last].id] else []
  }

  function NodeIds(nodes: seq<Tree>): (r: seq<int>)
    ensures |r| == |nodes|
  {
    seq(|nodes|, i requires 0 <= i < |nodes| => nodes[i].id)
  }

  /** The nodes are the children in `parent`, and each node's children those in it. */
  predicate IsTree(items: seq<Item>, parent: Option<int>, nodes: seq<Tree>)
    decreases nodes
  {
    NodeIds(nodes) == ChildIds(items, parent) &&
    forall i :: 0 <= i < |nodes| ==> IsTree(items, Some(nodes[i].id), nodes[i].children)
  }

  lemma {:induction false} ItemLinked(items: seq<Item>, i: nat)
    requires DistinctIds(items) && i < |items|
    ensures items[i].id in LinksOf(items) && LinksOf(items)[items[i].id] == items[i].parent
  {
    var last := |items| - 1;
    if i < last {
      ItemLinked(items[..last], i);
    }
  }

  /** What hangs below a folder, and nothing for the top. */
  ghost function Reach(g: Links, parent: Option<int>): set<int> {
    if parent.Some? then Below(g, parent.value) else {}
  }

  /** From the top the nesting ends on every list, as no circle hangs below the top. */
  method BuildTree(items: seq<Item>, parent: Option<int>) returns (nodes: seq<Tree>)
    requires DistinctIds(items)
    requires parent.Some? ==> parent.value in LinksOf(items) && OffCircle(LinksOf(items), parent.value)
    ensures IsTree(items, parent, nodes)
    decreases parent.None?, Reach(LinksOf(items), parent)
  {
    hide OffCircle, Below, LinksOf, DistinctIds;
    nodes := [];
    for i := 0 to |items|
      invariant NodeIds(nodes) == ChildIds(items[..i], parent)
      invariant forall k :: 0 <= k < |nodes| ==> IsTree(items, Some(nodes[k].id), nodes[k].children)
    {
      var item := items[i];
      assert items[..i + 1][..i] == items[..i];
      if item.parent == parent {
        ItemLinked(items, i);
        if parent.Some? {
          BelowShrinks(LinksOf(items), parent.value, item.id);
          ChildOffCircle(LinksOf(items), parent.value, item.id);
        } else {
          RootOffCircle(LinksOf(items), item.id);
        }
        var children := BuildTree(items, Some(item.id));
        nodes := nodes + [Node(item.id, children)];
      }
    }
    assert items[..|items|] == items;
  }

  // ---------------------------------------------------------------- what the tree shows

  function Flat(nodes: seq<Tree>): seq<int>
    decreases nodes
  {
    if nodes == [] then [] else
    var last := |nodes| - 1;
    Flat(nodes[..last]) + ([nodes[last].id] + Flat(nodes[last].children))
  }

  lemma {:induction false} KeysOfItems(items: seq<Item>, x: int)
    requires x in LinksOf(items)
    ensures exists i :: 0 <= i < |items| && items[i].id == x
  {
    var last := |items| - 1;
    if items[last].id != x {
      KeysOfItems(items[..last], x);
      var i :| 0 <= i < last && items[..last][i].id == x;
      assert items[i].id == x;
    }
  }

  lemma {:induction false} ChildIdsMembers(items: seq<Item>, parent: Option<int>, x: int)
    requires DistinctIds(items)
    ensures x in ChildIds(items, parent) <==> x in LinksOf(items) && LinksOf(items)[x] == parent
    ensures Distinct(ChildIds(items, parent))
  {
    if items != [] {
      var last := |items| - 1;
      ChildIdsMembers(items[..last], parent, x);
      ChildIdsMembers(items[..last], parent, items[last].id);
      if items[last].id in LinksOf(items[..last]) {
        KeysOfItems(items[..last], items[last].id);
      }
    }
  }

  lemma {:induction false} ChildIdsAreChildren(items: seq<Item>, f: int)
    requires DistinctIds(items)
    ensures ChildrenOf(LinksOf(items), f, ChildIds(items, Some(f)))
  {
    forall x ensures x in ChildIds(items, Some(f)) <==> x in LinksOf(items) && LinksOf(items)[x] == Some(f) {
      ChildIdsMembers(items, Some(f), x);
    }
    ChildIdsMembers(items, Some(f), 0);
  }

  /** A folder's node shows what hangs below it, each folder once and after the one it is in. */
  lemma {:induction false} SubtreeShown(items: seq<Item>, f: int, nodes: seq<Tree>)
    requires DistinctIds(items) && f in LinksOf(items) && OffCircle(LinksOf(items), f) && IsTree(items, Some(f), nodes)
    ensures Collected(LinksOf(items), f, [f] + Flat(nodes))
    decreases nodes, 1
  {
    var g, rows := LinksOf(items), NodeIds(nodes);
    ChildIdsAreChildren(items, f);
    SubtreePart(items, f, nodes, |nodes|);
    assert rows[..|nodes|] == rows && nodes[..|nodes|] == nodes;
    hide PartCollected, Collected, OffCircle, LinksOf, Flat;
    AllCollected(g, f, rows, [f] + Flat(nodes));
  }

  lemma {:induction false} SubtreePart(items: seq<Item>, f: int, nodes: seq<Tree>, i: nat)
    requires DistinctIds(items) && f in LinksOf(items) && OffCircle(LinksOf(items), f)
             && IsTree(items, Some(f), nodes) && i <= |nodes|
    ensures PartCollected(LinksOf(items), f, NodeIds(nodes)[..i], [f] + Flat(nodes[..i]))
    decreases nodes, 0, i
  {
    hide PartCollected, Collected, OffCircle, LinksOf, Flat, DistinctIds;
    var g, rows := LinksOf(items), NodeIds(nodes);
    FlatNext(nodes, i, [f]);
    if i == 0 {
      NothingBelow(g, f, rows);
    } else {
      var node := nodes[i - 1];
      SubtreePart(items, f, nodes, i - 1);
      ChildNode(items, Some(f), nodes, i - 1);
      ChildIdsAreChildren(items, f);
      ChildOffCircle(g, f, node.id);
      SubtreeShown(items, node.id, node.children);
      MoreCollected(g, f, rows, i - 1, [f] + Flat(nodes[..i - 1]), [node.id] + Flat(node.children));
    }
  }

  lemma {:induction false} ChildNode(items: seq<Item>, parent: Option<int>, nodes: seq<Tree>, i: nat)
    requires DistinctIds(items) && IsTree(items, parent, nodes) && i < |nodes|
    ensures NodeIds(nodes)[i] == nodes[i].id && nodes[i].id in LinksOf(items) && LinksOf(items)[nodes[i].id] == parent
    ensures IsTree(items, Some(nodes[i].id), nodes[i].children)
  {
    var ids := NodeIds(nodes);
    assert ids[i] in ids;
    ChildIdsMembers(items, parent, nodes[i].id);
  }

  lemma {:induction false} FlatNext(nodes: seq<Tree>, i: nat, before: seq<int>)
    requires i <= |nodes|
    ensures before + Flat(nodes[..i]) ==
            if i == 0 then before
            else (before + Flat(nodes[..i - 1])) + ([nodes[i - 1].id] + Flat(nodes[i - 1].children))
  {
    if i > 0 {
      assert nodes[..i][..i - 1] == nodes[..i - 1];
      Assoc(before, Flat(nodes[..i - 1]), [nodes[i - 1].id] + Flat(nodes[i - 1].children));
    }
  }

  lemma {:induction false} Assoc(a: seq<int>, b: seq<int>, c: seq<int>)
    ensures a + (b + c) == (a + b) + c
  {
  }

  lemma {:induction false} NothingBelow(g: Links, f: int, rows: seq<int>)
    requires f in g
    ensures PartCollected(g, f, rows[..0], [f])
  {
  }

  // ---------------------------------------------------------------- from the top

  /** All folders the chain from `x` meets are visible, up to one at the top. */
  ghost predicate SeenToTop(g: Links, x: int) {
    x in g && exists r :: r in g && g[r] == None && OnChain(g, x, r)
  }

  lemma {:induction false} RootsApart(g: Links, c: int, d: int, x: int)
    requires c in g && d in g && g[c] == None && g[d] == None && c != d
    ensures !(OnChain(g, x, c) && OnChain(g, x, d))
  {
    if OnChain(g, x, c) && OnChain(g, x, d) {
      var m: nat :| Up(g, x, m) == Some(c);
      var n: nat :| Up(g, x, n) == Some(d);
      UpAdd(g, x, m, if m <= n then n - m else 0);
      UpAdd(g, x, n, if n <= m then m - n else 0);
    }
  }

  /** The rows shown: each once, those below the first roots. */
  ghost predicate ShownFrom(g: Links, roots: seq<int>, ids: seq<int>) {
    && Distinct(ids)
    && (forall x :: x in ids ==> x in BelowAny(g, roots))
    && forall x :: x in BelowAny(g, roots) ==> x in ids
  }

  lemma {:induction false} MoreShown(g: Links, roots: seq<int>, i: nat, ids: seq<int>, sub: seq<int>)
    requires i < |roots| && Distinct(roots) && forall r :: r in roots ==> r in g && g[r] == None
    requires ShownFrom(g, roots[..i], ids) && Collected(g, roots[i], sub)
    ensures ShownFrom(g, roots[..i + 1], ids + sub)
  {
    var c := roots[i];
    assert c in roots && forall r :: r in roots[..i] ==> r in roots;
    assert c !in roots[..i];
    forall x | x in ids ensures x !in sub {
      var d :| d in roots[..i] && OnChain(g, x, d);
      RootsApart(g, c, d, x);
    }
    JoinDistinct(ids, sub);
    BelowAnyMore(g, roots[..i], c);
    assert roots[..i + 1] == roots[..i] + [c];
  }

  lemma {:induction false} TopRoots(items: seq<Item>, nodes: seq<Tree>)
    requires DistinctIds(items) && IsTree(items, None, nodes)
    ensures var g, roots := LinksOf(items), NodeIds(nodes);
            && Distinct(roots)
            && (forall r :: r in roots ==> r in g && g[r] == None)
            && (forall r :: r in g && g[r] == None ==> r in roots)
  {
    forall x ensures x in NodeIds(nodes) <==> x in LinksOf(items) && LinksOf(items)[x] == None {
      ChildIdsMembers(items, None, x);
    }
    ChildIdsMembers(items, None, 0);
  }

  lemma {:induction false} NoneShown(g: Links, roots: seq<int>)
    ensures ShownFrom(g, roots[..0], [])
  {
  }

  lemma {:induction false} RootsShown(items: seq<Item>, nodes: seq<Tree>, i: nat)
    requires DistinctIds(items) && IsTree(items, None, nodes) && i <= |nodes|
    ensures ShownFrom(LinksOf(items), NodeIds(nodes)[..i], Flat(nodes[..i]))
    decreases i
  {
    hide ShownFrom, Collected, OffCircle, LinksOf, Flat, DistinctIds;
    var g, roots := LinksOf(items), NodeIds(nodes);
    FlatNext(nodes, i, []);
    NoneShown(g, roots);
    if i > 0 {
      var node := nodes[i - 1];
      RootsShown(items, nodes, i - 1);
      ChildNode(items, None, nodes, i - 1);
      RootOffCircle(g, node.id);
      SubtreeShown(items, node.id, node.children);
      TopRoots(items, nodes);
      MoreShown(g, roots, i - 1, Flat(nodes[..i - 1]), [node.id] + Flat(node.children));
      Assoc([], Flat(nodes[..i - 1]), [node.id] + Flat(node.children));
      assert [] + Flat(nodes[..i - 1]) == Flat(nodes[..i - 1]);
    }
    assert [] + Flat(nodes[..i]) == Flat(nodes[..i]);
  }

  /** The whole tree shows exactly the visible folders whose chain of parents is visible up to the top, each once: a
      folder in one the user may not see is not shown, nor what is in it. */
  lemma {:induction false} TreeShowsExactly(items: seq<Item>, nodes: seq<Tree>, x: int)
    requires DistinctIds(items) && IsTree(items, None, nodes)
    ensures Distinct(Flat(nodes)) && (x in Flat(nodes) <==> SeenToTop(LinksOf(items), x))
  {
    var g, roots := LinksOf(items), NodeIds(nodes);
    RootsShown(items, nodes, |nodes|);
    assert roots[..|nodes|] == roots && nodes[..|nodes|] == nodes;
    TopRoots(items, nodes);
  }

  // ---------------------------------------------------------------- the order of the tree

  function AllIds(items: seq<Item>): (r: seq<int>)
    ensures |r| == |items|
  {
    seq(|items|, i requires 0 <= i < |items| => items[i].id)
  }

  /** The nodes below a folder are exactly those listed in it, in the order of the list. */
  lemma {:induction false} NodesInOrder(items: seq<Item>, parent: Option<int>, nodes: seq<Tree>, a: int, b: int)
    requires IsTree(items, parent, nodes)
    ensures a in NodeIds(nodes) <==> exists i :: 0 <= i < |items| && items[i] == Item(a, parent)
    ensures Precedes(NodeIds(nodes), a, b) ==> Precedes(AllIds(items), a, b)
  {
    ListedInOrder(items, parent, a, b);
  }

  lemma {:induction false} ListedInOrder(items: seq<Item>, parent: Option<int>, a: int, b: int)
    ensures a in ChildIds(items, parent) <==> exists i :: 0 <= i < |items| && items[i] == Item(a, parent)
    ensures a in ChildIds(items, parent) ==> a in AllIds(items)
    ensures Precedes(ChildIds(items, parent), a, b) ==> Precedes(AllIds(items), a, b)
  {
    if items != [] {
      var front, last := items[..|items| - 1], items[|items| - 1];
      ListedInOrder(front, parent, a, b);
      assert AllIds(items) == AllIds(front) + [last.id];
      PrecedesLast(AllIds(front), last.id, a, b);
      PrecedesLast(ChildIds(front, parent), last.id, a, b);
      assert ChildIds(front, parent) + [] == ChildIds(front, parent);
      hide Precedes, AllIds;
      LastOrFront(items, Item(a, parent));
    }
  }

  lemma {:induction false} LastOrFront(items: seq<Item>, x: Item)
    requires items != []
    ensures var front := items[..|items| - 1];
            (exists i :: 0 <= i < |items| && items[i] == x) <==>
            (exists i :: 0 <= i < |front| && front[i] == x) || items[|items| - 1] == x
  {
    var front := items[..|items| - 1];
    if i :| 0 <= i < |items| && items[i] == x {
      assert i < |front| ==> front[i] == x;
    }
    if i :| 0 <= i < |front| && front[i] == x {
      assert items[i] == x;
    }
  }
}
