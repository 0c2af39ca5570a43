/** The folder tree: creating and changing folders, passing permissions down, and deleting a folder with all below it
    (backend/app/routers/folders.py). */
module Folders {
  import opened Forest
  import opened Options
  import opened Sequences

  datatype Perms = Perms(group: Option<int>, groupRead: bool, groupWrite: bool, othersRead: bool, othersWrite: bool)

  datatype Folder = Folder(parent: Option<int>, name: string, owner: Option<int>, perms: Perms)

  datatype Doc = Doc(folder: Option<int>, deletedAt: Option<int>, perms: Perms)

  type FolderRows = map<int, Folder>
  type DocRows = map<int, Doc>

  datatype State = State(folders: FolderRows, docs: DocRows)

  /** A user, and the folders can_access_folder lets that user write to. */
  datatype User = User(id: int, admin: bool, writable: set<int>)

  datatype Outcome = Done | NotFound | Forbidden | Circular | DatabaseError

  /** The users and groups there are. */
  datatype Known = Known(users: set<int>, groups: set<int>)

  /** Another folder in the same folder has the name; names at the top may be the same. */
  predicate NameTaken(folders: FolderRows, f: int, parent: Option<int>, name: string) {
    parent.Some? && exists x :: x in folders && x != f && folders[x].parent == parent && folders[x].name == name
  }

  /** UNIQUE (parent_id, name) */
  predicate NamesUnique(folders: FolderRows) {
    forall x :: x in folders ==> !NameTaken(folders, x, folders[x].parent, folders[x].name)
  }

  function Parents(folders: FolderRows): Links {
    map f | f in folders :: folders[f].parent
  }

  predicate Linked(s: State) {
    && (forall f :: f in s.folders && s.folders[f].parent.Some? ==> s.folders[f].parent.value in s.folders)
    && forall d :: d in s.docs && s.docs[d].folder.Some? ==> s.docs[d].folder.value in s.folders
  }

  // ---------------------------------------------------------------- what hangs below a folder

  ghost function Below(g: Links, f: int): set<int> {
    set x | x in g && OnChain(g, x, f)
  }

  ghost function BelowAny(g: Links, fs: seq<int>): set<int> {
    set x | x in g && exists f :: f in fs && OnChain(g, x, f)
  }

  /** `kids(f)` is an answer to the query for the folders whose parent is `f`. */
  ghost predicate IsKids(g: Links, kids: int -> seq<int>) {
    forall f :: ChildrenOf(g, f, kids(f))
  }

  ghost predicate ChildrenOf(g: Links, f: int, rows: seq<int>) {
    && Distinct(rows)
    && (forall c :: c in rows ==> c in g && g[c] == Some(f))
    && forall c :: c in g && g[c] == Some(f) ==> c in rows
  }

  lemma {:induction false} ChainSplit(g: Links, x: int, f: int)
    ensures OnChain(g, x, f) <==> x == f || exists c :: c in g && g[c] == Some(f) && OnChain(g, x, c)
  {
    if OnChain(g, x, f) && x != f {
      var n: nat :| Up(g, x, n) == Some(f);
      UpNext(g, x, n - 1);
      var c := Up(g, x, n - 1).value;
      assert OnChain(g, x, c);
    }
    if x == f {
      assert Up(g, x, 0) == Some(f);
    } else if c :| c in g && g[c] == Some(f) && OnChain(g, x, c) {
      var n: nat :| Up(g, x, n) == Some(c);
      UpNext(g, x, n);
      assert Up(g, x, n + 1) == Some(f);
    }
  }

  /** A folder, and what hangs below its children. */
  lemma {:induction false} BelowSplit(g: Links, f: int, rows: seq<int>)
    requires f in g && ChildrenOf(g, f, rows)
    ensures Below(g, f) == {f} + BelowAny(g, rows)
  {
    forall x | x in g ensures OnChain(g, x, f) <==> x == f || exists c :: c in rows && OnChain(g, x, c) {
      ChainSplit(g, x, f);
    }
  }

  lemma {:induction false} BelowAnyMore(g: Links, rows: seq<int>, c: int)
    ensures BelowAny(g, rows + [c]) == BelowAny(g, rows) + Below(g, c)
  {
    assert forall f :: f in rows + [c] <==> f in rows || f == c;
  }

  lemma {:induction false} ParentNotBelow(g: Links, f: int, c: int)
    requires OffCircle(g, f) && c in g && g[c] == Some(f)
    ensures !OnChain(g, f, c)
  {
    forall n: nat ensures Up(g, f, n) != Some(c) {
      UpNext(g, f, n);
    }
  }

  lemma {:induction false} BelowShrinks(g: Links, f: int, c: int)
    requires OffCircle(g, f) && f in g && c in g && g[c] == Some(f)
    ensures Below(g, c) < Below(g, f)
  {
    ParentNotBelow(g, f, c);
    assert Up(g, f, 0) == Some(f);
    forall x | x in Below(g, c) ensures x in Below(g, f) {
      ChainSplit(g, x, f);
    }
    assert f in Below(g, f) && f !in Below(g, c);
  }

  /** No folder hangs below two children of one folder. */
  lemma {:induction false} SiblingsApart(g: Links, f: int, c: int, d: int, x: int)
    requires OffCircle(g, f) && c in g && d in g && g[c] == Some(f) && g[d] == Some(f) && c != d
    ensures !(OnChain(g, x, c) && OnChain(g, x, d))
  {
    if OnChain(g, x, c) && OnChain(g, x, d) {
      var m: nat :| Up(g, x, m) == Some(c);
      var n: nat :| Up(g, x, n) == Some(d);
      SiblingMeets(g, f, c, d, x, m, n);
      SiblingMeets(g, f, d, c, x, n, m);
    }
  }

  lemma {:induction false} SiblingMeets(g: Links, f: int, c: int, d: int, x: int, m: nat, n: nat)
    requires OffCircle(g, f) && c in g && d in g && g[c] == Some(f) && g[d] == Some(f)
    requires Up(g, x, m) == Some(c) && Up(g, x, n) == Some(d)
    ensures m >= n
  {
    if m < n {
      UpAdd(g, x, m, n - m);
      assert Up(g, f, n - m - 1) == Some(d);
      UpNext(g, f, n - m - 1);
    }
  }

  lemma {:induction false} ApartFromAll(g: Links, f: int, rows: seq<int>, c: int)
    requires OffCircle(g, f) && c in g && g[c] == Some(f) && c !in rows
    requires forall d :: d in rows ==> d in g && g[d] == Some(f)
    ensures BelowAny(g, rows) !! Below(g, c) && f !in Below(g, c)
  {
    ParentNotBelow(g, f, c);
    forall x | x in BelowAny(g, rows) ensures x !in Below(g, c) {
      var d :| d in rows && OnChain(g, x, d);
      SiblingsApart(g, f, c, d, x);
    }
  }

  // ---------------------------------------------------------------- the cycle check

  /** The chain of `p` ends and does not meet `f`. */
  ghost predicate MayHang(g: Links, f: int, p: int) {
    Ends(g, p) && !OnChain(g, p, f)
  }

  /** In a forest, a folder may hang below another exactly when the links stay a forest. */
  lemma {:induction false} MayHangExactly(g: Links, f: int, p: int)
    requires Acyclic(g)
    ensures MayHang(g, f, p) <==> Acyclic(g[f := Some(p)])
  {
    AcyclicEnds(g, p);
    LinkAcyclic(g, f, p);
  }

  /** Walks up from the new parent. It ends on every graph, also one with cycles. */
  method CheckNoCycle(g: Links, folder: int, newParent: int) returns (ok: bool)
    ensures ok <==> MayHang(g, folder, newParent)
  {
    var current := Some(newParent);
    var visited: set<int> := {};
    ghost var n: nat := 0;
    while current.Some?
      invariant current == Up(g, newParent, n)
      invariant forall k: nat :: k < n ==> Up(g, newParent, k) != Some(folder)
      invariant forall x :: x in visited ==> exists k: nat :: k < n && Up(g, newParent, k) == Some(x)
      invariant visited <= g.Keys
      decreases g.Keys - visited, current.Some?
    {
      if current.value == folder {
        return false;
      }
      if current.value in visited {
        ghost var k: nat :| k < n && Up(g, newParent, k) == current;
        NeverEnds(g, newParent, k, n);
        return false;
      }
      UpNext(g, newParent, n);
      if current.value !in g {
        current := None;
      } else {
        visited := visited + {current.value};
        current := g[current.value];
      }
      n := n + 1;
    }
    ChainOver(g, newParent, folder, n);
    return true;
  }

  lemma {:induction false} NeverEnds(g: Links, a: int, i: nat, j: nat)
    requires i < j && Up(g, a, i) == Up(g, a, j) && Up(g, a, i).Some?
    ensures !Ends(g, a)
  {
    forall n: nat ensures Up(g, a, n).Some? {
      RepeatNeverEnds(g, a, i, j, n);
    }
  }

  lemma {:induction false} ChainOver(g: Links, a: int, f: int, n: nat)
    requires Up(g, a, n) == None && forall k: nat :: k < n ==> Up(g, a, k) != Some(f)
    ensures MayHang(g, f, a)
  {
    forall k: nat ensures Up(g, a, k) != Some(f) {
      if k >= n {
        StaysEnded(g, a, n, k);
      }
    }
  }

  // ---------------------------------------------------------------- permissions

  function PaintFolders(folders: FolderRows, fs: set<int>, p: Perms): FolderRows {
    map f | f in folders :: if f in fs then folders[f].(perms := p) else folders[f]
  }

  /** The live documents in some folders get the permissions. */
  function PaintDocs(docs: DocRows, fs: set<int>, p: Perms): DocRows {
    map d | d in docs ::
      if docs[d].deletedAt.None? && docs[d].folder.Some? && docs[d].folder.value in fs then docs[d].(perms := p)
        else docs[d]
  }

  function Paint(s: State, fs: set<int>, p: Perms): State {
    State(PaintFolders(s.folders, fs, p), PaintDocs(s.docs, fs, p))
  }

  lemma {:induction false} PaintTwice(s: State, a: set<int>, b: set<int>, p: Perms)
    ensures Paint(Paint(s, a, p), b, p) == Paint(s, a + b, p)
  {
  }

  lemma {:induction false} PaintKeepsParents(s: State, a: set<int>, p: Perms)
    ensures Parents(Paint(s, a, p).folders) == Parents(s.folders)
    ensures Paint(s, a, p).folders.Keys == s.folders.Keys == Parents(s.folders).Keys
  {
  }

  lemma {:induction false} PaintOneKeepsParents(folders: FolderRows, c: int, p: Perms)
    requires c in folders
    ensures Parents(folders[c := folders[c].(perms := p)]) == Parents(folders)
    ensures folders.Keys == Parents(folders).Keys
  {
  }

  lemma {:induction false} FirstPainted(s: State, f: int, after: State, rows: seq<int>)
    requires f in s.folders && after == State(s.folders, PaintDocs(s.docs, {f}, s.folders[f].perms))
    ensures after == Paint(s, {f} + BelowAny(Parents(s.folders), rows[..0]), s.folders[f].perms)
    ensures f in Parents(s.folders)
  {
    assert {f} + BelowAny(Parents(s.folders), rows[..0]) == {f};
    assert PaintFolders(s.folders, {f}, s.folders[f].perms) == s.folders;
  }

  /** A child gets the permissions, and then all that hangs below it. */
  lemma {:induction false} PaintChild(s: State, g: Links, c: int, p: Perms)
    requires g == Parents(s.folders) && c in s.folders
    ensures Paint(State(s.folders[c := s.folders[c].(perms := p)], s.docs), Below(g, c), p) == Paint(s, Below(g, c), p)
  {
    assert Up(g, c, 0) == Some(c);
    assert c in Below(g, c);
  }

  lemma {:induction false} OneChild(s: State, g: Links, f: int, rows: seq<int>, i: nat, p: Perms, before: State,
                                    after: State)
    requires g == Parents(s.folders) && i < |rows| && rows[i] in s.folders
    requires before == Paint(s, {f} + BelowAny(g, rows[..i]), p)
    requires var c := rows[i];
             after == Paint(State(before.folders[c := before.folders[c].(perms := p)], before.docs), Below(g, c), p)
    ensures after == Paint(s, {f} + BelowAny(g, rows[..i + 1]), p)
  {
    var c := rows[i];
    PaintKeepsParents(s, {f} + BelowAny(g, rows[..i]), p);
    PaintChild(before, g, c, p);
    PaintTwice(s, {f} + BelowAny(g, rows[..i]), Below(g, c), p);
    BelowAnyMore(g, rows[..i], c);
    assert rows[..i + 1] == rows[..i] + [c];
    assert {f} + BelowAny(g, rows[..i]) + Below(g, c) == {f} + BelowAny(g, rows[..i + 1]);
  }

  /** A field of a request: left out, or to be set. */
  datatype Field<T> = Unset | To(value: T)

  datatype Patch = Patch(name: Field<string>, owner: Field<Option<int>>, group: Field<Option<int>>,
                         groupRead: Field<bool>, groupWrite: Field<bool>,
                         othersRead: Field<bool>, othersWrite: Field<bool>)

  function Set<T>(field: Field<T>, was: T): T {
    if field.To? then field.value else was
  }

  function Patched(p: Perms, patch: Patch): Perms {
    Perms(Set(patch.group, p.group), Set(patch.groupRead, p.groupRead), Set(patch.groupWrite, p.groupWrite),
          Set(patch.othersRead, p.othersRead), Set(patch.othersWrite, p.othersWrite))
  }

  predicate PermsChanged(patch: Patch) {
    patch.group.To? || patch.groupRead.To? || patch.groupWrite.To? || patch.othersRead.To? || patch.othersWrite.To?
  }

  const DEFAULT_PERMS := Perms(None, false, false, true, false)

  // ---------------------------------------------------------------- changes as functions

  datatype Target = Keep | Top | Under(p: int)

  function Moved(folders: FolderRows, f: int, target: Target): FolderRows
    requires f in folders
  {
    match target
    case Keep => folders
    case Top => folders[f := folders[f].(parent := None)]
    case Under(p) => folders[f := folders[f].(parent := Some(p))]
  }

  /** The row with its new name, owner and parent. */
  function Edited(folders: FolderRows, f: int, target: Target, patch: Patch): FolderRows
    requires f in folders
  {
    var moved := Moved(folders, f, target);
    moved[f := moved[f].(name := Set(patch.name, moved[f].name), owner := Set(patch.owner, moved[f].owner))]
  }

  /** A folder after a change of its name, owner, parent and permissions, which its documents get, and with `recursive`
      all folders below and theirs. */
  ghost function Changed(s: State, f: int, target: Target, patch: Patch, recursive: bool): State
    requires f in s.folders
  {
    var edited := Edited(s.folders, f, target, patch);
    var p := Patched(edited[f].perms, patch);
    var reach := if recursive then Below(Parents(edited), f) else {f};
    if PermsChanged(patch) then State(PaintFolders(edited, reach, p), PaintDocs(s.docs, reach, p))
      else State(edited, s.docs)
  }

  /** What `after` is of `before`: the folder with what the request sets and all else as it was; if the request sets a
      permission, the folder's permissions also on its live documents, and with `recursive` on all that hangs below. */
  ghost predicate UpdatedAs(before: State, after: State, f: int, target: Target, patch: Patch, recursive: bool) {
    && f in before.folders && after.folders.Keys == before.folders.Keys && after.docs.Keys == before.docs.Keys
    && RowAs(before.folders[f], after.folders[f], target, patch)
    && var painted := patch.group.To? || patch.groupRead.To? || patch.groupWrite.To? || patch.othersRead.To? ||
                      patch.othersWrite.To?;
       && FoldersAs(before.folders, after.folders, f, painted && recursive)
       && (if painted then DocsAs(before.docs, after.docs, Parents(after.folders), f, recursive, after.folders[f].perms)
           else after.docs == before.docs)
  }

  /** The other folders are as they were, those below `f` with its permissions if these are passed down. */
  ghost predicate FoldersAs(before: FolderRows, after: FolderRows, f: int, down: bool)
    requires f in after && before.Keys == after.Keys
  {
    forall x :: x in before && x != f ==>
      after[x] == if down && OnChain(Parents(after), x, f) then before[x].(perms := after[f].perms) else before[x]
  }

  /** The live documents in `f`, and if `down` in the folders below it, have the permissions; all else is as it was. */
  ghost predicate DocsAs(before: DocRows, after: DocRows, g: Links, f: int, down: bool, perms: Perms)
    requires before.Keys == after.Keys
  {
    forall d :: d in before ==>
      var folder := before[d].folder;
      after[d] ==
      if before[d].deletedAt == None && folder.Some? &&
         (folder.value == f || (down && folder.value in g && OnChain(g, folder.value, f)))
      then before[d].(perms := perms) else before[d]
  }

  predicate RowAs(was: Folder, row: Folder, target: Target, patch: Patch) {
    && (target.Keep? ==> row.parent == was.parent) && (target.Top? ==> row.parent == None)
    && (target.Under? ==> row.parent == Some(target.p))
    && row.name == (if patch.name.To? then patch.name.value else was.name)
    && row.owner == (if patch.owner.To? then patch.owner.value else was.owner)
    && row.perms.group == (if patch.group.To? then patch.group.value else was.perms.group)
    && row.perms.groupRead == (if patch.groupRead.To? then patch.groupRead.value else was.perms.groupRead)
    && row.perms.groupWrite == (if patch.groupWrite.To? then patch.groupWrite.value else was.perms.groupWrite)
    && row.perms.othersRead == (if patch.othersRead.To? then patch.othersRead.value else was.perms.othersRead)
    && row.perms.othersWrite == (if patch.othersWrite.To? then patch.othersWrite.value else was.perms.othersWrite)
  }

  lemma {:induction false} EditedRow(folders: FolderRows, f: int, target: Target, patch: Patch)
    requires f in folders
    ensures var edited := Edited(folders, f, target, patch);
            && edited.Keys == folders.Keys && (forall x :: x in folders && x != f ==> edited[x] == folders[x])
            && edited[f].perms == folders[f].perms
            && RowAs(folders[f], edited[f].(perms := Patched(folders[f].perms, patch)), target, patch)
  {
  }

  lemma {:induction false} PaintedDocs(docs: DocRows, g: Links, f: int, down: bool, perms: Perms)
    requires f in g
    ensures DocsAs(docs, PaintDocs(docs, if down then Below(g, f) else {f}, perms), g, f, down, perms)
  {
    assert Up(g, f, 0) == Some(f);
  }

  lemma {:induction false} PaintedFolders(folders: FolderRows, f: int, down: bool, perms: Perms)
    requires f in folders
    ensures var after := PaintFolders(folders, if down then Below(Parents(folders), f) else {f}, perms);
            && after.Keys == folders.Keys && Parents(after) == Parents(folders)
            && after[f] == folders[f].(perms := perms) && FoldersAs(folders, after, f, down)
  {
    var g := Parents(folders);
    assert Up(g, f, 0) == Some(f);
    var after := PaintFolders(folders, if down then Below(g, f) else {f}, perms);
    assert Parents(after) == g;
  }

  lemma {:induction false} ChangedUpdates(s: State, f: int, target: Target, patch: Patch, recursive: bool)
    requires f in s.folders
    ensures UpdatedAs(s, Changed(s, f, target, patch, recursive), f, target, patch, recursive)
  {
    var edited := Edited(s.folders, f, target, patch);
    EditedRow(s.folders, f, target, patch);
    var p := Patched(edited[f].perms, patch);
    PaintedFolders(edited, f, recursive, p);
    PaintedDocs(s.docs, Parents(edited), f, recursive, p);
    UnpaintedRow(s.folders[f], edited[f], target, patch);
    var after := Changed(s, f, target, patch, recursive);
    hide Edited, PaintFolders, PaintDocs, RowAs, Patched, Below, Parents;
    if PermsChanged(patch) {
      assert FoldersAs(s.folders, after.folders, f, recursive);
    } else {
      assert FoldersAs(s.folders, after.folders, f, false);
    }
  }

  /** A request that sets no permission leaves the row the permissions it has. */
  lemma {:induction false} UnpaintedRow(was: Folder, row: Folder, target: Target, patch: Patch)
    ensures RowAs(was, row.(perms := Patched(row.perms, patch)), target, patch) && !PermsChanged(patch) ==>
              RowAs(was, row, target, patch)
  {
  }

  /** A new folder takes its permissions from the one it is in. */
  function Created(s: State, u: User, id: int, name: string, parent: Option<int>): State
    requires parent.Some? ==> parent.value in s.folders
  {
    var perms := if parent.Some? then s.folders[parent.value].perms else DEFAULT_PERMS;
    s.(folders := s.folders[id := Folder(parent, name, Some(u.id), perms)])
  }

  /** What a request for a new folder gets. */
  function CreateAnswer(u: User, folders: FolderRows, id: int, name: string, parent: Option<int>): Outcome {
    if parent.Some? && parent.value !in folders then NotFound
    else if parent.Some? && parent.value !in u.writable then Forbidden
    else if NameTaken(folders, id, parent, name) then DatabaseError
    else Done
  }

  predicate MayChange(u: User, folders: FolderRows, f: int) {
    f in folders && (u.admin || folders[f].owner == Some(u.id))
  }

  predicate RefsKnown(known: Known, patch: Patch) {
    && (patch.owner.To? && patch.owner.value.Some? ==> patch.owner.value.value in known.users)
    && (patch.group.To? && patch.group.value.Some? ==> patch.group.value.value in known.groups)
  }

  /** The database takes the changed row: what it names is there, and its name is free. */
  predicate Stored(folders: FolderRows, f: int, target: Target, patch: Patch, known: Known)
    requires f in folders
  {
    && (target.Under? ==> target.p in folders) && RefsKnown(known, patch)
    && var row := Edited(folders, f, target, patch)[f]; !NameTaken(folders, f, row.parent, row.name)
  }

  /** What a request to change a folder gets. The walk of the cycle check reads the table, for which a new name is
      written first: it must be free where the folder still is. */
  ghost function Answer(u: User, folders: FolderRows, f: int, target: Target, patch: Patch, known: Known): Outcome {
    if f !in folders then NotFound
    else if !MayChange(u, folders, f) then Forbidden
    else if target.Under? && target.p == f then Circular
    else if target.Under? && patch.name.To? && NameTaken(folders, f, folders[f].parent, patch.name.value)
      then DatabaseError
    else if target.Under? && !MayHang(Parents(folders), f, target.p) then Circular
    else if target.Under? && target.p in folders && !u.admin && target.p !in u.writable then Forbidden
    else if !Stored(folders, f, target, patch, known) then DatabaseError
    else Done
  }

  /** The request is let through: its user owns the folder or is an administrator, and may write where the folder is to
      go, which is there and not below it; who is named is there; and the name is free, where the folder goes and, as
      it is changed first, where it was. */
  ghost predicate LetThrough(u: User, folders: FolderRows, f: int, target: Target, patch: Patch, known: Known) {
    && f in folders && (u.admin || folders[f].owner == Some(u.id))
    && (target.Under? ==>
          && target.p != f && target.p in folders && (u.admin || target.p in u.writable)
          && Ends(Parents(folders), target.p) && !OnChain(Parents(folders), target.p, f)
          && (patch.name.To? && folders[f].parent.Some? ==>
                forall x :: x in folders && x != f && folders[x].parent == folders[f].parent ==>
                  folders[x].name != patch.name.value))
    && (patch.owner.To? && patch.owner.value.Some? ==> patch.owner.value.value in known.users)
    && (patch.group.To? && patch.group.value.Some? ==> patch.group.value.value in known.groups)
    && var parent := if target.Keep? then folders[f].parent else if target.Top? then None else Some(target.p);
       var name := if patch.name.To? then patch.name.value else folders[f].name;
       parent.Some? ==> forall x :: x in folders && x != f && folders[x].parent == parent ==> folders[x].name != name
  }

  lemma {:induction false} AnswerDone(u: User, folders: FolderRows, f: int, target: Target, patch: Patch, known: Known)
    ensures Answer(u, folders, f, target, patch, known) == Done <==> LetThrough(u, folders, f, target, patch, known)
  {
    if f in folders {
      var moved := Edited(folders, f, target, patch);
      var parent := if target.Keep? then folders[f].parent else if target.Top? then None else Some(target.p);
      assert moved[f].parent == parent;
    }
  }

  /** Documents of the folders are in the trash, in no folder. */
  function Emptied(docs: DocRows, fs: set<int>, now: int): DocRows {
    map d | d in docs :: if docs[d].folder.Some? && docs[d].folder.value in fs
      then docs[d].(folder := None, deletedAt := if docs[d].deletedAt.Some? then docs[d].deletedAt else Some(now))
        else docs[d]
  }

  /** Without a folder and all that hangs below it. */
  ghost function Deleted(s: State, f: int, now: int): State {
    var gone := Below(Parents(s.folders), f);
    State(map x | x in s.folders && x !in gone :: s.folders[x], Emptied(s.docs, gone, now))
  }

  /** What `after` is of `before`: the folder and all below it gone, the documents in them in no folder and in the
      trash - since `now`, if they were not there before - and all else as it was. */
  ghost predicate DeletedAs(before: State, after: State, f: int, now: int) {
    var g := Parents(before.folders);
    && (forall x :: x in after.folders <==> x in before.folders && !OnChain(g, x, f))
    && (forall x :: x in after.folders ==> after.folders[x] == before.folders[x])
    && after.docs.Keys == before.docs.Keys
    && forall d :: d in before.docs ==>
         var folder, deleted := before.docs[d].folder, before.docs[d].deletedAt;
         after.docs[d] ==
         if folder.Some? && folder.value in g && OnChain(g, folder.value, f)
         then before.docs[d].(folder := None, deletedAt := if deleted == None then Some(now) else deleted)
         else before.docs[d]
  }

  lemma {:induction false} DeletedIsGone(s: State, f: int, now: int)
    ensures DeletedAs(s, Deleted(s, f, now), f, now)
  {
  }

  /** The folder, then what hangs below it, every folder after its parent. */
  ghost predicate Collected(g: Links, f: int, ids: seq<int>) {
    && ids != [] && ids[0] == f
    && Distinct(ids)
    && (forall x :: x in ids ==> x in Below(g, f))
    && (forall x :: x in Below(g, f) ==> x in ids)
    && forall i :: 0 < i < |ids| ==> ParentBefore(g, ids, i)
  }

  ghost predicate ParentBefore(g: Links, ids: seq<int>, i: int)
    requires 0 <= i < |ids|
  {
    exists j :: 0 <= j < i && ids[i] in g && g[ids[i]] == Some(ids[j])
  }

  class FolderStore {
    var folders: FolderRows
    var docs: DocRows

    function Rows(): State
      reads this
    {
      State(folders, docs)
    }

    method CreateFolder(u: User, id: int, name: string, parent: Option<int>) returns (r: Outcome)
      requires id !in folders
      modifies this
      ensures r == CreateAnswer(u, old(folders), id, name, parent)
      ensures r == NotFound <==> parent.Some? && parent.value !in old(folders)
      ensures r == Forbidden <==> parent.Some? && parent.value in old(folders) && parent.value !in u.writable
      ensures r == Done <==> parent.Some? ==>
                && parent.value in old(folders) && parent.value in u.writable
                && forall x :: x in old(folders) && x != id && old(folders)[x].parent == parent ==>
                   old(folders)[x].name != name
      ensures r == Done ==>
                var perms := if parent.None? then Perms(None, false, false, true, false)
                  else old(folders)[parent.value].perms;
                folders == old(folders)[id := Folder(parent, name, Some(u.id), perms)] && docs == old(docs)
      ensures Rows() == if r == Done then Created(old(Rows()), u, id, name, parent) else old(Rows())
    {
      if parent.Some? {
        if parent.value !in folders {
          return NotFound;
        }
        if parent.value !in u.writable {
          return Forbidden;
        }
      }
      if NameTaken(folders, id, parent, name) {
        return DatabaseError;
      }
      var perms := if parent.Some? then folders[parent.value].perms else DEFAULT_PERMS;
      folders := folders[id := Folder(parent, name, Some(u.id), perms)];
      return Done;
    }

    method ApplyToDocs(f: int)
      requires f in folders
      modifies this`docs
      ensures docs == PaintDocs(old(docs), {f}, folders[f].perms)
      ensures docs.Keys == old(docs).Keys
      ensures forall d :: d in docs ==>
                docs[d] == if old(docs)[d].folder == Some(f) && old(docs)[d].deletedAt == None
                           then old(docs)[d].(perms := folders[f].perms) else old(docs)[d]
    {
      docs := map d | d in docs ::
        if docs[d].folder == Some(f) && docs[d].deletedAt.None? then docs[d].(perms := folders[f].perms) else docs[d];
    }

    /** Down from `f`, by the answers `kids` to the queries for children. */
    method ApplyRecursive(f: int, kids: int -> seq<int>)
      requires f in folders && OffCircle(Parents(folders), f) && IsKids(Parents(folders), kids)
      modifies this
      ensures Rows() == Paint(old(Rows()), Below(Parents(old(folders)), f), old(folders)[f].perms)
      decreases Below(Parents(folders), f)
    {
      hide PaintFolders, PaintDocs, OffCircle, BelowAny, Below, Parents, Paint;
      ghost var g, was := Parents(folders), Rows();
      var p := folders[f].perms;
      var rows := kids(f);
      assert ChildrenOf(g, f, rows);
      ApplyToDocs(f);
      FirstPainted(was, f, Rows(), rows);
      for i := 0 to |rows|
        invariant Rows() == Paint(was, {f} + BelowAny(g, rows[..i]), p)
      {
        var c := rows[i];
        ghost var before := Rows();
        assert c in rows && c in g && g[c] == Some(f);
        PaintKeepsParents(was, {f} + BelowAny(g, rows[..i]), p);
        PaintOneKeepsParents(folders, c, p);
        folders := folders[c := folders[c].(perms := p)];
        BelowShrinks(g, f, c);
        ChildOffCircle(g, f, c);
        ApplyRecursive(c, kids);
        OneChild(was, g, f, rows, i, p, before, Rows());
      }
      assert rows[..|rows|] == rows;
      BelowSplit(g, f, rows);
    }

    /** `kids` answers the queries for children once the folder has moved. Passing permissions down ends if the folder
        is on no circle; one that moves never is, after the move. */
    method UpdateFolder(u: User, f: int, target: Target, patch: Patch, recursive: bool, known: Known,
                        kids: int -> seq<int>)
      returns (r: Outcome)
      requires f in folders && target.Keep? && recursive ==> OffCircle(Parents(folders), f)
      requires f in folders && (target.Under? ==> MayHang(Parents(folders), f, target.p)) ==>
                 IsKids(Parents(Edited(folders, f, target, patch)), kids)
      modifies this
      ensures r == Answer(u, old(folders), f, target, patch, known)
      ensures r == Done ==> Rows() == Changed(old(Rows()), f, target, patch, recursive)
      ensures r != Done ==> Rows() == old(Rows())
      ensures r == Done ==> UpdatedAs(old(Rows()), Rows(), f, target, patch, recursive)
      ensures r == Done <==> LetThrough(u, old(folders), f, target, patch, known)
      ensures r == NotFound <==> f !in old(folders)
      ensures r == Circular ==> target.Under? && (target.p == f || !MayHang(Parents(old(folders)), f, target.p))
    {
      hide UpdatedAs, LetThrough;
      AnswerDone(u, folders, f, target, patch, known);
      if f in folders {
        ChangedUpdates(Rows(), f, target, patch, recursive);
      }
      if f !in folders {
        return NotFound;
      }
      if !u.admin && folders[f].owner != Some(u.id) {
        return Forbidden;
      }
      if target.Under? {
        if target.p == f {
          return Circular;
        }
        if patch.name.To? && NameTaken(folders, f, folders[f].parent, patch.name.value) {
          return DatabaseError;
        }
        var ok := CheckNoCycle(Parents(folders), f, target.p);
        if !ok {
          return Circular;
        }
        if target.p in folders && !u.admin && target.p !in u.writable {
          return Forbidden;
        }
      }
      if !Stored(folders, f, target, patch, known) {
        return DatabaseError;
      }
      ApplyChange(f, target, patch, recursive, kids);
      return Done;
    }

    /** The change of a request that is let through. */
    method ApplyChange(f: int, target: Target, patch: Patch, recursive: bool, kids: int -> seq<int>)
      requires f in folders && (target.Under? ==> MayHang(Parents(folders), f, target.p))
      requires target.Keep? && recursive ==> OffCircle(Parents(folders), f)
      requires IsKids(Parents(Edited(folders, f, target, patch)), kids)
      modifies this
      ensures Rows() == Changed(old(Rows()), f, target, patch, recursive)
    {
      ghost var edited := Edited(folders, f, target, patch);
      EditedOffCircle(folders, f, target, patch);
      folders := Edited(folders, f, target, patch);
      if PermsChanged(patch) {
        ghost var g := Parents(folders);
        var p := Patched(folders[f].perms, patch);
        PaintOneKeepsParents(folders, f, p);
        folders := folders[f := folders[f].(perms := p)];
        if recursive {
          PaintChild(State(edited, docs), g, f, p);
          ApplyRecursive(f, kids);
        } else {
          ApplyToDocs(f);
          assert folders == PaintFolders(edited, {f}, p);
        }
      }
    }

    /** The folder and all below it. */
    method CollectIds(f: int, kids: int -> seq<int>) returns (ids: seq<int>)
      requires f in folders && OffCircle(Parents(folders), f) && IsKids(Parents(folders), kids)
      ensures Collected(Parents(folders), f, ids)
      decreases Below(Parents(folders), f)
    {
      hide OffCircle, BelowAny, Below, Parents;
      ghost var g := Parents(folders);
      ids := [f];
      var rows := kids(f);
      assert ChildrenOf(g, f, rows);
      FirstCollected(folders, f, rows);
      for i := 0 to |rows|
        invariant PartCollected(g, f, rows[..i], ids)
      {
        var c := rows[i];
        assert c in rows && c in g && g[c] == Some(f);
        BelowShrinks(g, f, c);
        ChildOffCircle(g, f, c);
        var sub := CollectIds(c, kids);
        MoreCollected(g, f, rows, i, ids, sub);
        ids := ids + sub;
      }
      assert rows[..|rows|] == rows;
      AllCollected(g, f, rows, ids);
    }

    /** A row goes. No folder hangs below it, so the database has none to remove with it; documents that name it
        name none. */
    method DeleteRow(f: int)
      requires forall x :: x in folders ==> folders[x].parent != Some(f)
      modifies this
      ensures folders == WithoutRows(old(folders), {f}) && docs == Unfiled(old(docs), {f})
    {
      folders := folders - {f};
      docs := map d | d in docs :: if docs[d].folder == Some(f) then docs[d].(folder := None) else docs[d];
    }

    method TrashDocs(f: int, now: int)
      modifies this`docs
      ensures docs == TrashedIn(old(docs), {f}, now)
    {
      docs := map d | d in docs ::
        if docs[d].folder == Some(f) && docs[d].deletedAt.None? then docs[d].(folder := None, deletedAt := Some(now))
          else docs[d];
    }

    method DeleteFolder(u: User, f: int, now: int, kids: int -> seq<int>) returns (r: Outcome)
      requires MayChange(u, folders, f) ==> OffCircle(Parents(folders), f)
      requires IsKids(Parents(folders), kids)
      modifies this
      ensures r == NotFound <==> f !in old(folders)
      ensures r == Forbidden <==> f in old(folders) && !MayChange(u, old(folders), f)
      ensures r in {Done, NotFound, Forbidden} && (r != Done ==> Rows() == old(Rows()))
      ensures r == Done ==> Rows() == Deleted(old(Rows()), f, now)
      ensures r == Done ==> DeletedAs(old(Rows()), Rows(), f, now)
    {
      hide DeletedAs;
      DeletedIsGone(Rows(), f, now);
      if f !in folders {
        return NotFound;
      }
      if !u.admin && folders[f].owner != Some(u.id) {
        return Forbidden;
      }
      var ids := CollectIds(f, kids);
      ghost var was, g := Rows(), Parents(folders);
      hide OffCircle, Collected, Below, TrashedIn, Unfiled, WithoutRows, Ids, Parents;
      NoneGone(was, ids, now);
      for i := 0 to |ids|
        invariant folders == was.folders && docs == TrashedIn(was.docs, Ids(ids[..i]), now)
      {
        TrashDocs(ids[i], now);
        TrashMore(was.docs, ids, i, now);
      }
      assert ids[..|ids|] == ids;
      ghost var trashed := docs;
      for i := |ids| downto 0
        invariant folders == WithoutRows(was.folders, Ids(ids[i..])) && docs == Unfiled(trashed, Ids(ids[i..]))
      {
        NoChildLeft(was.folders, f, ids, i);
        if ids[i] in folders {
          DeleteRow(ids[i]);
        }
        FewerLeft(was.folders, trashed, ids, i);
      }
      assert ids[0..] == ids;
      AllGone(was, f, ids, now);
      return Done;
    }
  }

  function Ids(s: seq<int>): set<int> {
    set i | 0 <= i < |s| :: s[i]
  }

  function WithoutRows(folders: FolderRows, fs: set<int>): FolderRows {
    map x | x in folders && x !in fs :: folders[x]
  }

  /** No document names one of the folders. */
  function Unfiled(docs: DocRows, fs: set<int>): DocRows {
    map d | d in docs ::
      if docs[d].folder.Some? && docs[d].folder.value in fs then docs[d].(folder := None) else docs[d]
  }

  /** The live documents of the folders go to the trash and out of the folders. */
  function TrashedIn(docs: DocRows, fs: set<int>, now: int): DocRows {
    map d | d in docs ::
      if docs[d].folder.Some? && docs[d].folder.value in fs && docs[d].deletedAt.None?
      then docs[d].(folder := None, deletedAt := Some(now)) else docs[d]
  }

  lemma {:induction false} NoneGone(s: State, ids: seq<int>, now: int)
    ensures TrashedIn(s.docs, Ids(ids[..0]), now) == s.docs
    ensures forall docs :: Unfiled(docs, Ids(ids[|ids|..])) == docs
    ensures WithoutRows(s.folders, Ids(ids[|ids|..])) == s.folders
  {
  }

  lemma {:induction false} TrashMore(docs: DocRows, ids: seq<int>, i: nat, now: int)
    requires i < |ids|
    ensures TrashedIn(TrashedIn(docs, Ids(ids[..i]), now), {ids[i]}, now) == TrashedIn(docs, Ids(ids[..i + 1]), now)
  {
    assert Ids(ids[..i + 1]) == Ids(ids[..i]) + {ids[i]} by {
      assert forall k :: 0 <= k < i ==> ids[..i + 1][k] == ids[..i][k];
    }
  }

  lemma {:induction false} LastIds(ids: seq<int>, i: nat)
    requires i < |ids|
    ensures Ids(ids[i..]) == Ids(ids[i + 1..]) + {ids[i]}
  {
    assert ids[i..][0] == ids[i];
    assert forall k :: 0 < k < |ids| - i ==> ids[i..][k] == ids[i + 1..][k - 1];
  }

  lemma {:induction false} FewerLeft(folders: FolderRows, docs: DocRows, ids: seq<int>, i: nat)
    requires i < |ids|
    ensures WithoutRows(WithoutRows(folders, Ids(ids[i + 1..])), {ids[i]}) == WithoutRows(folders, Ids(ids[i..]))
    ensures Unfiled(Unfiled(docs, Ids(ids[i + 1..])), {ids[i]}) == Unfiled(docs, Ids(ids[i..]))
  {
    LastIds(ids, i);
  }

  /** When a row goes it is still there, and the folders below it are gone. */
  lemma {:induction false} NoChildLeft(folders: FolderRows, f: int, ids: seq<int>, i: nat)
    requires OffCircle(Parents(folders), f) && Collected(Parents(folders), f, ids) && f in folders && i < |ids|
    ensures var left := WithoutRows(folders, Ids(ids[i + 1..]));
            ids[i] in left && forall x :: x in left ==> left[x].parent != Some(ids[i])
  {
    var g := Parents(folders);
    assert ids[i] in ids;
    var later := ids[i + 1..];
    forall k | 0 <= k < |later| ensures later[k] != ids[i] {
      assert later[k] == ids[k + i + 1];
    }
    forall x | x in folders && folders[x].parent == Some(ids[i]) ensures x in Ids(ids[i + 1..]) {
      ChildGone(g, f, ids, i, x);
    }
  }

  lemma {:induction false} ChildGone(g: Links, f: int, ids: seq<int>, i: nat, x: int)
    requires OffCircle(g, f) && Collected(g, f, ids) && i < |ids| && x in g && g[x] == Some(ids[i])
    ensures x in Ids(ids[i + 1..])
  {
    assert ids[i] in ids;
    ChainUp(g, x, ids[i], f);
    assert x in Below(g, f);
    var k :| 0 <= k < |ids| && ids[k] == x;
    NotTheFirst(g, f, x);
    assert ParentBefore(g, ids, k);
    var j :| 0 <= j < k && g[ids[k]] == Some(ids[j]);
    assert ids[j] == ids[i];
    assert ids[i + 1..][k - i - 1] == x;
  }

  lemma {:induction false} ChainUp(g: Links, x: int, c: int, f: int)
    requires OnChain(g, c, f) && x in g && g[x] == Some(c)
    ensures OnChain(g, x, f)
  {
    var n: nat :| Up(g, c, n) == Some(f);
    assert Up(g, x, n + 1) == Some(f);
  }

  /** A folder off every circle does not hang below what hangs below it. */
  lemma {:induction false} NotTheFirst(g: Links, f: int, x: int)
    requires OffCircle(g, f) && x in g && g[x].Some? && OnChain(g, g[x].value, f)
    ensures x != f
  {
    var n: nat :| Up(g, g[x].value, n) == Some(f);
    assert Up(g, x, n + 1) == Some(f);
  }

  lemma {:induction false} AllGone(s: State, f: int, ids: seq<int>, now: int)
    requires Collected(Parents(s.folders), f, ids)
    ensures State(WithoutRows(s.folders, Ids(ids)), Unfiled(TrashedIn(s.docs, Ids(ids), now), Ids(ids))) ==
            Deleted(s, f, now)
  {
    var gone := Below(Parents(s.folders), f);
    forall x ensures x in Ids(ids) <==> x in gone {
      assert x in Ids(ids) <==> x in ids;
    }
    assert Ids(ids) == gone;
  }

  lemma {:induction false} MovedStaysForest(folders: FolderRows, f: int, target: Target)
    requires f in folders && Acyclic(Parents(folders))
    requires target.Under? ==> MayHang(Parents(folders), f, target.p)
    ensures Acyclic(Parents(Moved(folders, f, target)))
  {
    var g, h := Parents(folders), Parents(Moved(folders, f, target));
    match target
    case Keep =>
    case Top => FewerAcyclic(h, g);
    case Under(p) =>
      MayHangExactly(g, f, p);
      assert h == g[f := Some(p)];
  }

  lemma {:induction false} EditedStaysForest(folders: FolderRows, f: int, target: Target, patch: Patch)
    requires f in folders && Acyclic(Parents(folders))
    requires target.Under? ==> MayHang(Parents(folders), f, target.p)
    ensures Acyclic(Parents(Edited(folders, f, target, patch)))
  {
    MovedStaysForest(folders, f, target);
    assert Parents(Edited(folders, f, target, patch)) == Parents(Moved(folders, f, target));
  }

  lemma {:induction false} EditedOffCircle(folders: FolderRows, f: int, target: Target, patch: Patch)
    requires f in folders && (target.Under? ==> MayHang(Parents(folders), f, target.p))
    ensures target.Keep? ==> Parents(Edited(folders, f, target, patch)) == Parents(folders)
    ensures !target.Keep? ==> OffCircle(Parents(Edited(folders, f, target, patch)), f)
  {
    var g, h := Parents(folders), Parents(Edited(folders, f, target, patch));
    match target
    case Keep => assert h == g;
    case Top => RootOffCircle(h, f);
    case Under(p) =>
      HungOffCircle(g, f, p);
      assert h == g[f := Some(p)];
  }

  /** `ids` holds the folder and what hangs below some of its children. */
  ghost predicate PartCollected(g: Links, f: int, rows: seq<int>, ids: seq<int>) {
    && ids != [] && ids[0] == f
    && Distinct(ids)
    && (forall x :: x in ids ==> x == f || x in BelowAny(g, rows))
    && (forall x :: x in BelowAny(g, rows) ==> x in ids)
    && forall i :: 0 < i < |ids| ==> ParentBefore(g, ids, i)
  }

  lemma {:induction false} FirstCollected(folders: FolderRows, f: int, rows: seq<int>)
    requires f in folders
    ensures PartCollected(Parents(folders), f, rows[..0], [f]) && Parents(folders).Keys == folders.Keys
  {
  }

  lemma {:induction false} AllCollected(g: Links, f: int, rows: seq<int>, ids: seq<int>)
    requires f in g && ChildrenOf(g, f, rows) && PartCollected(g, f, rows, ids)
    ensures Collected(g, f, ids)
  {
    BelowSplit(g, f, rows);
  }

  lemma {:induction false} MoreCollected(g: Links, f: int, rows: seq<int>, i: nat, ids: seq<int>, sub: seq<int>)
    requires OffCircle(g, f) && ChildrenOf(g, f, rows) && i < |rows|
    requires PartCollected(g, f, rows[..i], ids) && Collected(g, rows[i], sub)
    ensures PartCollected(g, f, rows[..i + 1], ids + sub)
  {
    var c := rows[i];
    var all := ids + sub;
    assert forall d :: d in rows[..i] ==> d in rows;
    assert c in rows && c !in rows[..i];
    ApartFromAll(g, f, rows[..i], c);
    BelowAnyMore(g, rows[..i], c);
    assert rows[..i + 1] == rows[..i] + [c];
    JoinDistinct(ids, sub);
    forall k | 0 < k < |all| ensures ParentBefore(g, all, k) {
      JoinParents(g, f, ids, sub, k);
    }
  }

  lemma {:induction false} JoinDistinct(a: seq<int>, b: seq<int>)
    requires Distinct(a) && Distinct(b) && forall x :: x in a ==> x !in b
    ensures Distinct(a + b)
  {
    var s := a + b;
    forall i, j | 0 <= i < j < |s| ensures s[i] != s[j] {
      if i < |a| <= j {
        assert a[i] in a && b[j - |a|] in b;
      }
    }
  }

  lemma {:induction false} JoinParents(g: Links, f: int, a: seq<int>, b: seq<int>, k: int)
    requires 0 < k < |a| + |b| && a != [] && a[0] == f
    requires forall i :: 0 < i < |a| ==> ParentBefore(g, a, i)
    requires forall i :: 0 < i < |b| ==> ParentBefore(g, b, i)
    requires b != [] ==> b[0] in g && g[b[0]] == Some(f)
    ensures ParentBefore(g, a + b, k)
  {
    var s := a + b;
    if k < |a| {
      assert ParentBefore(g, a, k);
      var j :| 0 <= j < k && a[k] in g && g[a[k]] == Some(a[j]);
      assert s[j] == a[j];
    } else if k == |a| {
      assert s[0] == f;
    } else {
      var m := k - |a|;
      assert ParentBefore(g, b, m);
      var j :| 0 <= j < m && b[m] in g && g[b[m]] == Some(b[j]);
      assert s[j + |a|] == b[j];
    }
  }
}
