/** What the folder operations keep over whole runs: a forest with no dangling link. */
module FoldersProofs {
  import opened Folders
  import opened Forest
  import opened Options

  /** The links are a forest, no folder or document names a folder that is not there, and no folder has two folders of
      one name in it. */
  ghost predicate Sound(s: State) {
    Acyclic(Parents(s.folders)) && Linked(s) && NamesUnique(s.folders)
  }

  /** The requests that change folders, and the filing of a document by any other part of the program. */
  datatype Event =
    | Create(u: User, id: int, name: string, parent: Option<int>)
    | Change(u: User, f: int, target: Target, patch: Patch, recursive: bool, known: Known)
    | Delete(u: User, f: int, now: int)
    | File(d: int, doc: Doc)

  /** The rows after a request; they stay as they are if it is refused. */
  ghost function Next(s: State, e: Event): State {
    match e
    case Create(u, id, name, parent) =>
      if id !in s.folders && CreateAnswer(u, s.folders, id, name, parent) == Done then Created(s, u, id, name, parent)
        else s
    case Change(u, f, target, patch, recursive, known) =>
      if Answer(u, s.folders, f, target, patch, known) == Done then Changed(s, f, target, patch, recursive) else s
    case Delete(u, f, now) =>
      if MayChange(u, s.folders, f) then Deleted(s, f, now) else s
    case File(d, doc) =>
      if doc.folder.Some? ==> doc.folder.value in s.folders then s.(docs := s.docs[d := doc]) else s
  }

  ghost function After(s: State, events: seq<Event>): State
    decreases |events|
  {
    if events == [] then s else After(Next(s, events[0]), events[1..])
  }

  lemma {:induction false} CreateSound(s: State, id: int, folder: Folder)
    requires Sound(s) && id !in s.folders && (folder.parent.Some? ==> folder.parent.value in s.folders)
    requires !NameTaken(s.folders, id, folder.parent, folder.name)
    ensures Sound(State(s.folders[id := folder], s.docs))
  {
    var g, t := Parents(s.folders), s.folders[id := folder];
    var h := Parents(t);
    if folder.parent.Some? {
      NotAbove(s, folder.parent.value, id);
      LinkAcyclic(g, id, folder.parent.value);
      assert h == g[id := folder.parent];
    } else {
      FewerAcyclic(h, g);
    }
    RowUnique(s.folders, id, folder);
  }

  lemma {:induction false} RowUnique(folders: FolderRows, f: int, row: Folder)
    requires NamesUnique(folders) && !NameTaken(folders, f, row.parent, row.name)
    ensures NamesUnique(folders[f := row])
  {
    var after := folders[f := row];
    forall x | x in after ensures !NameTaken(after, x, after[x].parent, after[x].name) {
      forall y | y in after && y != x && after[y].parent == after[x].parent && after[y].name == after[x].name
        ensures after[x].parent == None
      {
        if x != f && y != f {
          assert !NameTaken(folders, x, folders[x].parent, folders[x].name);
        }
      }
    }
  }

  /** In a state without dangling links no chain reaches a folder that is not there. */
  lemma {:induction false} NotAbove(s: State, p: int, id: int)
    requires Linked(s) && p in s.folders && id !in s.folders
    ensures !OnChain(Parents(s.folders), p, id)
  {
    forall n: nat ensures Up(Parents(s.folders), p, n) != Some(id) {
      ChainThere(s, p, n);
    }
  }

  lemma {:induction false} ChainThere(s: State, p: int, n: nat)
    requires Linked(s) && p in s.folders
    ensures Up(Parents(s.folders), p, n).Some? ==> Up(Parents(s.folders), p, n).value in s.folders
    decreases n
  {
    if n > 0 && s.folders[p].parent.Some? {
      ChainThere(s, s.folders[p].parent.value, n - 1);
    }
  }

  lemma {:induction false} ChangeSound(s: State, u: User, f: int, target: Target, patch: Patch, recursive: bool,
                                       known: Known)
    requires Sound(s) && Answer(u, s.folders, f, target, patch, known) == Done
    ensures Sound(Changed(s, f, target, patch, recursive))
  {
    var edited := Edited(s.folders, f, target, patch);
    EditedStaysForest(s.folders, f, target, patch);
    assert edited == s.folders[f := edited[f]];
    RowUnique(s.folders, f, edited[f]);
    assert Linked(State(edited, s.docs));
    var p := Patched(edited[f].perms, patch);
    var reach := if recursive then Below(Parents(edited), f) else {f};
    PaintSound(State(edited, s.docs), reach, p);
  }

  /** Passing permissions on changes no link and no name. */
  lemma {:induction false} PaintSound(s: State, fs: set<int>, p: Perms)
    requires Sound(s)
    ensures Sound(Paint(s, fs, p))
  {
    PaintKeepsParents(s, fs, p);
    var t := Paint(s, fs, p).folders;
    forall x | x in t ensures !NameTaken(t, x, t[x].parent, t[x].name) {
      assert !NameTaken(s.folders, x, s.folders[x].parent, s.folders[x].name);
    }
  }

  /** Deletion leaves no folder and no document with a link to a folder that is gone. */
  lemma {:induction false} DeleteSound(s: State, f: int, now: int)
    requires Sound(s)
    ensures Sound(Deleted(s, f, now))
  {
    var g, t := Parents(s.folders), Deleted(s, f, now);
    FewerAcyclic(Parents(t.folders), g);
    forall x | x in t.folders && t.folders[x].parent.Some? ensures t.folders[x].parent.value in t.folders {
      var p := t.folders[x].parent.value;
      if OnChain(g, p, f) {
        ChainUp(g, x, p, f);
      }
      assert x !in Below(g, f);
      assert g[x] == Some(p);
    }
  }

  lemma {:induction false} NextSound(s: State, e: Event)
    requires Sound(s)
    ensures Sound(Next(s, e))
  {
    match e
    case Create(u, id, name, parent) =>
      if id !in s.folders && CreateAnswer(u, s.folders, id, name, parent) == Done {
        CreateSound(s, id, Created(s, u, id, name, parent).folders[id]);
      }
    case Change(u, f, target, patch, recursive, known) =>
      if Answer(u, s.folders, f, target, patch, known) == Done {
        ChangeSound(s, u, f, target, patch, recursive, known);
      }
    case Delete(u, f, now) =>
      DeleteSound(s, f, now);
    case File(d, doc) =>
  }

  /** Over every run of requests the folders stay a forest without dangling links. */
  lemma {:induction false} RunSound(s: State, events: seq<Event>)
    requires Sound(s)
    ensures Sound(After(s, events))
    ensures var t := After(s, events);
            && (forall f :: f in t.folders && t.folders[f].parent.Some? ==> t.folders[f].parent.value in t.folders)
            && (forall d :: d in t.docs && t.docs[d].folder.Some? ==> t.docs[d].folder.value in t.folders)
            && forall f, x :: f in t.folders && x in t.folders && f != x ==> Apart(t.folders[f], t.folders[x])
    decreases |events|
  {
    if events != [] {
      NextSound(s, events[0]);
      RunSound(Next(s, events[0]), events[1..]);
    } else {
      NamesApart(s.folders);
    }
  }

  /** Two folders in one folder differ in name. */
  predicate Apart(f: Folder, x: Folder) {
    f.parent.Some? && f.parent == x.parent ==> f.name != x.name
  }

  lemma {:induction false} NamesApart(folders: FolderRows)
    requires NamesUnique(folders)
    ensures forall f, x :: f in folders && x in folders && f != x ==> Apart(folders[f], folders[x])
  {
    forall f, x | f in folders && x in folders && f != x ensures Apart(folders[f], folders[x]) {
      assert !NameTaken(folders, x, folders[x].parent, folders[x].name);
    }
  }
}
