/** The directory listing of the SMB file system: the inode allocator, files not yet saved, and readdir resuming at an
    inode (backend/app/fuse_server.py). */
module Directory {
  import opened Options

  datatype Kind = Root | Folder | Document | Pending | TempStaging | Special

  datatype Key = Key(kind: Kind, id: string)

  const ROOT_INODE := 1

  /** A file or folder as the listing knows it. */
  datatype Entry = Entry(inode: int, name: string, isDir: bool, owner: int, group: int, groupRead: bool,
                         othersRead: bool, downloadProhibited: bool)

  /** A file in staging. */
  datatype Staged = Staged(inode: int, name: string, parent: int, caller: int, isTemp: bool, deleted: bool)

  datatype Caller = Caller(uid: int, admin: bool, groups: set<int>)

  predicate CanSee(e: Entry, c: Caller) {
    && (e.isDir || !e.downloadProhibited)
    && (c.admin || e.owner == c.uid || (e.groupRead && e.group in c.groups) || e.othersRead)
  }

  // ---------------------------------------------------------------- the merged view

  function StagedEntry(name: string, f: Staged): Entry {
    Entry(f.inode, name, false, f.caller, 0, false, true, false)
  }

  /** What a name stands for: the staged file over the saved entry. */
  function ViewAt(saved: map<string, Entry>, staged: map<string, Staged>, n: string): Option<Entry> {
    if n in staged && staged[n].deleted then None
    else if n in staged && !staged[n].isTemp then Some(StagedEntry(n, staged[n]))
    else if n in saved then Some(saved[n])
    else None
  }

  /** What the folder holds. */
  function View(saved: map<string, Entry>, staged: map<string, Staged>): map<string, Entry> {
    map n | n in saved.Keys + staged.Keys && ViewAt(saved, staged, n).Some? :: ViewAt(saved, staged, n).value
  }

  method MergeStaged(saved: map<string, Entry>, staged: map<string, Staged>) returns (all: map<string, Entry>)
    ensures all == View(saved, staged)
    ensures forall n :: n in all <==>
              || (n in staged && !staged[n].deleted && !staged[n].isTemp)
              || (n in saved && !(n in staged && staged[n].deleted))
    ensures forall n :: n in all ==>
              all[n] == if n in staged && !staged[n].isTemp
                        then Entry(staged[n].inode, n, false, staged[n].caller, 0, false, true, false) else saved[n]
  {
    all := saved;
    var todo := staged.Keys;
    while todo != {}
      invariant todo <= staged.Keys
      invariant forall n :: n in todo ==> (n in all <==> n in saved) && (n in all ==> all[n] == saved[n])
      invariant forall n :: n !in todo ==> (n in all <==> ViewAt(saved, staged, n).Some?)
      invariant forall n :: n in all && n !in todo ==> Some(all[n]) == ViewAt(saved, staged, n)
      decreases todo
    {
      var n :| n in todo;
      todo := todo - {n};
      if staged[n].deleted {
        all := all - {n};
      } else if !staged[n].isTemp {
        all := all[n := StagedEntry(n, staged[n])];
      }
    }
  }

  /** The inode `lookup` finds under a name. */
  function Lookup(saved: map<string, Entry>, staged: map<string, Staged>, name: string,
                  caller: Option<Caller>): Option<int> {
    if name in staged && !staged[name].deleted && !staged[name].isTemp then Some(staged[name].inode)
    else if name in saved && (caller.Some? ==> CanSee(saved[name], caller.value)) then Some(saved[name].inode)
    else None
  }

  // ---------------------------------------------------------------- readdir

  predicate Ascending(es: seq<Entry>) {
    forall i, j :: 0 <= i < j < |es| ==> es[i].inode < es[j].inode
  }

  function InsertByInode(e: Entry, es: seq<Entry>): seq<Entry> {
    if es == [] then [e]
    else if e.inode < es[0].inode then [e] + es
    else [es[0]] + InsertByInode(e, es[1..])
  }

  lemma {:induction false} InsertMembers(e: Entry, es: seq<Entry>, x: Entry)
    ensures x in InsertByInode(e, es) <==> x == e || x in es
  {
    if es != [] && e.inode >= es[0].inode {
      InsertMembers(e, es[1..], x);
    }
  }

  lemma {:induction false} InsertAscends(e: Entry, es: seq<Entry>)
    requires Ascending(es) && forall i :: 0 <= i < |es| ==> es[i].inode != e.inode
    ensures Ascending(InsertByInode(e, es))
    ensures forall i :: 0 <= i < |InsertByInode(e, es)| ==>
              InsertByInode(e, es)[i].inode == e.inode || (es != [] && es[0].inode <= InsertByInode(e, es)[i].inode)
  {
    if es != [] && e.inode >= es[0].inode {
      InsertAscends(e, es[1..]);
    }
  }

  predicate DistinctInodes(all: map<string, Entry>) {
    forall m, n :: m in all && n in all && m != n ==> all[m].inode != all[n].inode
  }

  /** sorted(entries, key=inode) */
  method SortByInode(all: map<string, Entry>) returns (es: seq<Entry>)
    requires DistinctInodes(all)
    ensures Ascending(es) && forall x :: x in es <==> x in all.Values
  {
    es := [];
    var todo := all.Keys;
    while todo != {}
      invariant todo <= all.Keys
      invariant Ascending(es)
      invariant forall x :: x in es <==> exists n :: n in all && n !in todo && all[n] == x
      decreases todo
    {
      var n :| n in todo;
      forall i | 0 <= i < |es| ensures es[i].inode != all[n].inode {
        var x := es[i];
        assert x in es;
      }
      InsertAscends(all[n], es);
      ghost var before, left := es, todo - {n};
      es := InsertByInode(all[n], es);
      forall x ensures x in es <==> exists m :: m in all && m !in left && all[m] == x {
        InsertMembers(all[n], before, x);
        if x == all[n] {
          assert n in all && n !in left;
        }
      }
      todo := todo - {n};
    }
  }

  /** The entries a caller is shown, in the order given; `temp` tells temporary names. */
  function Shown(es: seq<Entry>, start: int, c: Caller, temp: string -> bool): seq<Entry> {
    if es == [] then [] else
    (if IsShown(es[0], start, c, temp) then [es[0]] else []) + Shown(es[1..], start, c, temp)
  }

  function First(es: seq<Entry>, n: nat): seq<Entry> {
    if n < |es| then es[..n] else es
  }

  lemma {:induction false} ShownStep(given: seq<Entry>, es: seq<Entry>, i: nat, start: int, c: Caller,
                                     temp: string -> bool)
    requires i < |es|
    ensures given + Shown(es[i..], start, c, temp) ==
            (if IsShown(es[i], start, c, temp) then given + [es[i]] else given) + Shown(es[i + 1..], start, c, temp)
  {
    var rest := Shown(es[i + 1..], start, c, temp);
    assert es[i..][0] == es[i] && es[i..][1..] == es[i + 1..];
    assert given + ([es[i]] + rest) == given + [es[i]] + rest && [] + rest == rest;
  }

  lemma {:induction false} FirstOf(out: seq<Entry>, rest: seq<Entry>)
    ensures First(out + rest, |out|) == out
    ensures forall room: nat :: |out| <= room ==> First(out, room) == out
  {
  }

  /** The kernel takes `room` entries and refuses the next. */
  method Reply(entries: seq<Entry>, start: int, c: Caller, temp: string -> bool, room: nat) returns (out: seq<Entry>)
    ensures out == First(Shown(entries, start, c, temp), room)
  {
    hide Shown, First, CanSee;
    out := [];
    assert entries[0..] == entries && [] + Shown(entries, start, c, temp) == Shown(entries, start, c, temp);
    for i := 0 to |entries|
      invariant |out| <= room && out + Shown(entries[i..], start, c, temp) == Shown(entries, start, c, temp)
    {
      var e := entries[i];
      ShownStep(out, entries, i, start, c, temp);
      if e.inode > start && !temp(e.name) && CanSee(e, c) {
        if |out| == room {
          FirstOf(out, Shown(entries[i..], start, c, temp));
          return;
        }
        out := out + [e];
      }
    }
    NoneShown(entries, start, c, temp);
    FirstOf(out, []);
    assert out + [] == out;
  }

  lemma {:induction false} NoneShown(es: seq<Entry>, start: int, c: Caller, temp: string -> bool)
    ensures Shown(es[|es|..], start, c, temp) == []
  {
  }

  predicate IsShown(e: Entry, start: int, c: Caller, temp: string -> bool) {
    e.inode > start && !temp(e.name) && CanSee(e, c)
  }

  lemma {:induction false} ShownMembers(es: seq<Entry>, start: int, c: Caller, temp: string -> bool, e: Entry)
    ensures e in Shown(es, start, c, temp) <==> e in es && IsShown(e, start, c, temp)
  {
    if es != [] {
      ShownMembers(es[1..], start, c, temp, e);
    }
  }

  lemma {:induction false} ShownAscends(es: seq<Entry>, start: int, c: Caller, temp: string -> bool)
    requires Ascending(es)
    ensures Ascending(Shown(es, start, c, temp))
    ensures forall i :: 0 <= i < |Shown(es, start, c, temp)| ==> Shown(es, start, c, temp)[i].inode > start
  {
    if es != [] {
      var rest := Shown(es[1..], start, c, temp);
      ShownAscends(es[1..], start, c, temp);
      forall i | 0 <= i < |rest| ensures es[0].inode < rest[i].inode {
        var e := rest[i];
        assert e in rest;
        ShownMembers(es[1..], start, c, temp, e);
        var k :| 0 <= k < |es[1..]| && es[1..][k] == e;
        assert es[k + 1] == e;
      }
    }
  }

  lemma {:induction false} FirstShown(es: seq<Entry>, start: int, c: Caller, temp: string -> bool, room: nat)
    requires Ascending(es)
    ensures var out := First(Shown(es, start, c, temp), room);
            && |out| <= room && Ascending(out)
            && (forall e :: e in out ==> e in es && IsShown(e, start, c, temp))
            && forall e :: e in es && IsShown(e, start, c, temp) && e !in out ==>
                 |out| == room && forall x :: x in out ==> x.inode < e.inode
  {
    var shown := Shown(es, start, c, temp);
    var out := First(shown, room);
    ShownAscends(es, start, c, temp);
    forall e ensures e in shown <==> e in es && IsShown(e, start, c, temp) {
      ShownMembers(es, start, c, temp, e);
    }
    forall e | e in shown && e !in out ensures |out| == room && forall x :: x in out ==> x.inode < e.inode {
      var k :| 0 <= k < |shown| && shown[k] == e;
      assert k >= |out| by { assert forall i :: 0 <= i < |out| ==> out[i] == shown[i]; }
    }
  }

  /** One call of readdir gives the visible entries above the cursor in the order of their inodes, as many as there is
      room for. `es` is the merged view in that order. */
  method Readdir(saved: map<string, Entry>, staged: map<string, Staged>, c: Caller, temp: string -> bool, start: int,
                 room: nat)
    returns (out: seq<Entry>, ghost es: seq<Entry>)
    requires DistinctInodes(View(saved, staged))
    ensures Ascending(es) && forall x :: x in es <==> x in View(saved, staged).Values
    ensures out == First(Shown(es, start, c, temp), room)
    ensures |out| <= room && Ascending(out)
    ensures forall e :: e in out ==> e in View(saved, staged).Values && IsShown(e, start, c, temp)
    ensures forall e :: e in View(saved, staged).Values ==>
              (IsShown(e, start, c, temp) <==>
               && e.inode > start && !temp(e.name) && (e.isDir || !e.downloadProhibited)
               && (c.admin || e.owner == c.uid || (e.groupRead && e.group in c.groups) || e.othersRead))
    ensures forall e :: e in View(saved, staged).Values && IsShown(e, start, c, temp) && e !in out ==>
              |out| == room && forall x :: x in out ==> x.inode < e.inode
  {
    var all := MergeStaged(saved, staged);
    var entries := SortByInode(all);
    es := entries;
    out := Reply(entries, start, c, temp, room);
    FirstShown(entries, start, c, temp, room);
  }

  // ---------------------------------------------------------------- inodes and staged files

  /** The allocator's state, as far as inodes go. */
  datatype Table = Table(next: int, inodeOf: map<Key, int>)

  function InodeFor(t: Table, k: Key): int {
    if k in t.inodeOf then t.inodeOf[k] else t.next
  }

  /** The table after asking for the inode of `k`. */
  function After(t: Table, k: Key): Table {
    if k in t.inodeOf then t else Table(t.next + 1, t.inodeOf[k := t.next])
  }

  type StagedFiles = map<int, map<string, Staged>>

  function In(staged: StagedFiles, parent: int): map<string, Staged> {
    if parent in staged then staged[parent] else map[]
  }

  function Put(staged: StagedFiles, parent: int, name: string, f: Staged): StagedFiles {
    staged[parent := In(staged, parent)[name := f]]
  }

  function Drop(staged: StagedFiles, parent: int, name: string): StagedFiles {
    staged[parent := In(staged, parent) - {name}]
  }

  /** The file staged in a folder under a name, if there is one. */
  function At(staged: StagedFiles, parent: int, name: string): Option<Staged> {
    if parent in staged && name in staged[parent] then Some(staged[parent][name]) else None
  }

  /** Under all other names the same files are staged as before. */
  ghost predicate ElsewhereSame(before: StagedFiles, after: StagedFiles, names: set<(int, string)>) {
    forall p, m :: (p, m) !in names ==> At(after, p, m) == At(before, p, m)
  }

  lemma {:induction false} PutAt(staged: StagedFiles, parent: int, name: string, f: Staged)
    ensures At(Put(staged, parent, name, f), parent, name) == Some(f)
    ensures ElsewhereSame(staged, Put(staged, parent, name, f), {(parent, name)})
  {
  }

  lemma {:induction false} DropAt(staged: StagedFiles, parent: int, name: string)
    ensures At(Drop(staged, parent, name), parent, name) == None
    ensures ElsewhereSame(staged, Drop(staged, parent, name), {(parent, name)})
  {
  }

  /** Staged files carry inodes of their own kind, each in one place only; none is marked deleted. */
  ghost predicate StagedOk(staged: StagedFiles, keyOf: map<int, Key>) {
    && (forall p, n :: n in In(staged, p) ==>
          && !In(staged, p)[n].deleted
          && In(staged, p)[n].inode in keyOf
          && keyOf[In(staged, p)[n].inode].kind in {Pending, TempStaging})
    && (forall p, n, q, m ::
          n in In(staged, p) && m in In(staged, q) && In(staged, p)[n].inode == In(staged, q)[m].inode ==>
          p == q && n == m)
  }

  class FuseServer {
    var next: int
    var keyOf: map<int, Key>
    var inodeOf: map<Key, int>
    var parentOf: map<int, int>
    var staged: StagedFiles

    /** Inodes and keys name each other, and every inode given is below the next one. */
    ghost predicate Valid()
      reads this
    {
      && ROOT_INODE < next && ROOT_INODE in keyOf
      && (forall i :: i in keyOf ==> ROOT_INODE <= i < next && keyOf[i] in inodeOf && inodeOf[keyOf[i]] == i)
      && (forall k :: k in inodeOf ==> inodeOf[k] in keyOf && keyOf[inodeOf[k]] == k)
      && StagedOk(staged, keyOf)
    }

    constructor ()
      ensures Valid() && next == 2 && keyOf == map[ROOT_INODE := Key(Root, "")] && staged == map[]
    {
      next, parentOf, staged := 2, map[], map[];
      keyOf, inodeOf := map[ROOT_INODE := Key(Root, "")], map[Key(Root, "") := ROOT_INODE];
    }

    /** The inode of a key, a new one if it has none yet. */
    method GetOrAlloc(key: Key, parent: int) returns (ino: int)
      requires Valid()
      modifies this
      ensures Valid() && staged == old(staged)
      ensures ino in keyOf && keyOf[ino] == key
      ensures ino == InodeFor(Table(old(next), old(inodeOf)), key)
      ensures Table(next, inodeOf) == After(Table(old(next), old(inodeOf)), key)
      ensures keyOf == old(keyOf)[ino := key]
      ensures key in old(inodeOf) ==> ino == old(inodeOf)[key] && next == old(next) && inodeOf == old(inodeOf)
      ensures key !in old(inodeOf) ==> ino == old(next) && next == ino + 1 && inodeOf == old(inodeOf)[key := ino]
      ensures parentOf == if parent != 0 then old(parentOf)[ino := parent] else old(parentOf)
    {
      if key in inodeOf {
        ino := inodeOf[key];
      } else {
        ino := next;
        next := next + 1;
        keyOf := keyOf[ino := key];
        inodeOf := inodeOf[key := ino];
      }
      if parent != 0 {
        parentOf := parentOf[ino := parent];
      }
    }

    /** A new file in staging; `id` is a fresh unique id. */
    method Create(parent: int, name: string, caller: int, isTemp: bool, id: string) returns (ino: int)
      requires Valid() && Key(if isTemp then TempStaging else Pending, id) !in inodeOf
      modifies this
      ensures Valid() && ino == old(next)
      ensures staged == Put(old(staged), parent, name, Staged(ino, name, parent, caller, isTemp, false))
      ensures At(staged, parent, name) == Some(Staged(ino, name, parent, caller, isTemp, false))
      ensures ElsewhereSame(old(staged), staged, {(parent, name)})
      ensures next == ino + 1 && keyOf == old(keyOf)[ino := Key(if isTemp then TempStaging else Pending, id)]
      ensures forall i :: i in old(keyOf) ==> i in keyOf && keyOf[i] == old(keyOf)[i]
    {
      ino := GetOrAlloc(Key(if isTemp then TempStaging else Pending, id), parent);
      PutOk(staged, keyOf, parent, name, Staged(ino, name, parent, caller, isTemp, false));
      PutAt(staged, parent, name, Staged(ino, name, parent, caller, isTemp, false));
      staged := Put(staged, parent, name, Staged(ino, name, parent, caller, isTemp, false));
    }

    /** Drops a staged file; tells whether there was one. */
    method UnlinkStaged(parent: int, name: string) returns (found: bool)
      requires Valid()
      modifies this`staged
      ensures Valid() && found == (name in In(old(staged), parent))
      ensures staged == if found then Drop(old(staged), parent, name) else old(staged)
      ensures found <==> At(old(staged), parent, name).Some?
      ensures At(staged, parent, name) == None && ElsewhereSame(old(staged), staged, {(parent, name)})
    {
      found := name in In(staged, parent);
      if found {
        DropOk(staged, keyOf, parent, name);
        DropAt(staged, parent, name);
        staged := Drop(staged, parent, name);
      }
    }

    /** Moves a staged file to another folder or name; tells whether there was one. */
    method RenameStaged(parent: int, name: string, newParent: int, newName: string) returns (found: bool)
      requires Valid()
      modifies this`staged
      ensures Valid() && found == (name in In(old(staged), parent))
      ensures staged == if found then Put(Drop(old(staged), parent, name), newParent, newName,
                                          In(old(staged), parent)[name].(name := newName, parent := newParent))
                        else old(staged)
      ensures found <==> At(old(staged), parent, name).Some?
      ensures found ==> var f := At(old(staged), parent, name).value;
                        At(staged, newParent, newName) == Some(f.(name := newName, parent := newParent))
      ensures found && (parent, name) != (newParent, newName) ==> At(staged, parent, name) == None
      ensures ElsewhereSame(old(staged), staged, {(parent, name), (newParent, newName)})
    {
      found := name in In(staged, parent);
      if found {
        var f := staged[parent][name].(name := newName, parent := newParent);
        DropOk(staged, keyOf, parent, name);
        DropAt(staged, parent, name);
        staged := Drop(staged, parent, name);
        PutOk(staged, keyOf, newParent, newName, f);
        PutAt(staged, newParent, newName, f);
        staged := Put(staged, newParent, newName, f);
      }
    }

    /** The saved entries of a folder, as loaded at some time or other: documents and folders, each under one name. */
    ghost predicate SavedOk(saved: map<string, Entry>)
      reads this
    {
      && (forall n :: n in saved ==>
            saved[n].name == n && saved[n].inode in keyOf && keyOf[saved[n].inode].kind in {Folder, Document})
      && DistinctInodes(saved)
    }

    /** So one call of readdir never meets one inode under two names, nor one that is yet to be given. */
    lemma {:induction false} ViewDistinct(saved: map<string, Entry>, parent: int)
      requires Valid() && SavedOk(saved)
      ensures var v := View(saved, In(staged, parent));
              DistinctInodes(v) && forall n :: n in v ==> v[n].name == n && ROOT_INODE <= v[n].inode < next
    {
      var files := In(staged, parent);
      var v := View(saved, files);
      forall n | n in v
        ensures v[n].name == n && v[n].inode in keyOf
        ensures keyOf[v[n].inode].kind in {Pending, TempStaging} <==> n in files && !files[n].isTemp
      {
        assert Some(v[n]) == ViewAt(saved, files, n);
      }
    }
  }

  lemma {:induction false} DropOk(staged: StagedFiles, keyOf: map<int, Key>, parent: int, name: string)
    requires StagedOk(staged, keyOf)
    ensures StagedOk(Drop(staged, parent, name), keyOf)
    ensures name in In(staged, parent) ==> forall q, m :: m in In(Drop(staged, parent, name), q) ==>
              In(Drop(staged, parent, name), q)[m].inode != In(staged, parent)[name].inode
  {
    var after := Drop(staged, parent, name);
    assert forall q, m :: m in In(after, q) ==>
      m in In(staged, q) && In(after, q)[m] == In(staged, q)[m] && (q, m) != (parent, name);
  }

  lemma {:induction false} PutOk(staged: StagedFiles, keyOf: map<int, Key>, parent: int, name: string, f: Staged)
    requires StagedOk(staged, keyOf) && !f.deleted && f.inode in keyOf && keyOf[f.inode].kind in {Pending, TempStaging}
    requires forall q, m :: m in In(staged, q) ==> In(staged, q)[m].inode != f.inode
    ensures StagedOk(Put(staged, parent, name, f), keyOf)
  {
    var after := Put(staged, parent, name, f);
    assert forall q, m :: m in In(after, q) && (q, m) != (parent, name) ==>
      m in In(staged, q) && In(after, q)[m] == In(staged, q)[m];
    assert In(after, parent)[name] == f;
  }
}
