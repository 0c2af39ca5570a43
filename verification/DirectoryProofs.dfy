/** Inodes over whole runs, and what a directory read in several calls delivers. */
module DirectoryProofs {
  import opened Directory
  import opened Options

  // ---------------------------------------------------------------- inodes

  /** The inodes a sequence of requests gets. */
  function Given(t: Table, keys: seq<Key>): seq<int>
    decreases |keys|
  {
    if keys == [] then [] else [InodeFor(t, keys[0])] + Given(After(t, keys[0]), keys[1..])
  }

  predicate TableOk(t: Table) {
    && (forall k :: k in t.inodeOf ==> t.inodeOf[k] < t.next)
    && (forall j, k :: j in t.inodeOf && k in t.inodeOf && t.inodeOf[j] == t.inodeOf[k] ==> j == k)
  }

  lemma {:induction false} GivenLater(t: Table, keys: seq<Key>, j: nat)
    requires TableOk(t) && j < |keys|
    ensures |Given(t, keys)| == |keys|
    ensures keys[j] in t.inodeOf ==> Given(t, keys)[j] == t.inodeOf[keys[j]]
    ensures keys[j] !in t.inodeOf ==> Given(t, keys)[j] >= t.next
    decreases |keys|
  {
    if |keys| > 1 {
      GivenLater(After(t, keys[0]), keys[1..], if j == 0 then 0 else j - 1);
    }
  }

  /** Two requests get one inode exactly when they ask for one key, and a key asked for the first time gets an inode
      above every one given before: inodes are never reused, whatever has become of the files. */
  lemma {:induction false} InodesForever(t: Table, keys: seq<Key>, i: nat, j: nat)
    requires TableOk(t) && i < j < |keys|
    ensures |Given(t, keys)| == |keys|
    ensures Given(t, keys)[i] == Given(t, keys)[j] <==> keys[i] == keys[j]
    ensures keys[j] !in t.inodeOf && keys[j] !in keys[..j] ==> Given(t, keys)[i] < Given(t, keys)[j]
    decreases |keys|
  {
    var next := After(t, keys[0]);
    if i == 0 {
      FirstInode(t, keys, j);
      assert keys[..j][0] == keys[0];
    } else {
      InodesForever(next, keys[1..], i - 1, j - 1);
      FrontSplit(keys, j);
      GivenLater(t, keys, 0);
    }
  }

  lemma {:induction false} FrontSplit(keys: seq<Key>, j: nat)
    requires 0 < j <= |keys|
    ensures keys[..j] == [keys[0]] + keys[1..][..j - 1]
  {
  }

  lemma {:induction false} FirstInode(t: Table, keys: seq<Key>, j: nat)
    requires TableOk(t) && 0 < j < |keys|
    ensures |Given(t, keys)| == |keys|
    ensures Given(t, keys)[0] == Given(t, keys)[j] <==> keys[0] == keys[j]
    ensures keys[j] !in t.inodeOf && keys[j] != keys[0] ==> Given(t, keys)[0] < Given(t, keys)[j]
  {
    var next := After(t, keys[0]);
    GivenLater(t, keys, 0);
    GivenLater(t, keys, j);
    GivenLater(next, keys[1..], j - 1);
    assert next.inodeOf[keys[0]] == InodeFor(t, keys[0]) < next.next;
  }

  // ---------------------------------------------------------------- a whole scan

  /** One call: the view it met, in the order of the inodes, and how many entries the kernel took at most. */
  datatype Call = Call(es: seq<Entry>, room: nat)

  function Reply(call: Call, start: int, c: Caller, temp: string -> bool): seq<Entry> {
    First(Shown(call.es, start, c, temp), call.room)
  }

  /** Where the next call resumes. */
  function Cursor(out: seq<Entry>, start: int): int {
    if out == [] then start else out[|out| - 1].inode
  }

  function Delivered(calls: seq<Call>, start: int, c: Caller, temp: string -> bool): seq<Entry> {
    if calls == [] then [] else
    var out := Reply(calls[0], start, c, temp);
    out + Delivered(calls[1..], Cursor(out, start), c, temp)
  }

  function CursorAfter(calls: seq<Call>, start: int, c: Caller, temp: string -> bool): int {
    if calls == [] then start else CursorAfter(calls[1..], Cursor(Reply(calls[0], start, c, temp), start), c, temp)
  }

  /** The kernel stops when a call fills less than it would have taken. */
  predicate Finished(calls: seq<Call>, start: int, c: Caller, temp: string -> bool) {
    calls != [] &&
    var out := Reply(calls[0], start, c, temp);
    if |calls| == 1 then |out| < calls[0].room else Finished(calls[1..], Cursor(out, start), c, temp)
  }

  predicate AllAscending(calls: seq<Call>) {
    forall i :: 0 <= i < |calls| ==> Ascending(calls[i].es)
  }

  lemma {:induction false} ReplyAscends(call: Call, start: int, c: Caller, temp: string -> bool)
    requires Ascending(call.es)
    ensures var out := Reply(call, start, c, temp);
            && Ascending(out) && start <= Cursor(out, start)
            && forall i :: 0 <= i < |out| ==> start < out[i].inode <= Cursor(out, start)
  {
    ShownAscends(call.es, start, c, temp);
  }

  /** The inodes delivered strictly grow over all the calls, so no inode is delivered twice. */
  lemma {:induction false} ScanAscends(calls: seq<Call>, start: int, c: Caller, temp: string -> bool)
    requires AllAscending(calls)
    ensures Ascending(Delivered(calls, start, c, temp))
    ensures forall i :: 0 <= i < |Delivered(calls, start, c, temp)| ==>
            Delivered(calls, start, c, temp)[i].inode > start
  {
    if calls != [] {
      ReplyAscends(calls[0], start, c, temp);
      ScanAscends(calls[1..], Cursor(Reply(calls[0], start, c, temp), start), c, temp);
    }
  }

  /** Only entries the caller may see, taken from the view of some call, are delivered. */
  lemma {:induction false} ScanSound(calls: seq<Call>, start: int, c: Caller, temp: string -> bool, e: Entry)
    requires e in Delivered(calls, start, c, temp)
    ensures exists i :: 0 <= i < |calls| && e in calls[i].es && CanSee(e, c) && !temp(e.name)
  {
    var out := Reply(calls[0], start, c, temp);
    if e in out {
      ShownMembers(calls[0].es, start, c, temp, e);
    } else {
      ScanSound(calls[1..], Cursor(out, start), c, temp, e);
      var i :| 0 <= i < |calls[1..]| && e in calls[1..][i].es && CanSee(e, c) && !temp(e.name);
      assert calls[1..][i] == calls[i + 1];
    }
  }

  /** The entry with inode `x` is there for the caller to see. */
  predicate Sees(call: Call, x: int, c: Caller, temp: string -> bool) {
    exists e :: e in call.es && e.inode == x && CanSee(e, c) && !temp(e.name)
  }

  predicate Lists(es: seq<Entry>, x: int) {
    exists i :: 0 <= i < |es| && es[i].inode == x
  }

  /** One call delivers a visible entry, or stops short of it with all its room taken. */
  lemma {:induction false} ReplyReaches(call: Call, start: int, c: Caller, temp: string -> bool, x: int)
    requires Ascending(call.es) && Sees(call, x, c, temp) && start < x
    ensures var out := Reply(call, start, c, temp);
            Lists(out, x) || (|out| == call.room && Cursor(out, start) < x)
  {
    var shown := Shown(call.es, start, c, temp);
    var e :| e in call.es && e.inode == x && CanSee(e, c) && !temp(e.name);
    ShownMembers(call.es, start, c, temp, e);
    ShownAscends(call.es, start, c, temp);
    var i :| 0 <= i < |shown| && shown[i] == e;
    var out := Reply(call, start, c, temp);
    if i < |out| {
      assert out[i].inode == x;
    }
  }

  /** An entry that can be seen in every call of a finished scan is delivered - once, since inodes grow. */
  lemma {:induction false} ScanComplete(calls: seq<Call>, start: int, c: Caller, temp: string -> bool, x: int)
    requires AllAscending(calls) && Finished(calls, start, c, temp) && start < x
    requires forall i :: 0 <= i < |calls| ==> Sees(calls[i], x, c, temp)
    ensures Lists(Delivered(calls, start, c, temp), x)
  {
    var out := Reply(calls[0], start, c, temp);
    var rest := Delivered(calls[1..], Cursor(out, start), c, temp);
    ReplyReaches(calls[0], start, c, temp, x);
    if Lists(out, x) {
      var i :| 0 <= i < |out| && out[i].inode == x;
      assert (out + rest)[i].inode == x;
    } else {
      assert |calls| > 1;
      ScanComplete(calls[1..], Cursor(out, start), c, temp, x);
      var i :| 0 <= i < |rest| && rest[i].inode == x;
      assert (out + rest)[|out| + i].inode == x;
    }
  }

  /** An entry created during the scan has an inode above all those met so far; if it can be seen from call `k` on, it
      is delivered, too. */
  lemma {:induction false} ScanFromCall(calls: seq<Call>, start: int, c: Caller, temp: string -> bool, k: nat, x: int)
    requires AllAscending(calls) && Finished(calls, start, c, temp) && start < x && k < |calls|
    requires forall i, e :: 0 <= i < k && e in calls[i].es ==> e.inode < x
    requires forall i :: k <= i < |calls| ==> Sees(calls[i], x, c, temp)
    ensures Lists(Delivered(calls, start, c, temp), x)
  {
    if k == 0 {
      ScanComplete(calls, start, c, temp, x);
    } else {
      var out := Reply(calls[0], start, c, temp);
      if out != [] {
        var e := out[|out| - 1];
        assert e in Shown(calls[0].es, start, c, temp);
        ShownMembers(calls[0].es, start, c, temp, e);
      }
      ScanFromCall(calls[1..], Cursor(out, start), c, temp, k - 1, x);
      var rest := Delivered(calls[1..], Cursor(out, start), c, temp);
      var i :| 0 <= i < |rest| && rest[i].inode == x;
      assert (out + rest)[|out| + i].inode == x;
    }
  }

  // ---------------------------------------------------------------- listing and looking up

  /** The inode under which a listing from the start shows a name to a caller, if it does. */
  function Listed(view: map<string, Entry>, n: string, c: Caller, temp: string -> bool): Option<int> {
    if n in view && IsShown(view[n], view[n].inode - 1, c, temp) then Some(view[n].inode) else None
  }

  /** Listing and lookup agree on a name, except where a staged file marked deleted hides a saved entry from the listing
      only, and where an entry has a temporary name: that is never listed, but found. */
  lemma {:induction false} LookupAgrees(saved: map<string, Entry>, staged: map<string, Staged>, n: string, c: Caller,
                                        temp: string -> bool)
    ensures var v := View(saved, staged);
            Listed(v, n, c, temp) == Lookup(saved, staged, n, Some(c)) <==>
            && !(n in staged && staged[n].deleted && n in saved && CanSee(saved[n], c))
            && !(n in v && CanSee(v[n], c) && temp(v[n].name))
  {
    var v := View(saved, staged);
    assert n in v <==> ViewAt(saved, staged, n).Some?;
    assert n in v ==> Some(v[n]) == ViewAt(saved, staged, n);
  }

  /** Without a caller to check, lookup finds what the view has, but for the files marked deleted. */
  lemma {:induction false} LookupUnchecked(saved: map<string, Entry>, staged: map<string, Staged>, n: string)
    requires n in staged ==> !staged[n].deleted
    ensures Lookup(saved, staged, n, None) == if n in View(saved, staged) then Some(View(saved, staged)[n].inode)
            else None
  {
    var v := View(saved, staged);
    assert n in v <==> ViewAt(saved, staged, n).Some?;
    assert n in v ==> Some(v[n]) == ViewAt(saved, staged, n);
  }

  /** No staged file of the server is marked deleted, so there they agree exactly on the names that are not temporary or
      that the caller does not see, whatever was saved; and a name that is listed is found. */
  lemma {:induction false} ListingAgrees(fs: FuseServer, saved: map<string, Entry>, parent: int, n: string, c: Caller,
                                         temp: string -> bool)
    requires fs.Valid()
    ensures var staged := In(fs.staged, parent);
            var v := View(saved, staged);
            && (Listed(v, n, c, temp) == Lookup(saved, staged, n, Some(c)) <==>
                !(n in v && CanSee(v[n], c) && temp(v[n].name)))
            && (Listed(v, n, c, temp).Some? ==> Listed(v, n, c, temp) == Lookup(saved, staged, n, Some(c)))
  {
    LookupAgrees(saved, In(fs.staged, parent), n, c, temp);
  }
}
