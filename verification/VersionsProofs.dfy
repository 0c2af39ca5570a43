/** What the version history keeps over whole runs, and what restoring brings back. */
module VersionsProofs {
  import ChunkText
  import opened Options
  import Text
  import opened Versions

  /** The document as it was when a version was saved. */
  datatype Snapshot = Snapshot(title: string, content: string, bytes: Option<Bytes>, size: Option<int>)

  function Shot(s: State): Snapshot {
    var file := s.doc.file;
    if file.Some? && file.value.path in s.live
    then Snapshot(s.doc.title, s.doc.content, Some(s.live[file.value.path]), Some(file.value.size))
    else Snapshot(s.doc.title, s.doc.content, None, None)
  }

  /** A change from outside the history: another title, text, file record, other live files,
      other chunks or jobs. */
  datatype Change = Change(title: string, content: string, file: Option<FileRecord>, live: map<int, Bytes>,
                           chunks: seq<string>, pending: bool, jobs: seq<Reprocess>)

  function Changed(s: State, c: Change): State {
    s.(doc := s.doc.(title := c.title, content := c.content, file := c.file, chunks := c.chunks, pending := c.pending),
       live := c.live, jobs := c.jobs)
  }

  datatype Event =
    | First            // first saved
    | Edit(c: Change)  // the old state kept if it never was, then the change, then a new version
    | Touch(c: Change) // a change that makes no version
    | Fill(text: string)
    | Restore(n: int)

  /** The history with a snapshot of every version as it was saved. */
  datatype Log = Log(s: State, shots: map<int, Snapshot>)

  function Append(l: Log, n: int): Log {
    Log(Saved(l.s, n), l.shots[n := Shot(l.s)])
  }

  ghost predicate Can(l: Log, e: Event) {
    match e
    case First => l.s.versions == map[]
    case Restore(n) => n in l.s.versions
    case _ => true
  }

  /** The state before an edit is made: version 1 saved if there is none. */
  ghost function Prepared(l: Log, m: int): Log {
    if m == 0 then Append(l, 1) else l
  }

  /** `m` is the largest version number the edit finds. */
  ghost function Edited(l: Log, c: Change, m: int): Log {
    var before := Prepared(l, m);
    var n := if m == 0 then 2 else m + 1;
    var after := Append(before.(s := Changed(before.s, c)), n);
    after.(s := Pointed(after.s, n))
  }

  ghost predicate Step(l: Log, e: Event, k: Log) {
    Can(l, e) &&
    match e
    case First => k == Append(l, 1).(s := Pointed(Append(l, 1).s, 1))
    case Edit(c) => exists m :: IsMaxVersion(l.s, m) && k == Edited(l, c, m)
    case Touch(c) => k == l.(s := Changed(l.s, c))
    case Fill(text) => k == l.(s := Filled(l.s, text))
    case Restore(n) => k == l.(s := Restored(l.s, n))
  }

  // ---------------------------------------------------------------- what every step keeps

  /** The numbers are 1 to `m` without gaps. */
  ghost predicate Numbered(s: State, m: int) {
    m >= 0 && forall n :: n in s.versions <==> 1 <= n <= m
  }

  /** A version is what was saved: its title, its text unless it had none, its file. */
  ghost predicate Faithful(l: Log, n: int)
    requires n in l.s.versions && n in l.shots
  {
    var v, shot := l.s.versions[n], l.shots[n];
    && v.title == shot.title
    && (shot.content != "" ==> v.content == shot.content)
    && v.source.Some? == shot.bytes.Some? == v.size.Some? && v.size == shot.size
    && (v.source.Some? ==>
          v.source.value.number == n && v.source.value in l.s.copies && l.s.copies[v.source.value] == shot.bytes.value)
  }

  ghost predicate Inv(l: Log) {
    && (exists m :: Numbered(l.s, m))
    && l.shots.Keys == l.s.versions.Keys
    && (l.s.versions != map[] ==> l.s.doc.current in l.s.versions)
    && (l.s.versions == map[] ==> l.s.doc.current == 1)
    && (forall n :: n in l.s.versions ==> Faithful(l, n))
  }

  /** A document without versions; its current version starts at 1. */
  predicate Init(l: Log) {
    l.s.versions == map[] && l.shots == map[] && l.s.doc.current == 1
  }

  lemma {:induction false} MaxIsLast(s: State, m: int, k: int)
    requires Numbered(s, m) && IsMaxVersion(s, k)
    ensures k == m
  {
    if m > 0 {
      assert m in s.versions && 1 in s.versions;
    } else {
      assert forall n :: n !in s.versions;
      assert s.versions == map[];
    }
  }

  lemma {:induction false} AppendKeeps(l: Log, m: int)
    requires Numbered(l.s, m) && l.shots.Keys == l.s.versions.Keys && forall n :: n in l.s.versions ==> Faithful(l, n)
    ensures var k := Append(l, m + 1);
            && Numbered(k.s, m + 1) && k.shots.Keys == k.s.versions.Keys
            && (forall n :: n in k.s.versions ==> Faithful(k, n)) && Kept(l, k)
  {
    var k := Append(l, m + 1);
    assert m + 1 !in l.s.versions;
    forall n | n in l.s.versions ensures n in k.s.versions && Faithful(k, n) {
      assert Faithful(l, n);
      assert k.s.versions[n] == l.s.versions[n] && k.shots[n] == l.shots[n];
    }
    assert Faithful(k, m + 1);
  }

  /** What is saved stays: every version keeps its title and its file's bytes, and its text once it has one. */
  ghost predicate Kept(l: Log, k: Log) {
    forall n :: n in l.s.versions ==>
      && n in k.s.versions && n in l.shots && n in k.shots && k.shots[n] == l.shots[n]
      && k.s.versions[n].title == l.s.versions[n].title
      && (l.s.versions[n].content != "" ==> k.s.versions[n].content == l.s.versions[n].content)
      && k.s.versions[n].source == l.s.versions[n].source
      && (l.s.versions[n].source.Some? && l.s.versions[n].source.value in l.s.copies ==>
            l.s.versions[n].source.value in k.s.copies &&
            k.s.copies[l.s.versions[n].source.value] == l.s.copies[l.s.versions[n].source.value])
  }

  lemma {:induction false} EditKeeps(l: Log, c: Change, m: int)
    requires Inv(l) && IsMaxVersion(l.s, m)
    ensures Inv(Edited(l, c, m)) && Kept(l, Edited(l, c, m))
  {
    var last :| Numbered(l.s, last);
    MaxIsLast(l.s, last, m);
    var before := l;
    if m == 0 {
      AppendKeeps(l, 0);
      before := Append(l, 1);
    }
    var n := if m == 0 then 2 else m + 1;
    assert Numbered(before.s, n - 1);
    var changed := before.(s := Changed(before.s, c));
    forall i | i in before.s.versions ensures Faithful(changed, i) {
      assert Faithful(before, i);
    }
    assert Numbered(changed.s, n - 1);
    AppendKeeps(changed, n - 1);
    var after, k := Append(changed, n), Edited(l, c, m);
    assert k == after.(s := Pointed(after.s, n));
    assert Numbered(k.s, n);
    forall i | i in k.s.versions ensures Faithful(k, i) {
      assert Faithful(after, i);
    }
  }

  lemma {:induction false} FirstKeeps(l: Log)
    requires Inv(l) && l.s.versions == map[]
    ensures var k := Append(l, 1).(s := Pointed(Append(l, 1).s, 1)); Inv(k) && Kept(l, k)
  {
    var k := Append(l, 1).(s := Pointed(Append(l, 1).s, 1));
    assert Numbered(l.s, 0);
    AppendKeeps(l, 0);
    assert Numbered(k.s, 1);
    forall i | i in k.s.versions ensures Faithful(k, i) {
      assert Faithful(Append(l, 1), i);
    }
  }

  /** A step that adds no version and changes none but for a text it lacked. */
  lemma {:induction false} SameVersionsKeep(l: Log, t: State)
    requires Inv(l) && t.copies == l.s.copies && t.versions.Keys == l.s.versions.Keys
    requires t.doc.current == l.s.doc.current || t.doc.current in t.versions
    requires forall n :: n in t.versions ==>
               || t.versions[n] == l.s.versions[n]
               || (l.s.versions[n].content == "" && t.versions[n] == l.s.versions[n].(content := t.versions[n].content))
    ensures Inv(l.(s := t)) && Kept(l, l.(s := t))
  {
    var m :| Numbered(l.s, m);
    assert Numbered(t, m);
    forall n | n in t.versions ensures Faithful(l.(s := t), n) {
      assert Faithful(l, n);
    }
  }

  lemma {:induction false} StepKeeps(l: Log, e: Event, k: Log)
    requires Inv(l) && Step(l, e, k)
    ensures Inv(k) && Kept(l, k)
  {
    hide Inv, Kept, Append, Edited;
    match e
    case First => FirstKeeps(l);
    case Edit(c) =>
      var last :| IsMaxVersion(l.s, last) && k == Edited(l, c, last);
      EditKeeps(l, c, last);
    case _ => SameVersionsKeep(l, k.s);
  }

  ghost predicate Run(logs: seq<Log>, es: seq<Event>) {
    |logs| == |es| + 1 && forall i :: 0 <= i < |es| ==> Step(logs[i], es[i], logs[i + 1])
  }

  /** In every run the versions are numbered 1 to the largest without gaps, the document points at one of them once
      there is any, and each version is what was saved. */
  lemma {:induction false} RunInv(logs: seq<Log>, es: seq<Event>, k: nat)
    requires Run(logs, es) && Init(logs[0]) && k < |logs|
    ensures Inv(logs[k])
  {
    if k > 0 {
      RunInv(logs, es, k - 1);
      StepKeeps(logs[k - 1], es[k - 1], logs[k]);
    } else {
      assert Numbered(logs[0].s, 0);
    }
  }

  /** Whatever happens later, a version keeps its title, its bytes, and its text once it has one. */
  lemma {:induction false} RunKeeps(logs: seq<Log>, es: seq<Event>, i: nat, j: nat)
    requires Run(logs, es) && Init(logs[0]) && i <= j < |logs|
    ensures Kept(logs[i], logs[j])
    decreases j
  {
    hide Inv, Kept, Step;
    RunInv(logs, es, i);
    if i < j {
      RunKeeps(logs, es, i, j - 1);
      RunInv(logs, es, j - 1);
      StepKeeps(logs[j - 1], es[j - 1], logs[j]);
      KeptOn(logs[i], logs[j - 1], logs[j]);
    } else {
      KeptSelf(logs[i]);
    }
  }

  lemma {:induction false} KeptOn(l: Log, k: Log, m: Log)
    requires Inv(l) && Kept(l, k) && Kept(k, m)
    ensures Kept(l, m)
  {
    forall n | n in l.s.versions
      ensures l.s.versions[n].source.Some? ==> l.s.versions[n].source.value in l.s.copies
    {
      assert Faithful(l, n);
    }
  }

  lemma {:induction false} KeptSelf(l: Log)
    requires Inv(l)
    ensures Kept(l, l)
  {
  }

  /** Restoring version `n`, at any time, brings back the title, the text if there was any, and the file's bytes as
      they were when it was saved, and makes no new version. Nothing of the newer text is left for search to find, and
      a job is created for the file that came back. */
  lemma {:induction false} RestoreBringsBack(logs: seq<Log>, es: seq<Event>, k: nat, n: int)
    requires Run(logs, es) && Init(logs[0]) && k < |logs| && n in logs[k].s.versions
    ensures n in logs[k].shots
    ensures var s, shot := Restored(logs[k].s, n), logs[k].shots[n];
            && s.doc.title == shot.title && s.doc.current == n && s.versions == logs[k].s.versions
            && (shot.content != "" ==> s.doc.content == shot.content)
            && (logs[k].s.versions[n].content == "" ==> s.doc.content == logs[k].s.doc.content)
            && (shot.bytes.Some? && s.doc.file.Some? ==>
                  && HasFile(s) && s.live[s.doc.file.value.path] == shot.bytes.value
                  && shot.size == Some(s.doc.file.value.size))
            && (shot.bytes.None? ==> s.doc.file == logs[k].s.doc.file && s.live == logs[k].s.live)
            && s.doc.chunks == [] && s.doc.pending && s.jobs == logs[k].s.jobs + [Again(s.doc)]
  {
    RunInv(logs, es, k);
    assert Faithful(logs[k], n);
  }

  /** Filling in gives the text to the document, and to every version that has none and to no other; its chunks are of
      at most 800 characters and overlap by 100. */
  lemma {:induction false} FilledEverywhere(s: State, text: string)
    ensures var t := Filled(s, text);
            && t.doc.content == text && !t.doc.pending && t.doc.title == s.doc.title && t.doc.current == s.doc.current
            && t.versions.Keys == s.versions.Keys
            && (forall n :: n in s.versions && s.versions[n].content == "" ==>
                  t.versions[n] == s.versions[n].(content := text))
            && (forall n :: n in s.versions && s.versions[n].content != "" ==> t.versions[n] == s.versions[n])
            && t.doc.chunks == if Text.Trim(text) == "" then [] else ChunkText.AllChunks(text, 800, 100)
  {
  }

  // ---------------------------------------------------------------- the names of copies

  lemma {:induction false} SafeJoined(a: string, b: string)
    ensures SafeChars(a + b) == SafeChars(a) + SafeChars(b)
  {
    if a == "" {
      assert a + b == b;
    } else {
      SafeJoined(a[1..], b);
      assert (a + b)[1..] == a[1..] + b && (a + b)[0] == a[0];
    }
  }

  /** Character by character: a slash becomes a hyphen, a zero or line end goes, all else stays. */
  lemma {:induction false} SafeCharacter(s: string, c: char)
    ensures SafeChars(s + [c]) == SafeChars(s) + (if c == '/' then "-" else if c in "\0\r\n" then "" else [c])
  {
    SafeJoined(s, [c]);
    assert [c][1..] == "";
  }

  /** A version's copy never lies outside its own directory, and always has a name. */
  lemma {:induction false} SafeNameSafe(s: string)
    ensures SafeName(s) != "" && '/' !in SafeName(s)
    ensures SafeName(s) == if SafeChars(s) == "" then "unnamed" else SafeChars(s)
  {
    SafeCharsSafe(s);
  }

  lemma {:induction false} SafeCharsSafe(s: string)
    ensures '/' !in SafeChars(s)
  {
    if s != "" {
      SafeCharsSafe(s[1..]);
    }
  }

  /** Once the job has filled the text in, every character of it that is no space is in a chunk. */
  lemma {:induction false} FilledIsFound(s: State, text: string, x: nat)
    requires x < |text| && !Text.IsSpace(text[x])
    ensures exists chunk, a, b ::
              chunk in Filled(s, text).doc.chunks && ChunkText.Slice(text, a, b, chunk) && a <= x < b
  {
    ChunkText.NotBlank(text, x);
    ChunkText.ChunksCover(text, CHUNK_SIZE, OVERLAP, x);
  }

  /** An edit is undone by restoring: the version before it is the document as it was, if the document was as its
      current version has it - or had no version at all. The live file must still lie where it lay. */
  lemma {:induction false} EditThenRestore(l: Log, c: Change, m: int)
    requires Inv(l) && IsMaxVersion(l.s, m) && l.s.doc.content != ""
    requires m == 0 || (l.s.doc.current in l.shots && l.shots[l.s.doc.current] == Shot(l.s))
    ensures var k := Edited(l, c, m);
            var n := if m == 0 then 1 else l.s.doc.current;
            && n in k.s.versions
            && var s := Restored(k.s, n);
               s.doc.title == l.s.doc.title && s.doc.content == l.s.doc.content &&
               (HasFile(l.s) && s.doc.file.Some? ==>
                 HasFile(s) && s.live[s.doc.file.value.path] == l.s.live[l.s.doc.file.value.path])
  {
    var k := Edited(l, c, m);
    var last :| Numbered(l.s, last);
    MaxIsLast(l.s, last, m);
    EditKeeps(l, c, m);
    var n := if m == 0 then 1 else l.s.doc.current;
    assert Faithful(k, n);
  }
}
