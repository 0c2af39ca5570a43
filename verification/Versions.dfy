/** The version history of one document: snapshots, edits, text filled in later, and restoring
    (backend/app/services/versioning.py). */
module Versions {
  import opened ChunkText
  import opened Options
  import Text

  type Bytes = seq<int>

  /** The live file of the document: where it lies, its name, its recorded size. */
  datatype FileRecord = FileRecord(path: int, name: string, size: int)

  /** A version's own copy of the file, under versions/<document>/<number>/<name>. */
  datatype Copy = Copy(number: int, name: string)

  datatype Version = Version(title: string, content: string, source: Option<Copy>, size: Option<int>)

  /** `chunks` are what search finds; `pending` says that they are still to be made. */
  datatype Doc = Doc(title: string, content: string, current: int, file: Option<FileRecord>, chunks: seq<string>,
                     pending: bool)

  /** A job that is to extract the text of a file again. */
  datatype Reprocess = Reprocess(path: Option<int>, name: string)

  /** The document, its versions, the files on disk - live ones by path, version copies by number and name - and the
      jobs created for it. */
  datatype State = State(doc: Doc, versions: map<int, Version>, live: map<int, Bytes>, copies: map<Copy, Bytes>,
                         jobs: seq<Reprocess>)

  const CHUNK_SIZE := 800
  const OVERLAP := 100

  /** chunk_text(text) */
  function ChunksOf(text: string): seq<string> {
    if Text.Trim(text) == "" then [] else AllChunks(text, CHUNK_SIZE, OVERLAP)
  }

  datatype Outcome = Done | NotFound | Conflict

  predicate Safe(c: char) {
    c != '\0' && c != '\r' && c != '\n'
  }

  function SafeChars(s: string): string {
    if s == "" then ""
    else (if s[0] == '/' then "-" else if Safe(s[0]) then [s[0]] else "") + SafeChars(s[1..])
  }

  /** sanitize_filename */
  function SafeName(s: string): string {
    if SafeChars(s) == "" then "unnamed" else SafeChars(s)
  }

  /** There is a file to copy. */
  predicate HasFile(s: State) {
    s.doc.file.Some? && s.doc.file.value.path in s.live
  }

  /** The state with version `n` saved from the document as it is. */
  function Saved(s: State, n: int): State {
    if HasFile(s) then
      var f := s.doc.file.value;
      var c := Copy(n, SafeName(f.name));
      s.(versions := s.versions[n := Version(s.doc.title, s.doc.content, Some(c), Some(f.size))],
         copies := s.copies[c := s.live[f.path]])
    else
      s.(versions := s.versions[n := Version(s.doc.title, s.doc.content, None, None)])
  }

  function Pointed(s: State, n: int): State {
    s.(doc := s.doc.(current := n))
  }

  /** The largest version number, 0 if there is none. */
  predicate IsMaxVersion(s: State, m: int) {
    if s.versions == map[] then m == 0 else m in s.versions && forall n :: n in s.versions ==> n <= m
  }

  /** The job that extracts the document's text again. */
  function Again(doc: Doc): Reprocess {
    if doc.file.Some? then Reprocess(Some(doc.file.value.path), doc.file.value.name) else Reprocess(None, doc.title)
  }

  /** The version's copy is there, and a live file to take it. */
  predicate FileBack(file: Option<FileRecord>, v: Version, copies: map<Copy, Bytes>) {
    v.source.Some? && v.source.value in copies && file.Some?
  }

  function FileAfter(file: Option<FileRecord>, v: Version, copies: map<Copy, Bytes>): Option<FileRecord> {
    if FileBack(file, v, copies) && v.size.Some? then Some(file.value.(size := v.size.value)) else file
  }

  function LiveAfter(live: map<int, Bytes>, file: Option<FileRecord>, v: Version, copies: map<Copy, Bytes>)
    : map<int, Bytes>
  {
    if FileBack(file, v, copies) then live[file.value.path := copies[v.source.value]] else live
  }

  function Restored(s: State, n: int): State
    requires n in s.versions
  {
    var v := s.versions[n];
    var content := if v.content != "" then v.content else s.doc.content;
    var doc := Doc(v.title, content, n, FileAfter(s.doc.file, v, s.copies), [], true);
    s.(doc := doc, live := LiveAfter(s.live, s.doc.file, v, s.copies), jobs := s.jobs + [Again(doc)])
  }

  /** What `after` has of version `n`: its title, its text unless it had none, its file with the recorded size if there
      is a live file to take it; no chunks, and one job more. The versions and their copies stay. */
  ghost predicate BroughtBack(before: State, after: State, n: int)
    requires n in before.versions
  {
    var v, doc := before.versions[n], after.doc;
    && doc.title == v.title && doc.current == n && doc.chunks == [] && doc.pending
    && (v.content != "" ==> doc.content == v.content) && (v.content == "" ==> doc.content == before.doc.content)
    && after.versions == before.versions && after.copies == before.copies
    && (if v.source.Some? && v.source.value in before.copies && before.doc.file.Some? then
          && after.live == before.live[before.doc.file.value.path := before.copies[v.source.value]]
          && doc.file.Some? && doc.file.value.path == before.doc.file.value.path
          && doc.file.value.name == before.doc.file.value.name
          && (v.size.Some? ==> doc.file.value.size == v.size.value)
          && (v.size.None? ==> doc.file.value.size == before.doc.file.value.size)
        else after.live == before.live && doc.file == before.doc.file)
    && |after.jobs| == |before.jobs| + 1 && after.jobs[..|before.jobs|] == before.jobs
    && (doc.file.Some? ==> after.jobs[|before.jobs|] == Reprocess(Some(doc.file.value.path), doc.file.value.name))
    && (doc.file.None? ==> after.jobs[|before.jobs|] == Reprocess(None, v.title))
  }

  lemma {:induction false} RestoredBringsBack(s: State, n: int)
    requires n in s.versions
    ensures BroughtBack(s, Restored(s, n), n)
  {
  }

  /** Text extracted later goes to the document, its chunks, and every version that has none. */
  function Filled(s: State, text: string): State {
    s.(doc := s.doc.(content := text, chunks := ChunksOf(text), pending := false),
       versions := map n | n in s.versions :: if s.versions[n].content == "" then s.versions[n].(content := text)
         else s.versions[n])
  }

  class Document {
    var title: string
    var content: string
    var current: int
    var file: Option<FileRecord>
    var versions: map<int, Version>
    var live: map<int, Bytes>
    var copies: map<Copy, Bytes>
    var chunks: seq<string>
    var pending: bool
    var jobs: seq<Reprocess>

    function Now(): State
      reads this
    {
      State(Doc(title, content, current, file, chunks, pending), versions, live, copies, jobs)
    }

    method CopyFileToVersion(n: int) returns (source: Option<Copy>, size: Option<int>)
      modifies this`copies
      ensures source.Some? == size.Some? == HasFile(old(Now()))
      ensures source.Some? ==> source.value == Copy(n, SafeName(file.value.name)) && size.value == file.value.size &&
                               copies == old(copies)[source.value := live[file.value.path]]
      ensures source.None? ==> copies == old(copies)
    {
      if file.None? || file.value.path !in live {
        return None, None;
      }
      var c := Copy(n, SafeName(file.value.name));
      copies := copies[c := live[file.value.path]];
      return Some(c), Some(file.value.size);
    }

    /** A version 1 that is there already is a conflict - found only after its copy of the file has been written
        over. */
    method CreateInitialVersion() returns (r: Outcome)
      modifies this
      ensures r == if 1 in old(versions) then Conflict else Done
      ensures r == Done ==> Now() == Pointed(Saved(old(Now()), 1), 1) && current == 1
      ensures r == Conflict ==> Now() == old(Now()).(copies := Saved(old(Now()), 1).copies)
    {
      var source, size := CopyFileToVersion(1);
      if 1 in versions {
        return Conflict;
      }
      versions := versions[1 := Version(title, content, source, size)];
      current := 1;
      return Done;
    }

    /** Before the document is changed: saves version 1 if there is none yet; gives the number of the version to
        come. */
    method CreateVersionsOnEdit(maxVersion: int) returns (next: int)
      requires IsMaxVersion(Now(), maxVersion)
      modifies this
      ensures next == if maxVersion == 0 then 2 else maxVersion + 1
      ensures Now() == if maxVersion == 0 then Saved(old(Now()), 1) else old(Now())
    {
      if maxVersion == 0 {
        var source, size := CopyFileToVersion(1);
        versions := versions[1 := Version(title, content, source, size)];
        return 2;
      }
      return maxVersion + 1;
    }

    /** After the document was changed. */
    method SaveNewVersion(n: int)
      requires n !in versions
      modifies this
      ensures Now() == Pointed(Saved(old(Now()), n), n) && current == n
    {
      var source, size := CopyFileToVersion(n);
      versions := versions[n := Version(title, content, source, size)];
      current := n;
    }

    /** A version's file comes back to where the live file lies, if both are there. */
    method RestoreFile(v: Version)
      modifies this`live, this`file
      ensures live == LiveAfter(old(live), old(file), v, copies)
      ensures file == FileAfter(old(file), v, copies)
    {
      if v.source.Some? && v.source.value in copies {
        if file.Some? {
          live := live[file.value.path := copies[v.source.value]];
          if v.size.Some? {
            file := Some(file.value.(size := v.size.value));
          }
        }
      }
    }

    method RestoreVersion(n: int) returns (r: Outcome)
      modifies this
      ensures r == if n in old(versions) then Done else NotFound
      ensures Now() == if n in old(versions) then Restored(old(Now()), n) else old(Now())
      ensures n in old(versions) ==> BroughtBack(old(Now()), Now(), n)
    {
      hide FileAfter, LiveAfter, BroughtBack;
      if n !in versions {
        return NotFound;
      }
      RestoredBringsBack(Now(), n);
      var v := versions[n];
      if v.content != "" {
        content := v.content;
      }
      title := v.title;
      current := n;
      RestoreFile(v);
      chunks := [];
      pending := true;
      jobs := jobs + [if file.Some? then Reprocess(Some(file.value.path), file.value.name) else Reprocess(None, title)];
      return Done;
    }
  }
}
