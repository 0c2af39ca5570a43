# A verified model of the document server's core

The server keeps documents and Markdown notes in folders, serves them to browsers and over SMB, answers questions about
them with an assistant, and shares files by link. This project models the parts of it whose correctness is hard to see
from the code, and proves what they are for. Every proof is for all inputs, all runs, or all interleavings.

- **Streaming without tool calls** (`Text`, `StreamFilter`, `StreamFilterProofs`): a transducer that cuts tool-call
  regions out of a token stream while it is still arriving. What it emits is compared with a recursive strip of the
  whole text. The two agree exactly when every cut between tokens is harmless, a condition that is computed from the
  cuts, and that holds whenever only one closing style occurs and no token ends just after the `<` of an opening tag.
- **Notes** (`Lines`, `Markdown`, `MarkdownProofs`, `PlaceOrders`, `Notes`, `NoteOrder`, `NotesProofs`): a printer and a
  reader of block documents with their round trip; the placing of a moved note among siblings of which some must keep
  their order; the parent links over whole runs; the listing. After a move the note stands at exactly the place asked
  for, whatever ties there are, and the whole listing is the requested sequence exactly when the notes that must keep
  their order differ in order or title and the user may read the note: one may move a note that one may change and
  not read. One operation, the conversion of a document into a note, makes no check for circles: the links stay a forest exactly when the document is not above the chosen parent, and a run of four ordinary
  requests that ends in a circle is given.
- **SMB directories** (`Directory`, `DirectoryProofs`): the inode allocator, the view of a folder merged from saved and
  staged files, and a listing read in many calls while the folder changes.
- **Unix ids and the start-up lock** (`UnixIds`, `UnixIdsProofs`, `InitLock`, `InitLockProofs`): transition systems whose
  steps are the database calls of concurrent transactions, with failures and rollbacks between any two of them.
- **Job queue** (`JobQueue`, `JobQueueProofs`): workers that claim, finish, fail, abandon and die; stale jobs recovered.
  A step takes a job out of one pair of hands exactly when it recovers one that a worker still holds. An outcome can
  change exactly when a worker still has the job in its hands and may record another one; that comes about by such a
  recovery, and by a completion that is recorded while its answer is lost.
- **Version history** (`Versions`, `VersionsProofs`): an append-only log whose current version moves, late text extraction
  and restoring, with the chunks and the new processing job that come with it.
- **Text algorithms** (`ChunkText`, `Snippets`, `SnippetsProofs`): overlapping chunks of a text, and excerpts around
  hits with merged windows.
- **Folders** (`Forest`, `Sets`, `Folders`, `FoldersProofs`, `FolderTree`): the cycle check, names and owners, permissions
  passed down, deletion with all that is below, and the nested tree a user is shown.
- **Search ranking** (`RankFusion`, `RankFusionProofs`, `RankFusionScores`, `RankFusionNumbers`): eight ranked signals
  merged into one score by passes over dictionaries; the score in numbers, order, bounds, monotonicity and pages.
- **Share links** (`Calendar`, `ShareLinks`, `ShareLinksProofs`): expiry times compared as texts printed in two different
  forms, and the cleaning up that rests on that comparison.

`Forest` holds the theory of parent links that notes and folders share, on tables with circles too; `Options`,
`Sequences`, `Sets` and `Text` hold what several modules need. Code that works step by step is a method, or a class
where the program updates rows or fields; each method is proved equal to a function of its inputs or of the old state,
and the theorems are about these functions. What each such function means is also written out without it: in the
methods' own contracts, field by field, and in lemmas with the tags, weights, days and sizes as they are. The answers
of database queries are parameters with a predicate that says what the query promises. Permissions enter as sets of
what a user may read and write. `hide` statements only keep definitions a proof does not need away from the solver.

Where the code does not keep what its comments promise, the model follows the code: `_find_close` prefers one closing
style wherever it is; `convert_to_note` can close a circle; stale recovery can take a job out of a live worker's hands
and so revive a completed one, and a worker that misses the answer to a completion sends its job back itself; two notes
that tie in order and title can change places in a listing; an expired link is purged when the UTC date changes, not
when it expires; the file of a purged link stays for good if its removal failed; a second process can enter the
start-up lock if the server ends the first one's session, and the lock can stay behind in the connection pool if an
invalidation is cut short; a file with a temporary name can be looked up and is never listed. Each of these has a lemma
below that says exactly when it happens.

## Model

| member | source | states |
|---|---|---|
| StreamFilter.FindOpen | backend/app/services/ai_agent.py:90-96 | the first opening tag of either style, and that none stands before it; -1 only if there is none |
| StreamFilter.FindClose | backend/app/services/ai_agent.py:98-104 | the end of the first style's next close wherever it is, else of the second style's |
| StreamFilter.PartialHold | backend/app/services/ai_agent.py:106-113 | the longest end of at least two characters that could begin an opening tag |
| StreamFilter.Turn | backend/app/services/ai_agent.py:118-135 | one turn of the inner loop emits and leaves what the draining of the whole buffer says; it ends |
| StreamFilter.DrainBuffer | backend/app/services/ai_agent.py:118-135 | the inner loop refines the recursive draining of the buffer |
| StreamFilter.StreamFiltered | backend/app/services/ai_agent.py:115-141 | the whole filter, with the last clean-up, emits the emitted pieces of the run over all tokens |
| StreamFilterProofs.FilterExact | backend/app/services/ai_agent.py:76-141 | for all token streams: never shorter than the stripped text, and equal to it if and only if every cut is harmless |
| StreamFilterProofs.FilterIsStrip | backend/app/services/ai_agent.py:76-141 | with one closing style and no cut after the `<` of an opening tag, the emitted text is the recursive strip of the whole text |
| StreamFilterProofs.StripDrops | backend/app/services/ai_agent.py:86-104 | the strip, tag by tag: a call is dropped from the first opening tag of either style to the first `</tool_call>` behind it, or, if there is none, to the first closing tag of the second style, and the text after it is stripped in its turn |
| StreamFilterProofs.StripCutsOff | backend/app/services/ai_agent.py:86-104 | a call without either closing tag is cut off to the end |
| StreamFilterProofs.StripKeeps | backend/app/services/ai_agent.py:86-96 | a text without either opening tag is kept as it is |
| StreamFilterProofs.CallFiltered | backend/app/services/ai_agent.py:115-141 | of one call, in either style, in a text, the listener gets what stands before and after it, however the stream is cut, but not just after the bracket of an opening tag |
| StreamFilterProofs.RunFaithful | backend/app/services/ai_agent.py:115-141 | the same exact condition from any buffer that a stream can leave |
| StreamFilterProofs.DrainFaithful | backend/app/services/ai_agent.py:118-135 | the buffer after one token stands for the text still to come exactly when that cut is harmless |
| StreamFilterProofs.RunConserves | backend/app/services/ai_agent.py:115-141 | whatever the cuts, emitted and dropped pieces in order are the whole text; no emitted piece holds an opening tag; every dropped one is a region |
| StreamFilterProofs.FlushResidual | backend/app/services/ai_agent.py:136-141 | the last clean-up emits a held beginning unchanged and nothing of an unclosed region |
| StreamFilterProofs.CutOkWhen | backend/app/services/ai_agent.py:88-113 | one closing style and no cut inside a bracket make a cut harmless |
| StreamFilterProofs.OneStyleEarliest | backend/app/services/ai_agent.py:98-104 | with one style, a region ends at its earliest close |
| StreamFilterProofs.StripInside | backend/app/services/ai_agent.py:98-104 | reading from inside a dropped region falls into step with the strip again after its close |
| StreamFilterProofs.BracketCutLeaks | backend/app/services/ai_agent.py:106-113 | a cut just after the `<` of an opening tag always lets the tool call through: the first proviso is needed |
| StreamFilterProofs.MixedStylesLeak | backend/app/services/ai_agent.py:98-104 | a stream with both closing styles whose output depends on the cut: the second proviso is needed |
| Markdown.ExtractInlineText | backend/app/routers/notes.py:193-207 | the texts of the parts, in order |
| Markdown.PrintTable | backend/app/routers/notes.py:168-173 | one line for each row of a table |
| Markdown.PrintOwn | backend/app/routers/notes.py:145-177 | the lines of a block without its children, by its kind |
| Markdown.PrintNested | backend/app/routers/notes.py:179-186 | the children's lines, indented, none for an empty text |
| Markdown.BlocknoteToMarkdown | backend/app/routers/notes.py:135-190 | the printer refines the recursive printing of a tree of blocks |
| Markdown.ReadCode | backend/app/routers/notes.py:246-253 | a code block reaches to the next fence or to the end |
| Markdown.ReadOne | backend/app/routers/notes.py:229-271 | one turn of the reader gives the block that opens at a line, and moves on |
| Markdown.TextToBlocknote | backend/app/routers/notes.py:222-272 | the reader refines the recursive reading of the lines |
| MarkdownProofs.RoundTrip | backend/app/routers/notes.py:135-272 | printing a tree of well-formed blocks and reading it back gives every block's kind, properties and text in pre-order |
| MarkdownProofs.LinesRead | backend/app/routers/notes.py:144-188 | the printed lines of well-formed blocks read as their items, and every code block is closed |
| MarkdownProofs.ReadAppend | backend/app/routers/notes.py:229-271 | lines in which every code block is closed can be read on their own |
| MarkdownProofs.MarkedLine | backend/app/routers/notes.py:150-177 | a line printed for a block is read as that block |
| MarkdownProofs.Written | backend/app/routers/notes.py:145-177 | what the printer writes for a block of each kind, character by character |
| MarkdownProofs.Nested | backend/app/routers/notes.py:179-188 | a block stands before its children, indented by two spaces, then an empty line, then the next block |
| MarkdownProofs.AnyNumberRead | backend/app/routers/notes.py:262-264 | up to three characters, the first a digit, then a dot and a space make a numbered item |
| MarkdownProofs.LongNumberRead | backend/app/routers/notes.py:262-264 | four characters or more make none |
| MarkdownProofs.StarRead | backend/app/routers/notes.py:259-260 | a star makes a bullet, too |
| MarkdownProofs.OpenCodeRead | backend/app/routers/notes.py:246-253 | a code block without a closing fence reaches to the end |
| MarkdownProofs.TextRead | backend/app/routers/notes.py:224-228 | a blank text reads as one empty paragraph, any other line by line |
| MarkdownProofs.CodeReads | backend/app/routers/notes.py:160-164 | a printed code block is read with its language and its text |
| MarkdownProofs.ChildrenRead | backend/app/routers/notes.py:179-186 | indented children are read as if they stood at the left |
| MarkdownProofs.IndentReads | backend/app/routers/notes.py:184-186 | indenting changes nothing for the reader when no code block is among the lines |
| MarkdownProofs.TrimReads | backend/app/routers/notes.py:190 | the final trimming loses only empty paragraphs |
| PlaceOrders.FixedNotes | backend/app/routers/notes.py:52 | the notes that keep their order, in sequence |
| PlaceOrders.PlaceFirst | backend/app/routers/notes.py:57-60 | counts down before the first kept note and leaves the rest |
| PlaceOrders.PlaceAfter | backend/app/routers/notes.py:61-68 | counts on after a kept note if there is room before the next, and says so otherwise |
| PlaceOrders.PlaceOrders | backend/app/routers/notes.py:46-71 | an assignment if and only if there is room everywhere and the column's range holds it; it counts from 0 without kept notes, else on by one after each kept note and down by one before the first |
| PlaceOrders.PlacedExactly | backend/app/routers/notes.py:46-71 | an assignment is found exactly when any assignment exists that keeps the kept orders, fits 32 bits and strictly increases wherever a note may move; it is then such a one |
| PlaceOrders.OrdersFit | backend/app/routers/notes.py:57-71 | what the algorithm assigns keeps fixed values, stays in range and strictly increases across every pair with a writable note |
| PlaceOrders.FitsHasRoom | backend/app/routers/notes.py:61-70 | where any assignment fits, the algorithm does not give up |
| PlaceOrders.FitsFromBelow | backend/app/routers/notes.py:61-68 | any fitting assignment lies at or above the count from a kept order |
| PlaceOrders.FitsFromAbove | backend/app/routers/notes.py:57-60 | and at or below the count down to one |
| Notes.NoteStore.CreateNote | backend/app/routers/notes.py:320-384 | the new note comes after all live notes below a readable parent, with 0 as the first; an unreadable parent or an order beyond the column is refused and changes nothing |
| Notes.NoteStore.MeetsAbove | backend/app/routers/notes.py:553-559 | the upward walk, whenever it ends, tells exactly whether the note is on the chain |
| Notes.NoteStore.MoveNote | backend/app/routers/notes.py:527-595 | every outcome with its exact condition, on tables with circles too if the walk ends; on success the parent asked for, and the note at the index asked for - or the nearest end - among the siblings the user sees, in their order, all with orders of that sequence; only orders change in other rows; otherwise no change |
| Notes.NoteStore.RemoveNote | backend/app/routers/notes.py:599-618 | the note flag, parent and order go, exactly the child notes the user may change go to the top, all else stays |
| Notes.NoteStore.DeleteWithFile | backend/app/routers/notes.py:622-638 | the document is trashed, exactly the child notes the user may change go to the top, all else stays |
| Notes.NoteStore.ConvertToNote | backend/app/routers/notes.py:644-688 | succeeds under exactly these conditions, none of which looks for a circle |
| Notes.NoteStore.ListNotes | backend/app/routers/notes.py:408-431 | the roots and each note's children are the parts of the listing, in its order |
| NoteOrder.MoveShown | backend/app/routers/notes.py:563-590 | if the siblings the user may not change differ in order or title, every listing shows exactly the requested sequence after the move, without the moved note if the user may change and not read it |
| NoteOrder.MoveStands | backend/app/routers/notes.py:563-590 | whatever ties there are: a moved note that its user may read stands at exactly the index asked for of every listing, or at the nearest end; so does every other note the user may change at its place of the requested sequence - without the moved note, if its user may not read it; the notes the user may not change stay as they are |
| NoteOrder.MoveShownExactly | backend/app/routers/notes.py:563-590 | every listing shows exactly the requested sequence if and only if the user may read the moved note and no two siblings the user may not change tie in order and title; without the moved note for a user who may not read it, if and only if no two such siblings tie |
| NoteOrder.KeysGrow | backend/app/routers/notes.py:585-590 | along the requested sequence the sort keys never fall after the move, and strictly grow across every note the user may change |
| NoteOrder.WantedShape | backend/app/routers/notes.py:574-584 | the requested sequence has each sibling once and, but for the moved note, in listing order |
| NoteOrder.SortedUnique | backend/app/routers/notes.py:403 | only one sequence of notes with growing keys is sorted as the listing sorts |
| NotesProofs.StepAcyclic | backend/app/routers/notes.py:643-681 | every operation keeps the forest, and a conversion keeps it if and only if the document is not above the chosen parent |
| NotesProofs.RunAcyclic | backend/app/routers/notes.py:543-561 | over every run without such a conversion the links are a forest and every upward walk ends |
| NotesProofs.MoveIsStep | backend/app/routers/notes.py:561-590 | what a successful move does to the rows is a step of these runs |
| NotesProofs.ConvertMakesCircle | backend/app/routers/notes.py:660-679 | four ordinary requests, from an empty database, that end in a circle |
| NotesProofs.ListedOnce | backend/app/routers/notes.py:408-431 | a readable note is listed exactly once if its chain of visible parents ends, and never if it runs in a circle |
| NotesProofs.ShownWhere | backend/app/routers/notes.py:408-431 | a live readable note is shown below its parent if that is one, too, and at the top otherwise; no other note is shown |
| NotesProofs.ShownInOrder | backend/app/routers/notes.py:403 | in one place by order, and by title where orders are equal |
| NotesProofs.ForestListedOnce | backend/app/routers/notes.py:409-431 | in a forest that chain always ends |
| NotesProofs.FlattenCount | backend/app/routers/notes.py:422-431 | how often the nested tree shows a note is how often its chain meets the roots |
| Directory.FuseServer.GetOrAlloc | backend/app/fuse_server.py:224-238 | the inode of a key, new and above all others for a new key; inodes and keys name each other |
| Directory.FuseServer.Create | backend/app/fuse_server.py:918-925 | a new file takes a new inode and its place in staging, in place of a file of its name only; every other staged file stays; no inode changes its key |
| Directory.FuseServer.UnlinkStaged | backend/app/fuse_server.py:952-959 | exactly that staged file is dropped, its inode is not given up |
| Directory.FuseServer.RenameStaged | backend/app/fuse_server.py:1015-1028 | a staged file changes name and folder and keeps its inode; of the other staged files only one of the new name gives way |
| Directory.FuseServer.ViewDistinct | backend/app/fuse_server.py:723-741 | a merged view has no inode under two names, and none that is still to be given |
| Directory.MergeStaged | backend/app/fuse_server.py:723-739 | the view: staged files over saved ones, deleted ones out, temporary ones not in |
| Directory.SortByInode | backend/app/fuse_server.py:741 | the entries of the view, by inode |
| Directory.Reply | backend/app/fuse_server.py:742-753 | what the kernel is given: the first visible entries above the cursor, as many as it has room for |
| Directory.Readdir | backend/app/fuse_server.py:713-753 | one call of readdir on one view: entries above the cursor, not temporary, visible to the caller by owner, group or others, as many as there is room for |
| DirectoryProofs.InodesForever | backend/app/fuse_server.py:224-238 | two requests get one inode exactly when they ask for one key; a first request gets one above all before: no inode is reused |
| DirectoryProofs.ScanAscends | backend/app/fuse_server.py:741-753 | over all calls of a scan, whatever changes between them, delivered inodes strictly grow: no inode is delivered twice |
| DirectoryProofs.ScanSound | backend/app/fuse_server.py:741-753 | only entries of some call's view that the caller may see are delivered |
| DirectoryProofs.ScanComplete | backend/app/fuse_server.py:713-753 | an entry visible in every call of a finished scan is delivered |
| DirectoryProofs.ScanFromCall | backend/app/fuse_server.py:713-753 | an entry created during the scan and visible from then on is delivered too |
| DirectoryProofs.ReplyReaches | backend/app/fuse_server.py:742-753 | one call delivers a visible entry or stops short of it with all its room taken |
| DirectoryProofs.LookupAgrees | backend/app/fuse_server.py:673-753 | for all saved and staged files: lookup and listing agree on a name if and only if no staged file marked deleted hides a saved entry and no entry the caller may see has a temporary name |
| DirectoryProofs.ListingAgrees | backend/app/fuse_server.py:673-753 | in every state of the server no staged file is marked deleted, so they agree if and only if no visible entry of a temporary name is concerned; and what is listed is found |
| UnixIds.InvStep | backend/app/routers/auth.py:434-451 | every step of every transaction keeps the protocol's invariant, and the next number never falls |
| UnixIdsProofs.NeverTwice | backend/app/routers/auth.py:434-451 | in every interleaving the numbers handed out strictly grow, those of deleted rows and rolled-back requests included |
| UnixIdsProofs.NumberStays | backend/app/routers/auth.py:434-451 | a row's committed number never changes, and no later row of the same id gets another |
| UnixIdsProofs.RowsComeAndGo | backend/app/routers/auth.py:434-436 | rows come without a number, and go without taking their number back |
| UnixIdsProofs.SameAnswer | backend/app/routers/auth.py:443-451 | concurrent requests for one row tell the same number |
| UnixIdsProofs.AnswerStays | backend/app/routers/auth.py:443-451 | what a request has told stays true unless it is rolled back |
| UnixIdsProofs.RereadFinds | backend/app/routers/auth.py:448-449 | reading again finds the number given meanwhile |
| UnixIdsProofs.RequestNumbers | backend/app/routers/auth.py:434-451 | a request that nobody keeps off can give its row the next number and tell it; no other row changes |
| UnixIdsProofs.RequestTooLate | backend/app/routers/auth.py:443-451 | one that comes too late tells the number given meanwhile, holding the table against a raise to the end, and loses what it drew |
| UnixIdsProofs.RequestKnows | backend/app/routers/auth.py:434-442 | one for a row with a number tells it and changes nothing |
| UnixIdsProofs.RaiseReaches | backend/app/db_init.py:118-132 | a finished raise leaves the next value above every number in the table and every number in flight |
| UnixIdsProofs.RaiseSets | backend/app/db_init.py:118-132 | a raise that finds the sequence behind and nobody at the table sets it to the largest number, so that the next one is one more |
| UnixIdsProofs.RaiseLeaves | backend/app/db_init.py:124-126 | one that finds it ahead takes no lock and changes nothing |
| UnixIdsProofs.AheadStays | backend/app/db_init.py:118-132 | a sequence ahead of its table stays ahead |
| UnixIdsProofs.RunsStayDistinct | backend/app/routers/auth.py:434-451 | from distinct numbers and a sequence ahead, all rows and requests keep distinct numbers in every run |
| UnixIdsProofs.DistinctOnceRaised | backend/app/db_init.py:118-132 | from any table at the start and after any run: if no number stands twice when a raise finishes, none ever does, and the sequence stays ahead |
| UnixIdsProofs.SetAfterDrawFalls | backend/app/db_init.py:127-131 | without the table lock a raise could lower the sequence, and under it no request can draw |
| InitLock.OneInside | backend/app/db_init.py:83-111 | with any call failing or cancelled, invalidations included, two processes are inside only if the server ended the session of one of them |
| InitLock.AtMostOneInside | backend/app/db_init.py:83-111 | with failures and cancellations at any call but no session ended by the server, at most one process is inside |
| InitLock.NeverStuck | backend/app/db_init.py:99-111 | when all processes have left and no connection dangles, the lock is free unless a pooled session has it; and free without exception if no invalidation of a session with the lock was cut short |
| InitLock.CleanStep | backend/app/db_init.py:90-96 | a step lets the lock into the connection pool, or be held twice over, if and only if it cuts short the invalidation, after a failed asking, of a session that has the lock |
| InitLock.RunClean | backend/app/db_init.py:83-111 | over every run the lock is held once at a time and never by a pooled session if and only if no such invalidation is cut short |
| InitLock.TakeUnlock | backend/app/db_init.py:90-106 | a session that takes the lock several times over must let it go as often |
| InitLock.RunInv | backend/app/db_init.py:83-111 | the invariant holds over every run of connecting, asking, failing, being cancelled, leaving, freeing and discarding |
| InitLockProofs.DeadSessionLetsIn | backend/app/db_init.py:100-102 | from the start on: a run in which a session ended by the server lets a second process in |
| InitLockProofs.SecondFollows | backend/app/db_init.py:83-111 | from every state the invariant allows in which a process is inside without a live session, a second process can follow it in while it stays inside and no other session ends |
| InitLockProofs.LeavesClean | backend/app/db_init.py:97-111 | a process whose session the server keeps can leave, free the lock and give its session back to the pool |
| InitLockProofs.TwoInsideExactly | backend/app/db_init.py:83-111 | from every reachable state two processes can come to be inside together, with no further session ended by the server, if and only if one is inside now whose session the server has ended |
| JobQueue.JobStore.CreateJob | backend/app/services/job_queue.py:19-35 | the new job can be claimed from now on by whoever does not find it locked, with no attempt used; no other row changes |
| JobQueue.JobStore.ClaimJob | backend/app/services/job_queue.py:60-90 | none only if nothing is due and unlocked; else the oldest such job, running, with one attempt more |
| JobQueue.JobStore.CompleteJob | backend/app/services/job_queue.py:103-117 | the job is never due and never stale again and keeps its attempts; no other row changes; a job that is gone changes nothing |
| JobQueue.JobStore.FailJob | backend/app/services/job_queue.py:120-140 | with attempts left the job is due from its old time on, else never again; it is not stale, keeps its attempts, and no other row changes |
| JobQueue.JobStore.RecoverStaleJobs | backend/app/worker.py:65-78 | no job is stale any more; the stale ones are due again with their attempts as they were, and all others stay as they are |
| JobQueueProofs.AttemptsBounded | backend/app/services/job_queue.py:60-140 | attempts are the claims seen, and at most max_attempts plus the job's recoveries, in every run of all workers |
| JobQueueProofs.ClaimsBounded | backend/app/services/job_queue.py:60-140 | from its creation a job is claimed at most max_attempts times plus once per recovery |
| JobQueueProofs.JobDone | backend/app/worker.py:88-110 | an idle worker can take the oldest due job and complete it, with one attempt more, and is idle again; nothing else changes |
| JobQueueProofs.CrashRecovers | backend/app/worker.py:65-78 | a job whose worker died stays running until a recovery gives it back with its attempts |
| JobQueueProofs.NeverTwoHolders | backend/app/worker.py:65-124 | in every run whose recoveries take no job out of a live worker's hands, those at the start of a process included, no job is ever held by two workers, whatever answers are lost |
| JobQueueProofs.RunHolder | backend/app/worker.py:65-124 | over every run, every held job is in one worker's hands, and running or completed without its worker knowing, at every moment if and only if each recovery spares the held jobs; and running at every moment if and only if, besides, no completion's answer is lost |
| JobQueueProofs.HeldStep | backend/app/worker.py:65-124 | the same for each step: it keeps every held job in one pair of hands if and only if it is no recovery of a job that a live worker holds, and keeps it running if and only if it is no completion whose answer is lost, either |
| JobQueueProofs.OutcomeStep | backend/app/worker.py:65-124 | an outcome that no worker can contest survives every step, recoveries and lost answers included, and none comes to contest it |
| JobQueueProofs.OutcomeExactly | backend/app/worker.py:65-124 | an outcome can be changed, by the next step or by any run, if and only if some worker has the job in its hands and may still record another outcome |
| JobQueueProofs.OutcomesFinal | backend/app/worker.py:65-124 | after a run whose recoveries spare the held jobs and whose completions get their answers, every outcome is final in whatever run follows |
| JobQueueProofs.LostAnswerRevives | backend/app/worker.py:108-119 | a completion whose answer is lost is followed, without any recovery, by a failure that sends the completed job back, or fails it if no attempts are left |
| JobQueueProofs.RunAccounted | backend/app/worker.py:65-124 | in every run, with any recoveries, each running job is held, died with its worker, or was abandoned |
| JobQueueProofs.OutcomeStays | backend/app/worker.py:65-124 | an outcome that no worker can contest is final in every run, whatever recoveries and lost answers follow |
| JobQueueProofs.RecoveryRevives | backend/app/worker.py:65-78 | a run with a recovery that does not: two workers hold a job, and a late failure sends it back after it was completed |
| JobQueueProofs.WorkFalls | backend/app/services/job_queue.py:86-138 | a measure over all jobs, whatever their attempts, falls at every claim, completion and failure, those after a lost answer included |
| JobQueueProofs.RunsDry | backend/app/worker.py:88-124 | without new jobs and recoveries a run has at most as many of these as there is work left at its start, whatever answers are lost, from any state in which no job is held twice |
| JobQueueProofs.DryState | backend/app/worker.py:88-124 | whatever recoveries came before: when nothing can be claimed and nobody works, each job is completed, failed, or left by a dead or stuck worker |
| Versions.Document.CopyFileToVersion | backend/app/services/versioning.py:29-40 | the live bytes are copied under the version's number and safe name, if there is a file |
| Versions.Document.CreateInitialVersion | backend/app/services/versioning.py:71-88 | version 1 is saved and pointed at; if there is one already, the conflict changes nothing but its copy of the file, which has by then been written over |
| Versions.Document.CreateVersionsOnEdit | backend/app/services/versioning.py:91-119 | the old state of a document without versions is saved first; the next number |
| Versions.Document.SaveNewVersion | backend/app/services/versioning.py:122-141 | the changed state is saved and pointed at |
| Versions.Document.RestoreVersion | backend/app/services/versioning.py:144-202 | the current version moves, title, non-empty text - an empty one leaves the document's - and the stored file with its size come back, the chunks go and one processing job is added; an unknown number changes nothing |
| VersionsProofs.RunInv | backend/app/services/versioning.py:71-171 | over every run versions are numbered 1 to the largest without gaps, the current version is one of them, and each is what was saved |
| VersionsProofs.RunKeeps | backend/app/services/versioning.py:71-171 | a version's title, bytes and non-empty text never change |
| VersionsProofs.RestoreBringsBack | backend/app/services/versioning.py:144-202 | at any time of any run, restoring n brings back n's title, its text if non-empty and else the document's own, and its captured bytes and recorded size, removes all chunks and asks once for processing |
| VersionsProofs.FilledIsFound | backend/app/services/document_processing.py:293-313 | once that processing has filled in the text, every character of it that is no space is in a chunk |
| VersionsProofs.FilledEverywhere | backend/app/services/document_processing.py:293-313 | late text goes to the document and to exactly the versions without text; chunks of 800 characters that overlap by 100 |
| VersionsProofs.SafeCharacter | backend/app/utils/filename.py:12-14 | a copy's name, character by character: a slash becomes a hyphen, zeros and line ends go, all else stays |
| VersionsProofs.SafeNameSafe | backend/app/utils/filename.py:12-14 | it has no slash and is never empty |
| VersionsProofs.EditThenRestore | backend/app/services/versioning.py:91-171 | an edit is undone by restoring the version before it, of a document without versions too |
| VersionsProofs.EditKeeps | backend/app/services/versioning.py:91-141 | an edit keeps every earlier version and the invariant |
| VersionsProofs.StepKeeps | backend/app/services/document_processing.py:304-313 | so does every step, the filling in of text extracted late included |
| ChunkText.FindEnd | backend/app/services/parser.py:327-347 | the end of a window: a paragraph, a line or a sentence in its second half, else full |
| ChunkText.EndsAtBreak | backend/app/services/parser.py:327-347 | a window ends after the last paragraph break past its middle; without one after the last line end from the middle on; without that after the last sentence, `. ` before `! ` before `? `; and else is full |
| ChunkText.WindowsLinked | backend/app/services/parser.py:324-358 | the windows lead from the start to the end of the text, each next one beginning `overlap` characters before the end of the last, but past its start |
| ChunkText.ChunksJoined | backend/app/services/parser.py:349-351 | the chunks come in the order of their windows |
| ChunkText.ChunkText | backend/app/services/parser.py:314-359 | the loop ends for every size of at least 1 and every overlap and gives the trimmed non-blank windows |
| ChunkText.ChunkIsSlice | backend/app/services/parser.py:349-351 | every chunk is a non-empty slice of the text of at most the chunk size |
| ChunkText.ChunksCover | backend/app/services/parser.py:314-359 | every character that is no space lies in some chunk |
| ChunkText.ChunkCount | backend/app/services/parser.py:314-359 | with overlap at most half the size, (k - 1) * (size / 2 + 1 - overlap) < length for the number k of chunks |
| ChunkText.WindowsCover | backend/app/services/parser.py:353-358 | the windows leave no gap |
| ChunkText.WindowCount | backend/app/services/parser.py:353-358 | each window but the last moves the start on by more than half a window less the overlap |
| Snippets.FindWord | backend/app/services/agent_tools.py:252-260 | the search loop finds the occurrences of one word |
| Snippets.FindPositions | backend/app/services/agent_tools.py:247-260 | the occurrences of all words, in any case |
| Snippets.HitsAreOccurrences | backend/app/services/agent_tools.py:252-260 | these are all occurrences, overlapping ones included, and nothing else |
| Snippets.HitsAreWords | backend/app/services/agent_tools.py:247-260 | a hit is exactly a place where some word stands |
| SnippetsProofs.HitsIgnoreCase | backend/app/services/agent_tools.py:247-260 | a hit is a place where the characters of some word stand, compared in lower case |
| Snippets.SpansSorted | backend/app/services/agent_tools.py:266 | sorting keeps the hits and puts them in order |
| Snippets.MergeWindows | backend/app/services/agent_tools.py:267-274 | the merging loop refines the recursive merging |
| Snippets.WindowsExact | backend/app/services/agent_tools.py:265-274 | the windows are in order with gaps between them and cover exactly the union of the clipped contexts |
| Snippets.AddSnippets | backend/app/services/agent_tools.py:276-285 | one chunk's snippets, cut off where the total reaches the limit |
| Snippets.ExtractSnippets | backend/app/services/agent_tools.py:238-290 | the whole extraction gives the capped list of all chunks' snippets |
| SnippetsProofs.HitsShownWhole | backend/app/services/agent_tools.py:265-274 | every hit lies with its whole context in one window |
| SnippetsProofs.WindowsUnique | backend/app/services/agent_tools.py:265-274 | separated windows over the same places are the same: the merging has no freedom |
| SnippetsProofs.WordOrderFree | backend/app/services/agent_tools.py:247-274 | the snippets do not depend on the order or repetition of the words |
| SnippetsProofs.CapExact | backend/app/services/agent_tools.py:276-288 | all snippets while their total is below 2000 characters, else those up to the first that reaches them and the note of more hits |
| SnippetsProofs.ShownNear | backend/app/services/agent_tools.py:265-274 | a character is shown if and only if it lies within 100 of a hit |
| SnippetsProofs.SnippetReads | backend/app/services/agent_tools.py:276-281 | a snippet names its chunk, marks what is cut off on either side, and is the window's text in one line |
| SnippetsProofs.DecimalReads | backend/app/services/agent_tools.py:280 | the chunk's number in decimal reads back as that number |
| SnippetsProofs.SnippetsInOrder | backend/app/services/agent_tools.py:244-281 | chunk by chunk and window by window, in order |
| Forest.LinkAcyclic | backend/app/routers/folders.py:88-107 | giving a row a parent keeps a forest if and only if the row is not on the parent's chain |
| Forest.AcyclicEnds | backend/app/routers/notes.py:553-559 | in a forest every upward chain ends |
| Forest.EndsSoon | backend/app/routers/folders.py:88-107 | a chain that ends does so within as many steps as there are rows, and one more |
| Forest.WalkEndsExactly | backend/app/routers/notes.py:553-559 | on any table, with circles too, the upward walk ends if and only if the chain ends or meets the note, and then within as many steps as there are rows, and one more |
| Folders.CheckNoCycle | backend/app/routers/folders.py:88-107 | the walk ends on every graph, and answers true exactly when the chain ends without meeting the folder |
| Folders.MayHangExactly | backend/app/routers/folders.py:88-107 | on a forest that is exactly when the move keeps a forest |
| Folders.FolderStore.CreateFolder | backend/app/routers/folders.py:233-254 | a new folder of the user with its parent's permissions, or the exact refusal: no parent, no right to write, or the name taken in that folder |
| Folders.FolderStore.UpdateFolder | backend/app/routers/folders.py:368-429 | let through if and only if every check is met, which are written out; then each field of the folder is what the request sets or what it was, and its permissions are on exactly the live documents in it or, if recursive, on all folders and live documents below; all else stays |
| Folders.FolderStore.ApplyToDocs | backend/app/routers/folders.py:110-125 | the live documents in one folder get its permissions, no others |
| Folders.FolderStore.ApplyRecursive | backend/app/routers/folders.py:128-143 | the recursion ends below every folder that is on no circle and reaches exactly the subtree |
| Folders.FolderStore.CollectIds | backend/app/routers/folders.py:484-492 | the folder and every descendant exactly once, each after its parent |
| Folders.FolderStore.DeleteRow | backend/app/routers/folders.py:507-510 | a row is only deleted when nothing is left below it, so no cascade fires |
| Folders.FolderStore.DeleteFolder | backend/app/routers/folders.py:468-510 | exactly the folders whose chain meets it go, the documents in them are in no folder and in the trash, from now or from before, all else stays |
| Folders.NoChildLeft | backend/app/routers/folders.py:506-510 | in reverse order of collection every folder goes after all those in it |
| FoldersProofs.RunSound | backend/app/routers/folders.py:368-510 | over every run of requests folders stay a forest, no folder has two of one name in it, and no folder or document names one that is gone |
| FoldersProofs.ChangeSound | backend/app/routers/folders.py:385-429 | a change that is let through keeps that |
| FoldersProofs.DeleteSound | backend/app/routers/folders.py:484-510 | so does a deletion |
| FolderTree.BuildTree | backend/app/routers/folders.py:76-85 | the nested tree: each node's children are the folders listed in it; from the top the recursion ends on every list, circles or not |
| FolderTree.TreeShowsExactly | backend/app/routers/folders.py:76-85 | on every list the tree shows exactly the visible folders whose parents are visible up to the top, each once |
| FolderTree.NodesInOrder | backend/app/routers/folders.py:76-85 | the nodes in each place are exactly the folders listed there, in the order of the list |
| FolderTree.SubtreeShown | backend/app/routers/folders.py:76-85 | below each node, everything that hangs below its folder, once, after its parent |
| RankFusion.AddMeta | backend/app/services/search.py:523-527 | the metadata passes sum the shares of every place of every document |
| RankFusion.FirstRanks | backend/app/services/search.py:529-535 | the best rank of each document among the chunks found |
| RankFusion.LastRanks | backend/app/services/search.py:545-549 | a later place takes the place of an earlier one |
| RankFusion.BestCounts | backend/app/services/search.py:539-542 | the largest match count from metadata and chunks |
| RankFusion.Penalize | backend/app/services/search.py:568-581 | every score times the squared match ratio, except documents found by their vector alone |
| RankFusion.RefreshListed | backend/app/services/search.py:583-603 | freshness for the documents of the chunk and vector lists, none for those found by vector alone |
| RankFusion.RefreshFetched | backend/app/services/search.py:605-636 | freshness for documents only the metadata found, whose rows are still there |
| RankFusion.MergeScores | backend/app/services/search.py:510-636 | the passes over dictionaries give each document found the declarative score |
| RankFusion.MergedSearch | backend/app/services/search.py:641-670 | the page is the stretch of the ranked list from the offset on, as long as the limit or the rest; the total is its length |
| RankFusionProofs.FoundExactly | backend/app/services/search.py:510-566 | exactly the documents of some list have a score, each once |
| RankFusionProofs.RankedOrder | backend/app/services/search.py:641 | the ranking is by falling score, and by first appearance where scores are equal |
| RankFusionProofs.ResultsExactly | backend/app/services/search.py:641-666 | the results are the documents that can be shown, each once, in that order |
| RankFusionProofs.PagesTile | backend/app/services/search.py:668-670 | consecutive pages put together are the ranked list |
| RankFusionProofs.PagesApart | backend/app/services/search.py:668-670 | no document is on two pages |
| RankFusionScores.GainOnce | backend/app/services/search.py:524-527 | in a list of distinct documents a document gains weight / (60 + rank) |
| RankFusionNumbers.BaseInNumbers | backend/app/services/search.py:387-400 | before words and age count, a document gets 8, 10, 4, 3, 2, 2, 1 and 6 over 60 plus its rank in the eight lists |
| RankFusionNumbers.PenaltyInNumbers | backend/app/services/search.py:568-581 | the penalty is the square of the words found over all words of the query, at most all; none for a document found by its vector alone |
| RankFusionNumbers.BoostInNumbers | backend/app/services/search.py:583-603 | freshness is 0.2 times 30 over 30 plus the age in days, times that square |
| RankFusionNumbers.ScoreInNumbers | backend/app/services/search.py:510-636 | the whole score in numbers, from ranks, words found and age |
| RankFusionNumbers.FoundInOrder | backend/app/services/search.py:510-566 | equal scores stand in the order of first places in the metadata lists, then the full-text hits, then the vector list |
| RankFusionScores.ScoreBound | backend/app/services/search.py:387-400 | with distinct lists no score is below 0 or above 36/61 + 0.2 |
| RankFusionScores.MoveUpHelps | backend/app/services/search.py:510-603 | moving a document up any number of places in any one list never lowers its score |
| Calendar.LessExactly | share-server/store.go:235-239 | the printed expiry is less than the printed current time if and only if its UTC date is earlier |
| Calendar.PrintedLess | share-server/store.go:159-167 | printed dates are in the order of the dates |
| Calendar.DatesGrow | share-server/store.go:159-167 | the calendar's dates grow day by day, leap years included |
| Calendar.DayAfter | share-server/store.go:159-167 | the day after each date, at the ends of months, of February in leap and other years, and of the year |
| Calendar.DayHolds | share-server/store.go:159-167 | the day of an instant, in nanoseconds |
| Calendar.PrintedForms | share-server/store.go:159-167 | both texts character by character: digits of year, month, day, hour, minute and second, a T and a Z or a space between |
| ShareLinks.ShareServer.CreateShareLink | share-server/store.go:159-167 | the row with the expiry as text, unless the token is taken |
| ShareLinks.ShareServer.Upload | share-server/handler.go:100-154 | the expiry asked for, in 7 days if unreadable, in 30 days at most, in nanoseconds; the file is taken back if the row fails |
| ShareLinks.ShareServer.PurgeLink | share-server/store.go:254-258 | the row goes unless the statement fails |
| ShareLinks.ShareServer.Cleanup | share-server/cleanup.go:21-43 | exactly the selected links go unless their row's statement fails, which leaves them for the next time, and their files unless their removal fails |
| ShareLinks.ShareServer.Delete | share-server/handler.go:167-186 | found exactly if some row has the token; that row goes unless its statement fails, and its file unless its removal fails |
| ShareLinksProofs.SelectedExactly | share-server/store.go:235-239 | a link is selected if and only if it is inactive or the UTC date has passed its expiry's date |
| ShareLinksProofs.OpenStays | share-server/handler.go:219 | no link that is still served is selected |
| ShareLinksProofs.OverButKept | share-server/store.go:235-239 | a link that is over stays exactly as long as the UTC date of its expiry lasts |
| ShareLinksProofs.StaysUntilExpiry | share-server/cleanup.go:21-43 | over every run a link nobody deletes stays unchanged through the day of its expiry |
| ShareLinksProofs.GoneAfterCleanup | share-server/cleanup.go:21-43 | a later cleaning up takes it for good |
| ShareLinksProofs.LeftBehind | share-server/cleanup.go:33-41 | a cleaning up leaves a link's file without a row if and only if the row is purged and the file's removal fails, and a row without its file if and only if it is the other way round |
| ShareLinksProofs.OrphanStays | share-server/cleanup.go:21-43 | no cleaning up, then or later, removes such a file |
| ShareLinksProofs.ExpiryWithin | share-server/handler.go:100-111 | 31 days after the upload the date is past the expiry's |
| ShareLinksProofs.PurgedInTime | share-server/cleanup.go:10-43 | every uploaded link is purged within 31 days plus one interval of its upload |

## Left out

- UnixIds, InitLock: the claims are about interleavings of transactions, so these are transition systems with one step for each database call, not methods. with_retry only repeats a whole raise and is an aborted raise followed by a new one.
- MarkdownProofs.RoundTrip: not for tables, images, nested code blocks and quotes of several lines, from which the printer does not keep enough to read them back. Whether a character is a digit for str.isdigit is a parameter that must hold for `1` and not for `>`.
- NotesProofs.ListedOnce: the nesting is sent to a depth above the number of notes; a circle is never reached from the top.
- InitLock: the connection pool serves only the processes at the lock and closes none of its sessions on its own.
- Snippets.Lowered: lower-casing gives one character for each; the few letters whose lower case is longer are not modelled.
- RankFusion.Score: real numbers instead of floating point, and one age for each document, although three queries each read it.
- Calendar.PrintExpiry: years 0 to 9999 in UTC. Times in whole nanoseconds.
- ChunkText.ChunkCount: for an overlap of at most half the size; a larger one still ends and covers.
- A query without a single word: the metadata helper then gives one value where the merge unpacks two (backend/app/services/search.py:242-243), so the ranking is never reached. RankFusion has the number of words as an input and covers 0 as the code after that point would.
- The matching itself (LIKE, vectors, tokenizing) and all calls to models, mail, scanners and converters: ranked lists, counts and tokens are inputs.
- FUSE staging writes and commits, folder renames over SMB, kernel attributes, the metadata cache, the health-check name and Unicode normalization.
- Who may read and write what is a set; how it follows from owners, groups and administrators is not modelled.
- The job type filter of a claim, progress labels, and the edit of a version log by two requests at once.
- Asynchronous cancellation of the stream filter.
