# Model of an agent server and its in-process shell

This project models four parts of a server that runs agents in an in-process POSIX shell, and proves properties of the
model. `dafny verify dfyconfig.toml` checks all of it.

**The in-memory filesystem** (`Paths`, `Mem*`). Specification functions on a graph of nodes say what each operation does;
`MemFs` has the mutable node objects and proves each method against its function. Main results: over every run of
operations directories form a tree, link counts count entries and inode numbers are distinct, if and only if no rename
was one of two kinds that break it; lookup agrees with a relational resolution of symlinks that has no bound; `MkdirAll`
agrees with lookup; files refine a log of writes; a FIFO delivers what it accepted.

**The mailbox and the scheduler** (`Mailbox*`, `Schedule*`). Tables are maps of rows and each transaction is one step.
Runs are arbitrary interleavings. Some claims hold over all of them; the stronger ones hold over *disciplined* histories,
in which no lease has run out when a message is claimed and no sender's metadata overrides the server's keys, and what
goes wrong without discipline is stated as an if-and-only-if and shown by concrete histories.

**The shell language** (`Arith*`, `Utf8`, `Quot*`, `Glob*`, `PosixArgs`). The arithmetic parser is sound and complete
for its grammar and printing round-trips; the evaluator is proved over a mutable environment; `Quote` reads back exactly;
patterns mean what their regular expressions match; parsed options survive rendering.

**Environments and workers** (`Environs`, `OverlayEnviron`, `ListEnviron`, `Reconcile`, `RuntimeManager`). Dynamic scoping
over a chain of frames, a sorted list searched by halving against the last-wins rule, and a reconciliation that loses no
worker.

The pattern throughout is a pure specification function, methods over mutable state proved equal to it, and lemmas about
the function. Some of those state the whole result of an operation without the functions that compute it: `MemSteps`,
`MemOutcomes` and `MemOpens` on lookups and single nodes, `MailboxLaws` and `ScheduleLaws` on single fields of rows,
`ReconcileLaws` on handles, `PosixReading` on spellings, `ArithPrecedence` on tokens, `QuoteLaws` and `GlobLaws` on bytes.
`hide` statements at the start of a proof only keep the solver from unfolding what the proof does not need.

## Findings

These are properties one might expect that the code does not have. For each the exact condition under which it holds is
proved, for all inputs, and a failing input or history is given.

- Renaming a non-directory onto itself leaves its link count too low, and moving a directory below itself detaches it as a
  cycle (pkg/sh/memfs/memfs.go:373-381): `RenameInvIff`, `RunGoodIff` and two concrete runs.
- The arithmetic ternary takes its true branch only for a condition of exactly 1 (pkg/sh/expand/arith.go:88): `TernaryIff`,
  `TernaryOfTwo`.
- `x op= e` reads x once, `x = x op e` follows names, so they differ when x holds the name of a set variable:
  `CompoundIff`, `CompoundOfName`.
- `++x++` parses and then fails a type assertion in the evaluator (pkg/sh/expand/arith.go:42): `CrashIff`,
  `PlainCrashIff`, `DoubleStepCrashes`.
- A claim does not look at `max_attempts`, and a completion does not look at the lease, so attempts go beyond the limit in
  two ways: a lease that ran out on its last attempt is claimed again, or a late failure puts a message back at its limit.
  A late failure can also reopen a closed message: `LimitIff`, `ClosedIff`, and the histories `ExpiredLastAttempt`,
  `LateRetry` and `Reopened`.
- A background subshell's copy keeps the outermost read-only variable of a name rather than the innermost variable:
  `FlattenAgreesIff`, `CopyLosesExport`.
- An environment list asked for a name with "=" reads into a value, and fails when the name is a whole pair
  (pkg/sh/expand/environ.go:263-283): `LookupIff`, `NameReadsValue`.
- The expression for a pattern takes a byte 0x80, and any byte past ASCII after a backslash, as the code point of its
  number (pkg/sh/pattern/pattern.go:254-259 and 319): `RegexpRightIff`, `QuoteMetaRightIff`, `CapitalAGrave`.
- An option spec named "--" breaks the rendering of parsed options: `RoundTripIff`, `SpecsIff`,
  `MarkerBreaks`, `ClusterBreaks`.
- Agents whose namespace contains ":" can share a worker key, and a fingerprint that changes during one reconciliation
  loses a running worker: `CollideIff`, `KeysCollide`, `SyncOwnedIff`, `UnstableLoses`.
- The list of keywords in `IsKeyword` (pkg/sh/syntax/parser.go:929-957) lacks "elif" and the words that start a `let` or a
  declaration, none of which the parser takes as a plain word at the start of a command (2120, 2144-2159), so `Quote` leaves
  them bare: `QuoteFirstIff`, `QuoteElif`, `QuoteLet`.
- A reader of a FIFO that opens after another closed, with a writer open throughout, gets nothing from later writers
  (pkg/sh/memfs/memfs.go:783-799 and 1164-1166): `FillIff`, `SecondReaderStarves`.

## Model

| member | source | states |
|---|---|---|
| `Paths.CleanKeepsProper` | pkg/sh/memfs/memfs.go:118-133 | cleaning a path from a proper one gives a proper one: no empty, "." or ".." component survives |
| `Paths.CleanOfProper` | pkg/sh/memfs/memfs.go:118-133 | a path that is clean already resolves to itself |
| `Paths.ResolvedIsProper` | pkg/sh/memfs/memfs.go:118-133 | a path that resolves lies inside the root and is clean; a ".." that would leave the root is refused |
| `Paths.ResolveCancels` | pkg/sh/memfs/memfs.go:118-133 | a name and the ".." after it cancel wherever they stand, "." and empty components are nothing, and ".." at "/" stays there |
| `Paths.ResolveClimbs` | pkg/sh/memfs/memfs.go:118-133 | what does not cancel: a rooted path is itself, a relative one climbs by its ".."s and adds its names, and either is refused exactly when it ends outside the root |
| `MemGraph.UniquePath` | pkg/sh/memfs/memfs.go:401-420 | in a graph that satisfies the invariant a directory is reached from the root by exactly one path: directories form a tree |
| `MemGraph.AddNodeInv` | pkg/sh/memfs/memfs.go:672-688 | adding an entry for a fresh node keeps the invariant: tree of directories, link counts, fresh inode numbers |
| `MemGraph.AddLinkInv` | pkg/sh/memfs/memfs.go:514-545 | adding an entry for an existing non-directory and counting it keeps the invariant |
| `MemCut.CutTreeInv` | pkg/sh/memfs/memfs.go:486-499 | cutting a whole directory tree off, with the link counts of all it held lowered, keeps the invariant |
| `MemCut.CutLeafInv` | pkg/sh/memfs/memfs.go:304-328 | removing the entry of a file or an empty directory keeps the invariant |
| `MemCut.NoCycle` | pkg/sh/memfs/memfs.go:477-499 | in a graph that satisfies the invariant no directory lies below itself, so the recursive discard ends |
| `MemRename.MoveInv` | pkg/sh/memfs/memfs.go:380-382 | moving an entry to a free place outside what it names keeps the invariant |
| `MemRename.RenameInvIff` | pkg/sh/memfs/memfs.go:347-383 | rename keeps the invariant if and only if it neither puts a counted entry onto itself nor a directory below itself |
| `MemLookup.LookupCorrect` | pkg/sh/memfs/memfs.go:706-746 | a lookup returns a node and path exactly when the unbounded relational resolution of the path reaches them by at most 40 symlinks; a path that resolves by more fails with too many symlinks |
| `MemLookup.LookupIdempotent` | pkg/sh/memfs/memfs.go:631-646 | the path returned is inside the root, walks to the node without symlinks save a last one not followed, and looks up to itself: evaluating symlinks twice is evaluating them once |
| `MemLookup.TooManyIff` | pkg/sh/memfs/memfs.go:706-709 | "too many symlinks" is returned exactly when following the path meets more than 40 symlinks before anything else stops it |
| `MemLookup.ResolvesUnique` | pkg/sh/memfs/memfs.go:706-746 | the relational resolution of a path has at most one result and one number of symlinks |
| `MemLookup.ResolvesBelow` | pkg/sh/memfs/memfs.go:728-741 | resolving a path and then names below it is resolving the whole: restarting with the remaining names joined on loses nothing |
| `MemLookup.Restart` | pkg/sh/memfs/memfs.go:733-740 | a lookup of a prefix followed by more names continues from where the prefix resolved, with its symlinks counted |
| `MemLookup.ResolvesExtends` | pkg/sh/memfs/memfs.go:706-746 | a resolution stays what it was when entries are only added |
| `MemSteps.LookupIff` | pkg/sh/memfs/memfs.go:706-746 | lookup returns exactly what single steps come to, errors included: a node at the end of the path, a missing name, a non-directory in the way, a symlink out of the root, or too many symlinks at the 41st |
| `MemSteps.LeadsUnique` | pkg/sh/memfs/memfs.go:706-746 | these steps come to one result only |
| `MemSteps.ParentFails` | pkg/sh/memfs/memfs.go:690-746 | a path whose parent's lookup fails, fails for the same reason or runs out of symlinks first |
| `MemOps.MakeGood` | pkg/sh/memfs/memfs.go:401-420 | Mkdir, Mkfifo and Symlink leave a filesystem that satisfies the invariant |
| `MemOps.LinkGood` | pkg/sh/memfs/memfs.go:514-545 | Link leaves a filesystem that satisfies the invariant |
| `MemOps.RemoveGood` | pkg/sh/memfs/memfs.go:304-328 | Remove leaves a filesystem that satisfies the invariant |
| `MemOps.NewGood` | pkg/sh/memfs/memfs.go:93-108 | a new filesystem satisfies the invariant |
| `MemOutcomes.LocateOutcome` | pkg/sh/memfs/memfs.go:690-704 | a name leads to exactly one place, or to none because it is out of the root, its directory's lookup fails or comes to no directory, or it is the root |
| `MemOutcomes.MakeOutcome` | pkg/sh/memfs/memfs.go:401-420 | Mkdir, Mkfifo and Symlink node by node: at a free place one new node with one entry and nothing else, anywhere else the error and no change |
| `MemOutcomes.LinkOutcome` | pkg/sh/memfs/memfs.go:514-545 | Link node by node: one more entry for the node the old name leads to, counted, and nothing else, or the first thing wrong and no change |
| `MemOutcomes.RemoveOutcome` | pkg/sh/memfs/memfs.go:304-328 | Remove node by node: one entry less and a file's count lowered, or the error, a directory that is not empty included, and no change |
| `MemOutcomes.RemoveAllOutcome` | pkg/sh/memfs/memfs.go:472-500 | RemoveAll: exactly the entry and all entries below it go, nothing to remove is a success, and only a barred way is an error |
| `MemOutcomes.RenameOutcome` | pkg/sh/memfs/memfs.go:347-383 | Rename node by node: the old entry gone, the new one for the same node, a file replaced loses a link, or the first thing wrong and no change |
| `MemDiscard.PartialDone` | pkg/sh/memfs/memfs.go:767-781 | a recursive discard that has come to its last entry has lowered each link count by exactly the entries it removed, also where a detached cycle makes it meet itself |
| `MemDiscard.GoneRound` | pkg/sh/memfs/memfs.go:767-781 | one turn of the discard loop: the entry deleted and its child discarded add up to the part of the tree already gone |
| `MemInvariant.RemoveAllGood` | pkg/sh/memfs/memfs.go:472-500 | RemoveAll leaves a filesystem that satisfies the invariant, for the root as for any other path |
| `MemInvariant.DiscardIsCutTree` | pkg/sh/memfs/memfs.go:767-781 | the recursive discard is the cut of the whole tree below the entry |
| `MemInvariant.RenameGoodIff` | pkg/sh/memfs/memfs.go:347-383 | Rename by paths leaves a good filesystem if and only if the two paths do not name one counted entry or a directory and a place below it |
| `MemInvariant.StepGoodIff` | pkg/sh/memfs/memfs.go:236-569 | any one operation on a good filesystem leaves a good one if and only if it is not such a rename |
| `MemInvariant.RunGoodIff` | pkg/sh/memfs/memfs.go:236-569 | over every sequence of operations the filesystem stays good throughout if and only if no operation is such a rename |
| `MemInvariant.NewRunGoodIff` | pkg/sh/memfs/memfs.go:93-569 | the same from a new filesystem: directories form a tree, link counts count entries, inode numbers are distinct |
| `MemInvariant.RenameOntoSelfBreaks` | pkg/sh/memfs/memfs.go:373-381 | a concrete run: renaming a pipe onto itself leaves its link count at 0 with its entry still there |
| `MemInvariant.RenameBelowSelfBreaks` | pkg/sh/memfs/memfs.go:373-381 | a concrete run: renaming a directory below itself detaches a cycle from the root |
| `MemFiles.RunRefines` | pkg/sh/memfs/memfs.go:998-1041 | any interleaving of opens, reads, writes, appends and truncations through many handles refines one byte sequence given by a log: each byte is the last write to its place since the last truncation, and zero in gaps |
| `MemFiles.AppendKeeps` | pkg/sh/memfs/memfs.go:1026-1028 | a write through an appending handle keeps every byte there was and adds its own at the end |
| `MemFiles.ReadAfterWrite` | pkg/sh/memfs/memfs.go:998-1041 | what was written at an offset is what a read at that offset returns |
| `MemFiles.ReadOutcome` | pkg/sh/memfs/memfs.go:998-1015 | a read gives the next bytes, as many as fit, and moves past them, or is closed, not readable or at the end |
| `MemFiles.WriteOutcome` | pkg/sh/memfs/memfs.go:1017-1041 | a write sets the bytes it covers, fills a gap with zeros and keeps every other byte, or is closed or not writable |
| `MemRuns.MkdirAllThenLookup` | pkg/sh/memfs/memfs.go:422-470 | after a successful MkdirAll the path resolves to a directory, so the lookup finds it unless it takes more than 40 symlinks, and nothing that was there has changed |
| `MemRuns.MkdirWalkGood` | pkg/sh/memfs/memfs.go:436-469 | the component walk keeps the invariant, also when it fails |
| `MemRuns.CreatedIsFound` | pkg/sh/memfs/memfs.go:748-765 | once the missing file at the end of a chain of dangling symlinks is created, the original path finds it |
| `MemRuns.WriteThenRead` | pkg/sh/memfs/memfs.go:502-512 | WriteFile followed by opening the same path and reading gives the data back, through dangling symlinks too |
| `MemOpens.ExistingOpened` | pkg/sh/memfs/memfs.go:250-271 | opening a name that leads to a node: ErrExist with O_CREATE and O_EXCL, refused for a directory, a pipe for a FIFO, and else that file, emptied only when opened for writing with O_TRUNC and not O_APPEND, with the rights and offset of the flags |
| `MemOpens.UnfoundOpened` | pkg/sh/memfs/memfs.go:239-277 | a name that leads nowhere fails as its lookup does, save a missing one to be created |
| `MemOpens.CreateEnds` | pkg/sh/memfs/memfs.go:748-765 | where a create goes: along at most 40 dangling symlinks to a free place or to a missing directory, never out of the root |
| `MemOpens.CreateStops` | pkg/sh/memfs/memfs.go:748-765 | it stops at what is no symlink and refuses a target out of the root and a 42nd path |
| `MemOpens.MissingOpened` | pkg/sh/memfs/memfs.go:273-302 | a missing name opened to create it becomes one new empty regular file there, always writable, O_EXCL or not, or nothing changes |
| `MemOpens.WriteOutcome` | pkg/sh/memfs/memfs.go:502-512 | WriteFile: the file holds exactly the data, made if it was missing, and anything else fails as opening does and changes nothing |
| `MemOpens.MkdirAllOutcome` | pkg/sh/memfs/memfs.go:422-470 | MkdirAll: from the first missing name on a chain of new directories and nothing else; a name in the way is the error and then nothing has changed |
| `MemEffects.MakeIsFound` | pkg/sh/memfs/memfs.go:401-420 | after Mkdir, Mkfifo or Symlink the name leads to a new empty node of the kind made, and nothing else is lost |
| `MemEffects.FoundStays` | pkg/sh/memfs/memfs.go:706-746 | a lookup that found something finds the same after entries are added |
| `MemEffects.LinkIsFound` | pkg/sh/memfs/memfs.go:514-545 | after Link the new name leads to the very node the old one leads to |
| `MemEffects.RemoveIsGone` | pkg/sh/memfs/memfs.go:304-328 | after Remove the name leads nowhere, and any other lookup finds what it found or nothing |
| `MemEffects.RemoveAllIsGone` | pkg/sh/memfs/memfs.go:472-500 | after RemoveAll of an entry the name leads nowhere, and any other lookup finds what it found or nothing |
| `MemEffects.RenameIsFound` | pkg/sh/memfs/memfs.go:347-383 | after a good Rename the new name, in the directory it led to, is the node renamed, and the old name, if another entry, is gone |
| `MemFs.Node.constructor` | pkg/sh/memfs/memfs.go:672-688 | a new node has its kind and inode number, one link, no entries and no data |
| `MemFs.RegularFile.constructor` | pkg/sh/memfs/memfs.go:259-271 | a handle has the rights and the offset its flags give it |
| `MemFs.RegularFile.Read` | pkg/sh/memfs/memfs.go:998-1015 | Read returns the bytes at the offset and moves it, or end of file, closed or bad descriptor, exactly as ReadFile says |
| `MemFs.RegularFile.Write` | pkg/sh/memfs/memfs.go:1017-1041 | Write changes the node's bytes and the offset exactly as WriteFileAt says and no other node |
| `MemFs.RegularFile.CopyIn` | pkg/sh/memfs/memfs.go:1029-1035 | growing and copying sets bytes o..o+n, keeps the others and fills the gap with zeros |
| `MemFs.RegularFile.Close` | pkg/sh/memfs/memfs.go:1043-1046 | a closed handle stays closed; the file is unchanged |
| `MemFs.FS.constructor` | pkg/sh/memfs/memfs.go:93-108 | the new object is a new filesystem with one empty directory |
| `MemFs.FS.SameInodeSameNode` | pkg/sh/memfs/memfs.go:617-621 | two nodes of one filesystem with the same inode number are the same node |
| `MemFs.FS.FollowLink` | pkg/sh/memfs/memfs.go:728-741 | what the restart in the lookup loop returns is the lookup of the target joined with the remaining names |
| `MemFs.FS.LookupPathLocked` | pkg/sh/memfs/memfs.go:706-746 | the component loop over objects computes exactly the lookup function on the graph |
| `MemFs.FS.LookupParentLocked` | pkg/sh/memfs/memfs.go:690-704 | the parent directory, its resolved path and the last name, or the error, as LookupParent says |
| `MemFs.FS.MakeNode` | pkg/sh/memfs/memfs.go:401-420 | a new entry for a fresh node where the path says, or the error and no change |
| `MemFs.FS.Mkdir` | pkg/sh/memfs/memfs.go:401-420 | the new state is Mkdir of the old one |
| `MemFs.FS.Mkfifo` | pkg/sh/memfs/memfs.go:648-670 | the new state is Mkfifo of the old one |
| `MemFs.FS.MakeSymlink` | pkg/sh/memfs/memfs.go:547-569 | the new state is Symlink of the old one, with the target kept as given |
| `MemFs.FS.DropNode` | pkg/sh/memfs/memfs.go:767-781 | discarding without recursion lowers a non-directory's link count by one, never below zero |
| `MemFs.FS.DiscardTree` | pkg/sh/memfs/memfs.go:767-781 | the recursive discard empties every directory of the tree and lowers each link count by the entries that went, for cyclic structures too |
| `MemFs.FS.RemoveName` | pkg/sh/memfs/memfs.go:304-328 | the new state is Remove of the old one |
| `MemFs.FS.RemoveTree` | pkg/sh/memfs/memfs.go:472-500 | the new state is RemoveAll of the old one |
| `MemFs.FS.RenameName` | pkg/sh/memfs/memfs.go:347-383 | the new state is Rename of the old one, the two broken cases included |
| `MemFs.FS.LinkName` | pkg/sh/memfs/memfs.go:514-545 | the new state is Link of the old one |
| `MemFs.FS.ResolveCreatePathLocked` | pkg/sh/memfs/memfs.go:748-765 | the path a create goes to, as CreatePath says |
| `MemFs.FS.MkdirAllName` | pkg/sh/memfs/memfs.go:422-470 | the loop leaves the state of MkdirAll on the old one |
| `MemFifo.RunInv` | pkg/sh/memfs/memfs.go:783-1183 | over any interleaving of opens, reads, writes and closes, bytes delivered followed by bytes buffered are the bytes accepted in the present epoch, in order |
| `MemFifo.EofMeansAllDelivered` | pkg/sh/memfs/memfs.go:1115-1117 | end of file is returned only when a writer has closed and every accepted byte has been delivered |
| `MemFifo.ReaderGone` | pkg/sh/memfs/memfs.go:1164-1166 | a write after the reader closed fails and changes nothing |
| `MemFifo.BlockedIff` | pkg/sh/memfs/memfs.go:1112-1114 | a read waits exactly when nothing is buffered and no writer has closed |
| `MemFifo.OpenIff` | pkg/sh/memfs/memfs.go:783-814 | an open succeeds exactly when it is for one of reading and writing and nobody has that end; with neither end open it starts empty, else it leaves buffer and closings alone |
| `MemFifo.EndsSee` | pkg/sh/memfs/memfs.go:1106-1183 | what the two ends see of each other: order kept, a write after the reader closed refused, the end of file after the writer closed, a closed end dead, a second close nothing |
| `MemFifo.FifoState.Open` | pkg/sh/memfs/memfs.go:783-814 | opening gives an end, or busy or invalid, and starts a new epoch exactly when neither end was open |
| `MemFifo.FifoReadFile.Read` | pkg/sh/memfs/memfs.go:1106-1121 | a read takes the front of the buffer, or is end of file, blocked or closed, as ReadPipe says |
| `MemFifo.FifoReadFile.Close` | pkg/sh/memfs/memfs.go:1127-1138 | closing twice is closing once; the state is the reader's close of the old one |
| `MemFifo.FifoWriteFile.Write` | pkg/sh/memfs/memfs.go:1158-1170 | a write is appended to the buffer, or refused, as WritePipe says |
| `MemFifo.FifoWriteFile.Close` | pkg/sh/memfs/memfs.go:1172-1183 | closing twice is closing once; the state is the writer's close of the old one |
| `MemPipes.Files.OpenFile` | pkg/sh/memfs/memfs.go:236-302 | by name: the state of the filesystem and the file's handle are those of OpenFile on the old one, which ExistingOpened, UnfoundOpened and MissingOpened give on lookups, and for a FIFO the end, error and pipe are those of opening its pipe |
| `MemPipes.Files.OpenFifo` | pkg/sh/memfs/memfs.go:783-814 | one FIFO's pipe is opened, made first if there is none, and no other pipe changes |
| `MemPipes.Files.WriteFile` | pkg/sh/memfs/memfs.go:502-512 | by name: the new state is WriteFile of the old one, and a FIFO's pipe is opened, written and closed, with the first error |
| `MemPipes.FillIff` | pkg/sh/memfs/memfs.go:783-814 | writing a FIFO by name succeeds if and only if no writer has it open and, if a reader has, no reader has closed it since it was last unused; then the data follows what was buffered |
| `MemPipes.SecondReaderStarves` | pkg/sh/memfs/memfs.go:1127-1166 | the failing history: after a second reader has opened, writers are refused as if no reader were there |
| `ArithSyntax.FixFits` | pkg/sh/syntax/parser_arithm.go:11-299 | the tree with parentheses added only where grammar levels need them is grammatical, is the same tree without them, and is unchanged if it needed none |
| `ArithParse.ParseSound` | pkg/sh/syntax/parser_arithm.go:11-299 | any tree a level's method returns flattens to exactly the tokens consumed and is grammatical at that level |
| `ArithRoundTrip.Complete` | pkg/sh/syntax/parser_arithm.go:11-299 | the tokens of any grammatical tree, followed by anything the level stops at, parse to that tree |
| `ArithRoundTrip.RoundTrip` | pkg/sh/syntax/parser_arithm.go:5-299 | printing any sane tree with the parentheses it needs and parsing gives it back, consuming exactly its tokens |
| `ArithRoundTrip.ParseThenFlat` | pkg/sh/syntax/parser_arithm.go:5-299 | a successful parse consumed exactly the tree's tokens |
| `ArithRoundTrip.FlatInjective` | pkg/sh/syntax/parser_arithm.go:11-299 | the grammar is unambiguous: trees with the same tokens are equal |
| `ArithRoundTrip.AcceptsExactly` | pkg/sh/syntax/parser_arithm.go:5-299 | tokens are accepted as one whole expression if and only if they are those of some grammatical tree |
| `ArithRoundTrip.StopsOnlyAtEnd` | pkg/sh/syntax/parser_arithm.go:5-299 | a parse that succeeds has not stopped before an operator it could have taken, and one that returns nothing had nothing to start with |
| `ArithPrecedence.Precedence` | pkg/sh/syntax/parser_arithm.go:86-124 | of any two binary operators the one on the tighter of eleven listed levels takes the middle operand, and of two on one level the left one |
| `ArithPrecedence.PowerBinds` | pkg/sh/syntax/parser_arithm.go:126-167 | ** is right-associative and tighter than these, a prefix operator tighter still |
| `ArithPrecedence.AssignmentBinds` | pkg/sh/syntax/parser_arithm.go:15-44 | assignments are right-associative and take everything to their right but a comma |
| `ArithPrecedence.TernaryBinds` | pkg/sh/syntax/parser_arithm.go:46-84 | a ternary takes any operator but a comma into its condition and last branch, commas only between, and nests to the right |
| `ArithPrecedence.StepBinds` | pkg/sh/syntax/parser_arithm.go:169-242 | ++ and -- are taken before any literal and after a name; after any other literal they, like assignments, are errors |
| `ArithParser.Parser.constructor` | pkg/sh/syntax/parser_arithm.go:5-9 | the parser starts at the first token without an error |
| `ArithParser.Parser.GotNewl` | pkg/sh/syntax/parser_arithm.go:152-155 | skipping a newline changes nothing the parse depends on |
| `ArithParser.Parser.NextArith` | pkg/sh/syntax/parser_arithm.go:246-264 | one token is consumed, and a newline after it |
| `ArithParser.Parser.ArithmExpr` | pkg/sh/syntax/parser_arithm.go:86-124 | each level's method leaves the tree and the remaining tokens its parse function gives, or the error |
| `ArithParser.Parser.ArithmExprBinary` | pkg/sh/syntax/parser_arithm.go:266-299 | the loop builds the left-associative tree of its level |
| `ArithParser.Parser.ArithmExprAssign` | pkg/sh/syntax/parser_arithm.go:15-44 | assignment is right-associative and only after a name |
| `ArithParser.Parser.ArithmExprTernary` | pkg/sh/syntax/parser_arithm.go:46-84 | the ternary with its three operands at their levels, or one of its errors |
| `ArithParser.Parser.ArithmExprPower` | pkg/sh/syntax/parser_arithm.go:126-150 | exponentiation is right-associative |
| `ArithParser.Parser.ArithmExprUnary` | pkg/sh/syntax/parser_arithm.go:152-167 | prefix operators nest |
| `ArithParser.Parser.ArithmExprValue` | pkg/sh/syntax/parser_arithm.go:169-242 | a value: word, parenthesised expression, prefix step before a literal, postfix step after a name |
| `ArithParser.Parser.Postfix` | pkg/sh/syntax/parser_arithm.go:227-242 | a postfix step is taken after a name and refused after anything else |
| `ArithNumbers.IntPow` | pkg/sh/expand/arith.go:165-175 | repeated squaring gives a to the b modulo 2^64, signed, for every b >= 0, and 1 for negative b |
| `ArithNumbers.BitsAt` | pkg/sh/expand/arith.go:209-214 | bit i of a bitwise result is the operator on bit i of the operands |
| `ArithNumbers.AtoiFormat` | pkg/sh/expand/arith.go:114-119 | reading a formatted 64-bit number gives the number back |
| `ArithNumbers.AtoiReads` | pkg/sh/expand/arith.go:114-119 | digits with a sign and white space around them read as their decimal value, or as the nearest 64-bit number |
| `ArithNumbers.AtoiRefuses` | pkg/sh/expand/arith.go:114-119 | anything else among the digits makes it 0, unless the digits before it are too big already, which gives the nearest 64-bit number |
| `ArithNumbers.AtoiBlank` | pkg/sh/expand/arith.go:114-119 | nothing but white space and at most a sign is 0 |
| `ArithNumbers.FormatIs` | pkg/sh/expand/arith.go:51-51 | what a step or assignment stores is the number's decimal digits, the shortest, after "-" if negative |
| `ArithLaws.Recombine` | pkg/sh/expand/arith.go:177-194 | subtraction undoes wrapped addition, and quotient times divisor plus remainder is the dividend, also where the quotient wraps; division by zero fails |
| `ArithLaws.Negation` | pkg/sh/expand/arith.go:197-222 | the bitwise operators are duals under ~ as the logical ones are under !, and ! turns each comparison into the one it leaves out |
| `ArithLaws.Powers` | pkg/sh/expand/arith.go:195-218 | one more power is one more factor; a left shift by y multiplies by the y-th power of two modulo 2^64, however large y is, a right shift divides by it rounding down, and a negative count shifts everything out |
| `ArithLaws.BitByBit` | pkg/sh/expand/arith.go:209-214 | each bit and the sign of a bitwise result is the operator on those of the operands |
| `ArithLaws.CommaIs` | pkg/sh/expand/arith.go:93-101 | a comma evaluates its left side, then its right side in the variables that leaves, and is the right one; a failing left side is all there is |
| `ArithLaws.TimesMore` | pkg/sh/expand/arith.go:183-184 | multiplication is repeated addition modulo 2^64 |
| `ArithLaws.PrefixIs` | pkg/sh/expand/arith.go:59-74 | prefix + changes nothing, - subtracts from 0, ! asks for zero and ~ turns every bit over; a failing operand is the outcome |
| `ArithLaws.WordIs` | pkg/sh/expand/arith.go:19-23 | a word that is no literal reads as the literal it expands to, or fails as its expansion does |
| `ArithLaws.FailsIff` | pkg/sh/expand/arith.go:177-229 | exactly the operators missing from the switch are refused, ^^ among them, and no other fails but a division by zero |
| `ArithEval.WordValue` | pkg/sh/expand/arith.go:24-37 | a literal's value is the number at the end of its chain of names, and 0 when that takes more than 99 hops or runs in a circle |
| `ArithEval.StripMeaning` | pkg/sh/expand/arith.go:38-39 | parentheses change neither value, error nor variables |
| `ArithEval.PrintedMeaning` | pkg/sh/expand/arith.go:17-105 | the tree parsed back from a printed tree evaluates to the same value, error and variable updates |
| `ArithEval.EvalFrame` | pkg/sh/expand/arith.go:17-163 | evaluation changes only variables the tree assigns to, never a read-only one, and only to decimal numbers |
| `ArithEval.NoCrash` | pkg/sh/expand/arith.go:42-42 | every tree the parser can mean, ternaries included, evaluates without a failed type assertion if no prefix step stands before a postfix one |
| `ArithEval.CrashIff` | pkg/sh/expand/arith.go:40-105 | an evaluation that fails the assertion has such a double step on its way, outside the branches its ternaries do not take, and one that succeeds has none: unless it fails otherwise it crashes if and only if there is one |
| `ArithEval.WayIsTree` | pkg/sh/expand/arith.go:82-91 | what is on the way is in the tree, and without ternaries everything in the tree is on the way |
| `ArithEval.PlainCrashIff` | pkg/sh/expand/arith.go:40-105 | without ternaries, an evaluation that does not fail otherwise crashes if and only if the tree has a double step |
| `ArithEval.DoubleStepCrashes` | pkg/sh/expand/arith.go:42-42 | `++x++` is accepted by the parser and always fails the evaluator's type assertion |
| `ArithEval.AssignThenRead` | pkg/sh/expand/arith.go:121-163 | after `x = e` succeeds x evaluates to the value assigned |
| `ArithEval.StepIsAssign` | pkg/sh/expand/arith.go:40-57 | `++x` is `x += 1`, and `x++` leaves the same variables but gives the value before |
| `ArithEval.CompoundIff` | pkg/sh/expand/arith.go:121-163 | `x op= e` is `x = x op e` for every operator and e if and only if x reads alike both ways or cannot be set, whatever expanding words sets, as long as it does not change whether x can be set |
| `ArithEval.CompoundOfName` | pkg/sh/expand/arith.go:121-163 | the failing input: where x holds the name of y and y holds 5, `x += 1` makes 1 and `x = x + 1` makes 6 |
| `ArithEval.NumbersReadAlike` | pkg/sh/expand/arith.go:121-163 | unset variables and those that hold no name always read alike |
| `ArithEval.NumbersStay` | pkg/sh/expand/arith.go:17-163 | evaluation keeps all variables unset or numeric, and then compound assignment always reads as spelled out |
| `ArithEval.TernaryIff` | pkg/sh/expand/arith.go:82-91 | the ternary takes the textbook branch for all operands if and only if the condition fails or is 0 or 1: any other nonzero value takes the false branch |
| `ArithEval.TernaryOfTwo` | pkg/sh/expand/arith.go:82-91 | the failing input: `2 ? 1 : 0` is 0 |
| `ArithConfig.Config.Follow` | pkg/sh/expand/arith.go:24-35 | the loop with its counter follows at most 99 names |
| `ArithConfig.Config.Arithm` | pkg/sh/expand/arith.go:17-105 | the evaluator over a mutable environment leaves exactly the value and variables of the evaluation function |
| `ArithConfig.Config.Step` | pkg/sh/expand/arith.go:41-57 | increment and decrement set the variable and return the value before or after |
| `ArithConfig.Config.Ternary` | pkg/sh/expand/arith.go:82-91 | only the branch taken is evaluated |
| `ArithConfig.Config.BinOp` | pkg/sh/expand/arith.go:177-229 | the operator's value as Recombine, Powers, TimesMore, BitByBit, Negation and CommaIs give it, with exponentiation by repeated squaring, or division by zero or unsupported exactly as FailsIff says |
| `ArithConfig.Config.Assign` | pkg/sh/expand/arith.go:121-163 | the variable is read before the right-hand side is evaluated, then set to the result |
| `MailboxRows.InsertInv` | pkg/server/store/mailbox.go:413-468 | an inserted row is one more message and keeps the tables' invariant |
| `MailboxRows.ClaimInv` | pkg/server/store/mailbox.go:79-196 | a claim adds one run and one attempt and sets run id, owner and expiry together: attempts still count runs |
| `MailboxRows.CompleteInv` | pkg/server/store/mailbox.go:241-336 | a completion clears the lease as a whole, closes or requeues the message, adds exactly its outbox and keeps the invariant |
| `MailboxRows.CompleteIff` | pkg/server/store/mailbox.go:241-336 | a completion commits if and only if run and message exist and each outbox message has a new key of its own and an agent: the run need not hold the message's lease |
| `MailboxRows.CandidateExists` | pkg/server/store/mailbox.go:393-411 | a first row in order exists exactly when some row is eligible |
| `MailboxLaws.EnqueueOutcome` | pkg/server/store/mailbox.go:413-468 | one new row, field by field, with its defaults for id, thread, time and limit, and nothing else; refused without a namespace, a known recipient or a new id |
| `MailboxLaws.CandidateIs` | pkg/server/store/mailbox.go:393-411 | a claim may take exactly those messages that are due and queued or no longer leased, of which none is available before it or equally and made before it |
| `MailboxLaws.ClaimOutcome` | pkg/server/store/mailbox.go:79-196 | a claim takes such a message, leases that row with one attempt more and adds one running run; every other field and row stays |
| `MailboxLaws.CompleteOutcome` | pkg/server/store/mailbox.go:241-336 | a completion field by field: run finished, message dead, queued again or done with its times and reason, each outbox message put in, and nothing else; or the first thing wrong |
| `MailboxRuns.RunInv` | pkg/server/store/mailbox.go:79-336 | in every state of every interleaving, late completions included, attempts equal the runs naming the message, leased means run id, owner and expiry are set, and the completion time is set exactly in terminal states |
| `MailboxRuns.SizeConserved` | pkg/server/store/mailbox.go:13-336 | the mailbox holds what it held plus every message enqueued, fired or sent |
| `MailboxRuns.StepRow` | pkg/server/store/mailbox.go:106-336 | a transaction changes a message only if it claims or completes that message |
| `MailboxRuns.Identity` | pkg/server/store/mailbox.go:13-336 | recipient, sender, thread, content and attempt limit of a message never change, attempts never fall and the first claim time stays |
| `MailboxRuns.ClaimsSeparated` | pkg/server/store/mailbox.go:79-336 | two successive claims of one message are separated by its lease's expiry or by a completion that requeues it |
| `MailboxRuns.ClosedIff` | pkg/server/store/mailbox.go:280-312 | a terminal message stays terminal in a step if and only if the step does not request, of tables that accept it, that the message be retried |
| `MailboxRuns.NotBefore` | pkg/server/store/mailbox.go:393-411 | a message is never claimed before it is available, and only a completion changes when that is |
| `MailboxRuns.RetryWaits` | pkg/server/store/mailbox.go:287-292 | a requeued message is not claimed again before its retry time |
| `MailboxWorkers.TriggerReads` | pkg/server/queue.go:46-65 | when the sender overrides none of the server's keys, a trigger's metadata gives back its namespace, agent, message, thread, run and attempts |
| `MailboxLaws.TriggerIs` | pkg/server/queue.go:46-65 | key by key: the sender's own value where it gives one, else the server's key, else nothing |
| `MailboxWorkers.ClaimBoundIff` | pkg/server/store/mailbox.go:106-124 | a claim of a message within its limit goes beyond it if and only if no attempt is left |
| `MailboxWorkers.Verdict` | pkg/server/persistence.go:80-91 | a failed result is retried while attempts remain and dead-lettered on the last; a finished one completes |
| `MailboxWorkers.SteadyRun` | pkg/server/persistence.go:67-129 | in every disciplined history (no lease expires early, no metadata overrides) attempts stay within the limit, dead letters have used them all, and each trigger out holds its message's lease |
| `MailboxWorkers.TerminalAbsorbs` | pkg/server/store/mailbox.go:280-312 | in a disciplined history a completed or dead-lettered message never changes again |
| `MailboxWorkers.HandleVerdict` | pkg/server/persistence.go:67-129 | handling a live trigger completes, requeues or, on exactly the last attempt, dead-letters its message, and can fail only on an outbox message |
| `MailboxLaws.EntryBecomes` | pkg/server/persistence.go:146-186 | an outbox entry becomes a message from the trigger's agent to the entry's recipient, in the entry's thread or else the trigger's, with the entry's body, metadata, time and limit |
| `MailboxLaws.HandleOutcome` | pkg/server/persistence.go:67-186 | what a handled result commits, on the tables: run and message as the status and attempts decide, and for each entry of a finished result one row from the trigger's agent to the entry's recipient, with the entry's content, its thread or the trigger's, and its time or now; or exactly when nothing |
| `MailboxWorkers.MailConserved` | pkg/server/persistence.go:93-109 | in every history mailbox size is external enqueues plus schedule fires plus outbox entries of finished runs |
| `MailboxLimits.LimitIff` | pkg/server/store/mailbox.go:79-336 | over every history from empty tables attempts stay within the limit throughout if and only if no act claims a lease that ran out on its last attempt and none claims a message that a late failed result, whose trigger says attempts are left, put back without one |
| `MailboxLimits.ClaimAtLimitIff` | pkg/server/store/mailbox.go:106-124 | a message claimed without an attempt left is one or the other of these |
| `MailboxLimits.QueuedAtLimit` | pkg/server/persistence.go:80-91 | a queued message without an attempt left was put back by a late failed result and not touched since |
| `MailboxLimits.ExpiredLastAttempt` | pkg/server/store/mailbox.go:106-124 | a history from empty tables in which a lease that ran out on the only attempt is claimed again |
| `MailboxLimits.LateRetry` | pkg/server/store/mailbox.go:298-312 | a history from empty tables in which no such lease is claimed, a late failure puts a message back at its limit, and it is claimed beyond it |
| `MailboxLimits.Reopened` | pkg/server/store/mailbox.go:298-312 | a history from empty tables in which a late failure reopens a completed message |
| `MailboxStore.Store.EnqueueMessage` | pkg/server/store/mailbox.go:13-77 | the tables become those of Enqueue, or the error and no change |
| `MailboxStore.Store.ClaimCandidate` | pkg/server/store/mailbox.go:393-411 | an eligible row first by availability and age, or none only if none is eligible |
| `MailboxStore.Store.ClaimNextMessage` | pkg/server/store/mailbox.go:79-196 | the best eligible message is leased to a new run; no eligible message or an unrenderable one changes nothing |
| `MailboxStore.Store.CompleteRun` | pkg/server/store/mailbox.go:241-336 | run, message and outbox are written together or, on any failure, not at all |
| `MailboxStore.SendOutbox` | pkg/server/store/mailbox.go:322-328 | the outbox is inserted in order; one failure fails all |
| `MailboxStore.InsertFails` | pkg/server/store/mailbox.go:322-328 | the first outbox message that fails decides the error of the whole |
| `MailboxStore.ExtractEach` | pkg/server/persistence.go:146-186 | the loop returns, in order, for every entry a message from the context's agent to the entry's recipient with the entry's own content, or none if one has no recipient or an unreadable time |
| `MailboxStore.HandleResult` | pkg/server/persistence.go:67-129 | nothing is written exactly when the trigger is incomplete, an entry is no good or sending is not allowed, or run, message, a recipient or a new id is missing; else the tables change field by field as HandleOutcome says |
| `MailboxStore.NextTrigger` | pkg/server/queue.go:38-76 | one poll claims at most one message and hands out its metadata, the sender's keys last, or leaves it claimed when its payload does not decode |
| `Schedules.CatchUpIsNext` | pkg/server/store/schedule.go:147-152 | the catch-up loop ends at the first cron instant after both the due instant and now, however many were missed |
| `Schedules.EverySecond` | pkg/server/store/schedule.go:147-152 | a `Next` that is the least instant exists, so what is proved of any such `Next` is about something |
| `Schedules.StepSafe` | pkg/server/store/schedule.go:11-209 | every transaction keeps schedules due only while enabled and only after they last fired |
| `Schedules.FireEffect` | pkg/server/store/schedule.go:135-209 | a committed fire adds exactly one message and leaves the schedule due at the first instant after the scheduler's now; any other changes nothing |
| `Schedules.FiresIncrease` | pkg/server/store/schedule.go:94-209 | over every interleaving of schedulers with stale reads, a schedule's fires are for strictly later instants, each after the moment of every earlier fire: no instant fires twice and missed ones never fire |
| `Schedules.LastFireGrows` | pkg/server/store/schedule.go:165-177 | last_fire never goes back |
| `ScheduleLaws.CreateOutcome` | pkg/server/store/schedule.go:11-70 | one new row, field by field, due at the first instant after now if enabled, or no change |
| `ScheduleLaws.DisableOutcome` | pkg/server/store/schedule.go:72-92 | one row disabled and due at no time; the rest of it and every other row stays |
| `ScheduleLaws.FireOutcome` | pkg/server/store/schedule.go:135-209 | a fire happens exactly when the schedule is enabled and due at the instant read, its agent exists and the id is new; then one message for that agent, from nobody, names schedule and instant, and the schedule moves to the first instant after now |
| `ScheduleStore.Scheduler.constructor` | pkg/server/store/schedule.go:11-70 | a scheduler over tables without schedules satisfies the invariant |
| `ScheduleStore.Scheduler.CreateSchedule` | pkg/server/store/schedule.go:11-70 | a new schedule, under a generated id if its own is blank, is due at the next instant if enabled; refused without a namespace, an agent or a new id |
| `ScheduleStore.Scheduler.DisableSchedule` | pkg/server/store/schedule.go:72-92 | disabled and no longer due, or not found |
| `ScheduleStore.Scheduler.FireSchedule` | pkg/server/store/schedule.go:135-209 | compare-and-set: fires only if the row is still enabled and due at the instant read |
| `ScheduleStore.Scheduler.FireAll` | pkg/server/store/schedule.go:121-133 | the loop is a run of fire transactions over the records read; it returns those that fired and stops at an error, keeping earlier fires |
| `Utf8.DecodeEncode` | pkg/sh/syntax/quote.go:58-58 | a rune that decodes encodes to the bytes it came from |
| `Utf8.EncodeIs` | pkg/sh/syntax/quote.go:115-115 | a code point is written in as few bytes as hold it, the first marked with their number, the others carrying six bits each |
| `Utf8.EncodeDecode` | pkg/sh/syntax/quote.go:106-106 | what is written for a code point decodes to it and takes no more, whatever follows |
| `Utf8.DecodeIff` | pkg/sh/syntax/quote.go:58-58 | decoding finds the code point whose encoding the bytes start with, and one invalid byte if there is none |
| `Utf8.ValidConcat` | pkg/sh/syntax/quote.go:170-178 | valid texts joined are valid |
| `QuoteRoundTrip.QuoteExpands` | pkg/sh/syntax/quote.go:48-179 | every byte string Quote accepts, in bash, POSIX or mksh, expands back to exactly itself as an argument, whichever of the four forms was chosen, and what is returned is no keyword by IsKeyword |
| `QuoteRoundTrip.QuoteFirstIff` | pkg/sh/syntax/parser.go:2098-2180 | at the start of a command what Quote returns is one of the language's reserved words, and so does not read back, if and only if the input is "elif", in bash or mksh "let", "local", "export", "readonly", "typeset" or "nameref", or in bash "declare"; any other input reads back exactly |
| `QuoteRoundTrip.QuoteElif` | pkg/sh/syntax/parser.go:2120-2121 | a failing input: "elif" is returned as it is in every language, and reads back as an argument but not at the start of a command |
| `QuoteRoundTrip.QuoteLet` | pkg/sh/syntax/parser.go:2144-2147 | another: "let" is returned as it is and in bash and mksh is no plain word at the start of a command, in POSIX it is one |
| `QuoteRoundTrip.UnlistedAre` | pkg/sh/syntax/parser.go:929-957 | these words are exactly the reserved ones that IsKeyword does not list |
| `QuoteRoundTrip.QuoteForms` | pkg/sh/syntax/quote.go:97-179 | the output is a bare word without special characters or a body that nothing inside it closes before the final quote |
| `QuoteRoundTrip.BashRefuses` | pkg/sh/syntax/quote.go:48-95 | in bash exactly the strings with a null byte are refused, and the error's offset is the first of them |
| `QuoteRoundTrip.OthersRefuse` | pkg/sh/syntax/quote.go:84-158 | POSIX refuses also what is not printable, mksh what is not printable past 0xFFFD, and nothing else |
| `QuoteLaws.QuoteIs` | pkg/sh/syntax/quote.go:48-179 | which form is chosen and all of what is written: escapes only for what does not print, bare only without special characters and no keyword, single quotes unless there is one inside, else double quotes |
| `QuoteLaws.RefusedIs` | pkg/sh/syntax/quote.go:77-146 | when and where: at the first null byte or, in POSIX, the first rune that does not print; else, in mksh, at the first too big to escape; else never |
| `QuoteLaws.AnsiIs` | pkg/sh/syntax/quote.go:104-157 | the text between $' and the closing quote is each rune's own piece in order |
| `QuoteLaws.MkshEnds` | pkg/sh/syntax/quote.go:112-136 | in mksh no two-digit escape is followed by a third hexadecimal digit inside the same quotes |
| `QuoteRoundTrip.EscapeMeans` | pkg/sh/expand/expand.go:259-347 | the escape written for a rune formats to exactly its bytes, whatever follows |
| `QuoteLaws.LetterEscape` | pkg/sh/expand/expand.go:290-308 | each letter escape is its one byte |
| `QuoteLaws.OctalEscape` | pkg/sh/expand/expand.go:309-313 | up to three digits after a backslash, the first of them octal, are an octal number: 255 if that is too big for a byte, 0 if an 8 or 9 comes first |
| `QuoteLaws.HexEscape` | pkg/sh/expand/expand.go:314-334 | up to two, four or eight hexadecimal digits after x, u or U are a byte or a code point's bytes |
| `QuoteLaws.HexValues` | pkg/sh/expand/expand.go:270-273 | hexadecimal digits are read in either case |
| `QuoteLaws.OtherEscape` | pkg/sh/expand/expand.go:336-338 | any other character keeps its backslash |
| `QuoteLaws.NoEscape` | pkg/sh/expand/expand.go:284-289 | what starts no escape stands for itself, a backslash at the end too |
| `QuoteLaws.UndoubleIs` | pkg/sh/expand/expand.go:533-552 | in double quotes a backslash goes before one of four characters and stays before any other |
| `QuoteRoundTrip.AnsiInside` | pkg/sh/expand/expand.go:555-561 | the text between $' and the closing quote reads back as the string |
| `QuoteRoundTrip.AnsiBody` | pkg/sh/syntax/quote.go:107-167 | outside mksh nothing between $' and the last quote closes the quotes |
| `QuoteRoundTrip.DoubleBody` | pkg/sh/expand/expand.go:532-551 | a text escaped for double quotes is closed by the final quote alone and loses exactly its escapes |
| `QuoteRoundTrip.SingleBody` | pkg/sh/syntax/quote.go:163-167 | a body without single quotes ends at the closing one |
| `QuoteMethods.QuoteString` | pkg/sh/syntax/quote.go:48-179 | the loops compute the quoting function, the refusals with their offsets included |
| `QuoteMethods.Survey` | pkg/sh/syntax/quote.go:54-95 | the first loop finds the first character that cannot be quoted, or which kinds there are |
| `QuoteMethods.AnsiQuote` | pkg/sh/syntax/quote.go:106-161 | the second loop writes every rune's escape, reopening the quotes for mksh before a hexadecimal character |
| `QuoteMethods.EscapeRune` | pkg/sh/syntax/quote.go:115-156 | one turn of the switch writes the escape of the first rune |
| `QuoteMethods.DoubleQuote` | pkg/sh/syntax/quote.go:168-179 | the third loop escapes exactly the four characters special in double quotes |
| `QuoteMethods.FormatInto` | pkg/sh/expand/expand.go:259-347 | with no arguments the index loop expands exactly the escape sequences |
| `QuoteMethods.FormatEscape` | pkg/sh/expand/expand.go:284-347 | one escape: letters, octal with its overflow, hexadecimal as a byte or a rune, or the backslash kept |
| `QuoteMethods.DigitsAt` | pkg/sh/expand/expand.go:264-281 | the longest run of digits up to the limit |
| `QuoteMethods.LiteralInDouble` | pkg/sh/expand/expand.go:532-551 | a backslash goes exactly before the four special characters |
| `Environs.SetTarget` | pkg/sh/interp/vars.go:81-116 | a successful Set changes exactly one frame at one name: the current one for a local, else the innermost that is no function's or has the name local; a refused one was refused there |
| `Environs.GetNearest` | pkg/sh/interp/vars.go:70-79 | the nearest frame that holds a name decides what it reads as |
| `Environs.SetAt` | pkg/sh/interp/vars.go:81-116 | what a Set stores at its target: the new variable, with the old value if that is kept, local once local; over a read-only one, also an inherited one, it is refused unless it keeps the value |
| `Environs.NoTarget` | pkg/sh/interp/vars.go:81-116 | without a target it fails |
| `Environs.TargetUnique` | pkg/sh/interp/vars.go:81-116 | there is at most one such frame |
| `Environs.SetLookups` | pkg/sh/interp/vars.go:70-116 | after a Set all other names read as before and the name reads as what was stored |
| `Environs.SubshellKeepsParent` | pkg/sh/interp/vars.go:81-116 | a subshell's frame never changes its parent |
| `Environs.ReturnFrom` | pkg/sh/interp/vars.go:84-88 | leaving a function forgets locals, and anything else is as if set in the caller |
| `Environs.FlattenKeeps` | pkg/sh/interp/vars.go:22-35 | in whatever order frames are visited the background copy has for each name the outermost read-only variable, else the innermost |
| `Environs.FlattenAgrees` | pkg/sh/interp/vars.go:22-35 | without read-only variables the copy gives every name the chain's variable |
| `Environs.FlattenAgreesIff` | pkg/sh/interp/vars.go:22-35 | it does so, in whatever order frames are visited, if and only if no frame has a read-only variable of the name or the outermost such variable is like the innermost variable |
| `Environs.KeptIs` | pkg/sh/interp/vars.go:22-35 | the variable the copy keeps is that of the outermost frame that has the name read-only, or the innermost one if none has |
| `Environs.CopyLosesExport` | pkg/sh/interp/vars.go:22-35 | the failing chain, made by a Set: a read-only variable declared local and exported in a function is not exported in the copy |
| `OverlayEnviron.Overlay.Get` | pkg/sh/interp/vars.go:70-79 | the nearest frame that has the name decides |
| `OverlayEnviron.Overlay.Set` | pkg/sh/interp/vars.go:81-116 | the chain of objects becomes the chain Set gives, or the error and no change |
| `OverlayEnviron.Overlay.Write` | pkg/sh/interp/vars.go:96-116 | the frame's own entry: kept values, read-only refusal, unsetting and locality |
| `OverlayEnviron.Overlay.Each` | pkg/sh/interp/vars.go:118-127 | the parent's variables first, then each of the frame's own once |
| `OverlayEnviron.NewOverlay` | pkg/sh/interp/vars.go:22-35 | a frame on top, or for the background a separate frame holding the flattened copy |
| `ListEnviron.CompareTrans` | pkg/sh/expand/environ.go:253-261 | the comparison is transitive, strictly where one step is |
| `ListEnviron.SortKeepsLast` | pkg/sh/expand/environ.go:208-225 | sorting stably by name leaves the last pair of every name the last |
| `ListEnviron.LastValueIff` | pkg/sh/expand/environ.go:196-198 | the last value of a name is that of the last pair that starts with the name and "=" |
| `ListEnviron.AgainstIsKey` | pkg/sh/expand/environ.go:263-278 | against a pair of another name the search's comparison is that of the keys, so it rises along the sorted list; it is equality exactly at a pair that is the name or goes on from it with "=" |
| `ListEnviron.OnlyValue` | pkg/sh/expand/environ.go:263-283 | in a cleaned list the pair of a name is its last value |
| `ListEnviron.SearchEnds` | pkg/sh/expand/environ.go:263-283 | the pair at which the search ends decides what the name is, for names with "=" too |
| `ListEnviron.LookupIff` | pkg/sh/expand/environ.go:263-283 | Get gives the last valid pair's value, or unset, for every list at exactly the names without "=" and those whose part after it neither is the value of the part before nor continues in it with "=" |
| `ListEnviron.NameReadsValue` | pkg/sh/expand/environ.go:279-281 | the failing inputs: "A=B" asked of the pair "A=B" slices out of range, and of "A=B=C" it reads "C" |
| `ListEnviron.DropInvalid` | pkg/sh/expand/environ.go:230-235 | deleting an invalid pair in place changes no name's last value |
| `ListEnviron.DropEarlier` | pkg/sh/expand/environ.go:236-240 | deleting the earlier of two pairs of a name changes no name's last value |
| `ListEnviron.SortStable` | pkg/sh/expand/environ.go:210-225 | the result is sorted with the pairs of each key in their original order |
| `ListEnviron.ListEnv.constructor` | pkg/sh/expand/environ.go:208-245 | sorting and deleting in place leave a searchable list with the same last value for every name |
| `ListEnviron.ListEnv.Get` | pkg/sh/expand/environ.go:263-283 | binary search returns, for every name, the value of the last valid pair with it, or unset, or what a name with "=" makes of the value before |
| `Globbing.RegexpIsGlob` | pkg/sh/pattern/pattern.go:73-127 | in characters, the expression for the entire string matches exactly what the glob matches, and is a syntax error exactly for a dangling backslash |
| `Globbing.ReadTranslate` | pkg/sh/pattern/pattern.go:164-326 | what is written reads back as one atom for each element of the pattern |
| `Globbing.AtomsGlob` | pkg/sh/pattern/pattern.go:191-209 | matching the atoms is matching the pattern |
| `Globbing.QuoteMetaMatchesItself` | pkg/sh/pattern/pattern.go:370-401 | a quoted text matches itself and nothing else |
| `Globbing.NoMetaExact` | pkg/sh/pattern/pattern.go:341-368 | a pattern without metacharacters matches its own text without its backslashes |
| `Globbing.HasMetaIff` | pkg/sh/pattern/pattern.go:341-371 | when HasMeta is false any pattern matches at most one string; one without brackets matches at most one if and only if HasMeta is false or a backslash dangles |
| `GlobLaws.RegexpIff` | pkg/sh/pattern/pattern.go:73-127 | byte by byte the expression is "(?s)^", each element's own text in order and "$"; a null byte ends the pattern, and a backslash with nothing to escape is the one error |
| `GlobLaws.HasMetaWhere` | pkg/sh/pattern/pattern.go:361-371 | there is a metacharacter exactly where one stands after an even number of backslashes |
| `GlobLaws.QuoteMetaBytesIs` | pkg/sh/pattern/pattern.go:379-401 | a text without special characters is returned as it is, in another each of them gets its backslash |
| `GlobBytes.RegexpRightIff` | pkg/sh/pattern/pattern.go:164-326 | for UTF-8 patterns without null bytes or brackets, the bytes written are UTF-8, readable and match exactly what the pattern does if and only if no byte is 0x80 and no backslash stands before a character past ASCII |
| `GlobBytes.Written` | pkg/sh/pattern/pattern.go:254-326 | what is written, if UTF-8 at all, is the expression of some pattern, which is the given one when that is safe and else needs longer texts |
| `GlobBytes.QuoteMetaRightIff` | pkg/sh/pattern/pattern.go:373-401 | the expression Regexp writes for a quoted text matches that text and nothing else if and only if no byte of the text is 0x80 |
| `GlobBytes.CapitalAGrave` | pkg/sh/pattern/pattern.go:319-323 | the failing input: the expression for the letter with bytes C3 80, quoted or not, is no UTF-8 |
| `GlobBytes.HasMetaChars` | pkg/sh/pattern/pattern.go:361-371 | skipping a byte after a backslash is, in UTF-8, as good as skipping the character |
| `GlobMethods.StringLexer.Next` | pkg/sh/pattern/pattern.go:137-144 | the cursor gives the next byte, or a null at the end |
| `GlobMethods.RegexpNext` | pkg/sh/pattern/pattern.go:164-326 | one step writes the translation of one element, or is the end or a syntax error |
| `GlobMethods.RegexpOf` | pkg/sh/pattern/pattern.go:73-127 | the loop writes the whole translation between the anchors |
| `GlobMethods.HasMetaOf` | pkg/sh/pattern/pattern.go:361-371 | the loop that skips escaped bytes finds a metacharacter exactly when there is one |
| `GlobMethods.QuoteMetaOf` | pkg/sh/pattern/pattern.go:379-401 | the two loops over runes return a text without special characters as it is and escape exactly the four special characters in another |
| `PosixArgs.ParseGenuine` | pkg/sh/internal/posixargs.go:58-150 | every option returned is one of the specs', under one of its names, without a value if it takes none |
| `PosixArgs.RoundTripIff` | pkg/sh/internal/posixargs.go:58-150 | rendered as separate options, values, "--" and operands and parsed again in either mode, a result comes back if and only if none of its options is named "--" |
| `PosixArgs.MarkerBreaks` | pkg/sh/internal/posixargs.go:72-115 | the failing input: with a spec named "--" that takes a value, "--=v" parses and rendered parses to two operands |
| `PosixArgs.ClusterBreaks` | pkg/sh/internal/posixargs.go:117-129 | another: with "-a" and "--" that take no value, "-a-" parses and rendered does not come back |
| `PosixArgs.SpecsIff` | pkg/sh/internal/posixargs.go:58-150 | every result of every argument list comes back in every mode if and only if no spec is named "--", or its last one takes no value and no one-letter option without a value can stand before it in a cluster |
| `PosixArgs.RoundTrip` | pkg/sh/internal/posixargs.go:58-150 | it always does when no spec is named "--" |
| `PosixArgs.ParseRendered` | pkg/sh/internal/posixargs.go:58-150 | any genuine options and operands, rendered, parse to themselves in both modes |
| `PosixArgs.MarkerCuts` | pkg/sh/internal/posixargs.go:72-75 | an option named "--" would end the options where it stands |
| `PosixArgs.AttachedShort` | pkg/sh/internal/posixargs.go:131-140 | a value attached to a one-letter option means the same as in the next argument |
| `PosixArgs.AttachedLong` | pkg/sh/internal/posixargs.go:85-114 | a value after "=" means the same as in the next argument |
| `PosixArgs.ClusterSplits` | pkg/sh/internal/posixargs.go:117-129 | an option without a value may be split off the front of a cluster |
| `PosixArgs.IndexSpecs` | pkg/sh/internal/posixargs.go:59-64 | every name maps to the last spec that has it |
| `PosixReading.ParseIff` | pkg/sh/internal/posixargs.go:58-150 | a parse returns exactly what the list spells: options and operands in order when it ends without an error, and otherwise the first error with its name: an unknown option, an unwanted value, or a required one that no argument is left for |
| `PosixReading.MeaningOk` | pkg/sh/internal/posixargs.go:58-150 | it succeeds exactly when the list ends with nothing more, the marker or an operand that stops it |
| `PosixReading.SpecsLast` | pkg/sh/internal/posixargs.go:59-64 | a name stands for the last spec that lists it |
| `PosixArgs.ParseOptions` | pkg/sh/internal/posixargs.go:58-150 | the index loops compute the parse, which ParseIff gives on the list itself: options, operands and the first error |
| `PosixArgs.TakeLong` | pkg/sh/internal/posixargs.go:84-115 | a long option with its value attached, in the next argument or not wanted; a name there is no spec for, a value that is not wanted and one that is missing are the errors, by name |
| `PosixArgs.TakeCluster` | pkg/sh/internal/posixargs.go:117-148 | a cluster of one-letter options, the last possibly with a value |
| `Reconcile.SyncExact` | pkg/server/runtime_manager.go:73-119 | after a successful call the workers are exactly the desired keys, each with its record's present fingerprint |
| `Reconcile.SyncTwice` | pkg/server/runtime_manager.go:73-119 | a repeat with nothing changed or finished starts and cancels nothing |
| `Reconcile.NoneLost` | pkg/server/runtime_manager.go:73-266 | in every reachable state each handle ever started is in the map, cancelled or finished, failing starts included |
| `Reconcile.StartOwnedIff` | pkg/server/runtime_manager.go:206-218 | starting a worker loses no handle if and only if it replaces none still running |
| `Reconcile.SyncOwnedIff` | pkg/server/runtime_manager.go:92-118 | a call whose two looks may see different fingerprints loses no handle if and only if its second loop comes to no key it starts over a worker the first loop kept running |
| `Reconcile.UnstableLoses` | pkg/server/runtime_manager.go:92-114 | a run of two calls from nothing, the second of which sees two fingerprints and loses the worker the first started |
| `Reconcile.EveryAgentServed` | pkg/server/runtime_manager.go:79-119 | when keys tell the agents apart, each runnable one has a worker with its fingerprint |
| `ReconcileLaws.DesiredIs` | pkg/server/runtime_manager.go:80-84 | a key is wanted exactly when a record has it, by the last that does |
| `ReconcileLaws.SyncOutcome` | pkg/server/runtime_manager.go:73-119 | a reconciliation handle by handle: an unfinished worker with its present fingerprint keeps its very handle, every other running one is cancelled, what else is wanted is started anew until a start fails, no finished worker is left, and it fails exactly when a needed start does |
| `ReconcileLaws.SyncKeys` | pkg/server/runtime_manager.go:73-119 | after a successful call the keys with a worker are the wanted ones |
| `ReconcileLaws.FinishedRestarts` | pkg/server/runtime_manager.go:236-249 | a wanted key whose worker had finished has after a successful call a new handle, not finished |
| `ReconcileLaws.StopOutcome` | pkg/server/runtime_manager.go:251-266 | after a stop no worker is left and exactly the handles that were in the map are cancelled and finished |
| `Reconcile.KeyInjective` | pkg/server/runtime_manager.go:286-288 | keys tell agents apart when namespaces have no ":" |
| `Reconcile.CollideIff` | pkg/server/runtime_manager.go:286-288 | agents of two namespaces can share a key if and only if one namespace is the other, a ":" and something more |
| `Reconcile.KeysCollide` | pkg/server/runtime_manager.go:286-288 | the failing input: two agents that share a key |
| `RuntimeManager.Manager.ReapWorkers` | pkg/server/runtime_manager.go:236-249 | exactly the finished workers leave the map, and no handle changes |
| `RuntimeManager.Manager.DesiredOf` | pkg/server/runtime_manager.go:80-84 | the records by key, the last of each key |
| `RuntimeManager.Manager.PruneWorkers` | pkg/server/runtime_manager.go:93-108 | exactly the workers no longer wanted or with an outdated fingerprint are cancelled and dropped |
| `RuntimeManager.Manager.StartMissing` | pkg/server/runtime_manager.go:110-118 | in whatever order the map is visited, what is missing is started until a start fails |
| `RuntimeManager.Manager.SyncOnce` | pkg/server/runtime_manager.go:73-119 | the three loops together are the reconciliation: every unfinished current worker keeps its handle, every other key in the map has one just started, the running ones ousted are cancelled, and no finished worker is left |
| `RuntimeManager.Manager.Stop` | pkg/server/runtime_manager.go:251-266 | every worker is cancelled, waited for and forgotten |

## Left out

- Memfs paths are sequences of components: splitting strings at "/", trimming the root's spaces, paths with a leading
  backslash, and "/dev/null" are not modelled.
- Memfs times, permission bits, owner ids, Chmod, Chtimes, Access, Stat, ReadDir and directory handles; locks, since every
  operation is one atomic step.
- MemPipes.Files.OpenFile: a FIFO gets its pipe when it is first opened, where Mkfifo makes an unused one at once; nothing
  reads a pipe before that.
- MemFifo.RunInv: waiting is a result, not a blocked goroutine, so who wakes up when is not modelled.
- ArithParser.Parser: array subscripts, zsh operators and flags, `compact` mode for `let`, source positions, error recovery
  and the wording of errors. The first error ends the parse, where the code goes on with an end-of-file token.
- ArithEval.Eval: a word that is not a literal expands through a parameter that may fail or set variables; name references
  and arrays in variables are left out, and `int` is taken to be 64 bits wide.
- ArithNumbers.Atoi: strconv.ParseInt and FormatInt are modelled here because the evaluator's laws depend on them.
- Mailbox agents are never deleted, so rows never cascade away; steps, prompts, JSON envelopes and thread listings are
  carried content. Message and run ids that are generated are taken to be new and not empty.
- MailboxStore.Store.ClaimNextMessage: the eight tries are for an update that matches no row, which cannot happen to the
  candidate of the same atomic transaction.
- MailboxStore.NextTrigger: one poll; the waiting between polls is left out.
- Cron expressions, time zones and `Next` are a parameter: the least instant after its argument, in whole milliseconds.
  Rows whose expression no longer parses, rescheduling by the reconciler, and the order and limit of the due query are left
  out.
- QuoteRoundTrip.QuoteExpands: the reader covers bare, single, double and dollar-single quoted text; other word syntax,
  such as parameter expansions, reads as nothing. `unicode.IsPrint` is a parameter of which only its ASCII part is known.
- QuoteMethods.FormatInto: formatting with arguments (`%d` and the like).
- Environs.SetTarget: case-insensitive names. A variable's value is one field whatever its kind, and where the code would
  fail the assertion that a parent can be written, Set fails with NotWritable.
- OverlayEnviron.Overlay.Each: stopping early when the function asks for no more.
- ListEnviron.SortStable: an insertion sort stands for the library's stable sort; only what a stable sort promises is used.
- ListEnviron.ListEnv.Get: case-insensitive comparison.
- GlobBytes.RegexpRightIff: bracket expressions, file name modes with their rules for dots and "**", case folding and
  extended operators. Regular expressions are read by a small parser of the fragment that is written; that one that is no
  UTF-8 does not compile is taken from the regexp engine.
- GlobMethods.RegexpNext, GlobMethods.RegexpOf: bracket expressions.
- RuntimeManager: building a worker is a parameter that succeeds or fails; its goroutine is the event of its finishing,
  which does not happen in the middle of a reconciliation. Locks are left out.
- Reconcile.SyncExact: environment lookups, hence fingerprints, are stable during one call; what happens otherwise is
  SyncOwnedIff, where the third look, which only records the fingerprint of a worker just started, is the second.
- The disk sandbox, brace expansion, `parser.go`, the printer, drivers, HTTP and the terminal interface: plumbing or
  formatting, not part of this model.
