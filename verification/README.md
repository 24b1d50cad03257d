# Swan server: a verified model

Dafny 4.11 models of the five parts of the server whose behaviour is hardest to see from one
function, with proofs about all inputs, all runs and all schedules. Check everything with
`dafny verify dfyconfig.toml`.

## What is modelled

**The configuration language** (`src/config_parser.cc`).
`Lexer` is `ParseToken` as a character automaton, and `InputStream` is the same automaton as a loop
over a stream with push-back. `BlockStack` is `Parse` on tokens: an adjacency automaton and a stack
of open blocks. `ConfigBuilder` is `Parse` over mutable `NginxConfig` objects, proved to keep the
stack equal to the right spine of the tree that hangs off the root. `Printer` is `ToString`, and
`Layout` describes text as tokens with gaps of white space and comments. The main results are exact:
- a printed tree parses back to itself if and only if every statement has a word and every word is
  relexable, at every indent (`PrintThenParse`);
- a text is accepted with a tree if and only if it is that tree's tokens laid out, up to missing
  final closing braces, or with one closing brace too many, followed by a gap and one of the four
  things end of file swallows: nothing, a comment, a bare word, or a quote that stops behind a
  backslash (`AcceptedTextIff`, `TailExact`);
- the header's "true iff valid" holds if and only if the braces balance and end of file swallows
  nothing but layout (`ValidTextIff`);
- for an accepted text, printing the tree gives a normal form if and only if, in the text, no
  backslash inside a quoted word stands before its quote character or another backslash
  (`ParseThenPrint`); backslashes in bare words and comments do no harm.

**From tree to route** (`src/config_parser.cc`, `src/server_main.cc`, `src/server.cc`,
`src/request_handler_delegate.cc`).
`PortSearch` is the search for the port and `RouteMap` extracts handler type -> (location -> root),
first line wins. `Extraction` says by positions in the tree alone what the map then holds and which
paths are validated. `Routing` builds the factory map and chooses the longest registered prefix;
`Route` joins both ends.

**The CRUD store** (`src/request_handler/api_handler.cc`, `src/real_file_system.cc`,
`src/fake_file_system.cc`). `FileIds` is the id scan, `Paths` the target splitting and the path
strings, `FileStore` each operation on values, `FileSystems` and `ApiHandler` the objects.
`StoreHistory` says what a GET answers after any request sequence, `StoreSimulation` relates the fake
file system to the real one, `IdAllocation` interleaves POST, PUT and DELETE threads, and
`DoubleRelease` says how many of them the mutex can bear. `Undisturbed` ties the two views together:
a request that no other one interrupts leaves exactly what the sequential handler leaves.

**Sessions and the acceptor** (`src/session.cc`, `src/server.cc`). `SessionLifecycle` runs the
completion handlers on a pool of threads under any schedule and any error outcomes, and accounts for
every outcome: responses for good reads, reads for good writes and accepts, deletions for failures.

**The palette page** (`src/palette_api.cc`). `PaletteScan` is `parse_html`.

`Samples` writes the constants of all parts out on small inputs.

## Where the code and its documentation differ

- The header says `Parse` returns true iff the file is valid (`include/config_parser.h:41`). Four
  kinds of invalid file are accepted too: one that ends inside open blocks (`UnclosedTextAccepted`),
  one that closes the root once too often (`OverclosedTextAccepted`), one whose last word is cut off
  by end of file, such as `a;b`, which loses the word (`CutWordAccepted`), and one that ends in a
  quote behind a backslash, which loses the word as well (`CutEscapeAccepted`). `ConcreteTexts` writes
  out one of each. There are no others: `ValidTextIff` gives the exact condition.
- Touching the empty stack after the root was closed too often is undefined; the outcome `Crashed`
  marks it, and `CrashedIff` says exactly which token streams lead there.
- The fake file system never drops an emptied directory, so listing such an entity answers 200 with
  an empty list where the real one answers 400. `AnswersAgree` shows that this is the only request on
  which the statuses differ, told from the earlier requests and answers alone.
- `src/real_file_system.cc:62-69` and `src/real_file_system.cc:94-103` unlock the raw mutex while a
  `unique_lock` still owns it, so its destructor unlocks a second time, whoever holds the mutex then.
  `IdAllocation` models both releases. That a POST never opens an existing file, that at most one
  thread is between lock and unlock, and that ids are distinct without DELETE is then false in
  general. `WriterThreshold` gives the exact limit for each: it holds in every run with at most b
  POSTs and PUTs in flight if and only if b is at most one. `OverwriteThreshold` tells them apart: no
  POST overwrites in any run with at most p POSTs and q PUTs in flight if and only if p is zero, or p
  is one and q is zero.
  `TwoPostsOpenOneFile` is a run with three POSTs, never more than two at a time, in which two open
  the same file.

## Model

| member | source | states |
|---|---|---|
| InputStream.ParseToken | src/config_parser.cc:199-312 | the loop with push-back consumes and returns what the automaton says on every input, and makes progress on every kind but end of file and error |
| InputStream.NextToken | src/config_parser.cc:319-329 | skipping comments yields the next token of the whole-text token stream |
| Lexer.NextWordExact | src/config_parser.cc:208-301 | a word comes back if and only if the input is white space, a spelling of that word, and a delimiter, which is left unread |
| Lexer.QuotingInverts | src/config_parser.cc:241-301 | for either quote and any body, escaping and wrapping is undone by ParseToken, stopping at the delimiter |
| Lexer.LexedWordForm | src/config_parser.cc:220-239 | every word lexed is a bare word or starts and ends with the same quote |
| Lexer.SelfLexIsRelexable | src/config_parser.cc:241-301 | a word that lexes as itself in front of a delimiter has no escape in it, however its quotes and backslashes fall |
| Lexer.RelexableIff | src/config_parser.cc:256-301 | a word prints back as itself if and only if its spelling is bare, or no backslash in the quote stands before the quote character or another backslash |
| Layout.LexExact | src/config_parser.cc:199-312 | a text lexes cleanly to given tokens if and only if it is those tokens laid out with gaps, ended by a gap and what end of file swallows |
| Layout.TailExact | src/config_parser.cc:303-312 | a text without tokens ends cleanly if and only if it is a gap followed by nothing, a comment with no line end, a bare word with no delimiter, or an open quote that stops behind a backslash |
| Layout.AcceptedTextIff | src/config_parser.cc:314-389 | the exact language of Parse on characters, with the tree it builds, endings included |
| Layout.ValidTextIff | src/config_parser.cc:303-389 | a text is a valid configuration with a tree if and only if it is accepted with that tree, its braces balance and end of file swallows nothing but layout |
| Layout.CutWordAccepted | src/config_parser.cc:303-312 | for all bare words: a statement followed by a bare word and end of file is accepted without the word, and is valid for no tree |
| Layout.CutEscapeAccepted | src/config_parser.cc:294-312 | every open quote that stops behind a backslash is accepted as an empty configuration, and is valid for no tree |
| Layout.UnclosedTextAccepted | src/config_parser.cc:372-379 | a text with a block left open is accepted and its tokens derive no tree at all |
| Layout.OverclosedTextAccepted | src/config_parser.cc:364-379 | a text with one closing brace too many is accepted and its tokens derive no tree at all |
| Layout.CutOffIsLost | src/config_parser.cc:303-312 | whatever comes before it, a bare word or open quote swallowed by end of file makes the text valid for no tree |
| Layout.OverclosedTwiceCrashes | src/config_parser.cc:364-371 | a statement and two closing braces make Parse touch its empty stack |
| Layout.ConcreteTexts | src/config_parser.cc:303-389 | `a;b`, an open quote before a backslash, `a{b;` and `a;}` are accepted and invalid, and `a;}}` touches the empty stack |
| Layout.LayoutIsIrrelevant | src/config_parser.cc:326-329 | for every text, lexical errors included: replacing gaps, and an ending without tokens by another one, changes neither tokens nor outcome |
| BlockStack.Step | src/config_parser.cc:331-384 | every token keeps the spine invariant, and the stack is touched while empty only by a word or closing brace after the root was popped |
| BlockStack.StepsSpell | src/config_parser.cc:331-384 | stack and tree in progress spell exactly the tokens read, from any state |
| BlockStack.LiftSteps | src/config_parser.cc:314-317 | a config that already holds statements is appended to, with the same outcome on every token stream |
| BlockStack.HeightIsDepth | src/config_parser.cc:315-371 | the height of the stack is one plus blocks opened minus blocks closed |
| BlockStack.StepsFlatten | src/config_parser.cc:334-371 | the yield of any well-formed configuration is taken and rebuilt in place at any depth |
| BlockStack.CloseAll | src/config_parser.cc:360-371 | closing the open blocks completes the yield of the tree already in place |
| BlockStack.AcceptedHeight | src/config_parser.cc:372-379 | an accepted stream derives its tree, up to as many final closers as the stack is high |
| BlockStack.AcceptedIff | src/config_parser.cc:314-389 | a token stream is accepted with a tree if and only if it is unclosed or over-closed by one in that sense |
| BlockStack.BalancedIffDerives | src/config_parser.cc:314-389 | on balanced streams, accepted with a tree if and only if the grammar derives that tree |
| BlockStack.UnclosedBlockAccepted | src/config_parser.cc:372-379 | accepted streams that the grammar derives no tree from: a block left open |
| BlockStack.OverclosedRootAccepted | src/config_parser.cc:364-379 | accepted streams with one closing brace too many, from which the grammar derives no tree |
| BlockStack.CrashedIff | src/config_parser.cc:341-371 | the empty stack is touched if and only if a complete configuration is followed by a closing brace and then a word or another one |
| Printer.PrintThenParse | src/config_parser.cc:47-53 | for every tree and every indent, the printed text is accepted with that tree if and only if the tree is printable |
| Printer.AcceptedThenPrint | src/config_parser.cc:160-183 | for every accepted token stream, unclosed or over-closed included, the printed tree parses back to it if and only if every word read is relexable |
| Printer.ParseThenPrint | src/config_parser.cc:160-183 | for every accepted text, the printed tree parses back to it if and only if no backslash inside a quoted word of the text stands before its quote character or another backslash |
| Printer.NormalFormWithoutBackslash | src/config_parser.cc:160-183 | an accepted text with no backslash inside quotes always has a normal form, whatever its bare words and comments hold |
| Printer.EscapedQuoteDoesNotPrintBack | src/config_parser.cc:256-259 | an accepted text with an escaped quote whose tree does not print back |
| Printer.LexedBackIsRelexable | src/config_parser.cc:160-183 | if printed statements lex to their own tokens then each word among them is relexable |
| Printer.DeeperIsIndented | src/config_parser.cc:160-183 | for every tree whose words stay on one line, printing one level deeper is the same text with two more spaces in front of every line |
| ConfigObjects.NginxConfigStatement.ToString | src/config_parser.cc:160-183 | the appending loops over the object print the statement it shows |
| ConfigObjects.NginxConfig.ToString | src/config_parser.cc:47-53 | the appending loop over the object prints the configuration it shows |
| ConfigObjects.NginxConfig.ExtractFilesystemMap | src/config_parser.cc:126-158 | the nested loops leave what was in the map and add, for every handler type and key, the root in the first line of the first such location |
| ConfigObjects.NginxConfig.ValidateRelativePaths | src/config_parser.cc:88-122 | true if and only if the second word of every line of every location of every server is a relative path, for every tree in which nothing malformed comes before the first absolute path |
| RouteMap.ValidateMeans | src/config_parser.cc:88-122 | stopping at the first absolute path passes exactly the well-shaped trees whose paths are all relative |
| ConfigObjects.NginxConfig.GetPort | src/config_parser.cc:55-81 | the two loops over the object find the first valid port among the visible listen lines, and -1 if there is none |
| PortSearch.PortIsFirstVisible | src/config_parser.cc:55-81 | the port is the first valid one among the listen lines that no listen line of an enclosing level hides, in document order |
| PortSearch.DirectListenIsFirst | src/config_parser.cc:55-70 | at each level the first two-word listen line counts |
| ConfigBuilder.AddStatement | src/config_parser.cc:341-345 | a new statement goes to the innermost config and the objects stay on the spine |
| ConfigBuilder.AddWord | src/config_parser.cc:344-345 | a further word goes to the unfinished statement and the objects stay on the spine |
| ConfigBuilder.OpenBlock | src/config_parser.cc:360-363 | the child block is attached to the last statement and becomes the top of the stack |
| ConfigBuilder.FinishBlock | src/config_parser.cc:364-371 | popping freezes the block and its statement; the level below shows it complete |
| ConfigBuilder.RootShowsTree | src/config_parser.cc:315-385 | whatever is open, the root object shows the whole tree read so far |
| ConfigBuilder.Parse | src/config_parser.cc:314-389 | answers true if and only if the text is accepted, and appends to the object exactly the tree read, also when it rejects |
| ConfigBuilder.ParseFile | src/config_parser.cc:391-410 | true if and only if the file opens, is accepted, and all its paths are relative |
| ConfigBuilder.LoadRoutes | src/server_main.cc:52-65 | startup goes on if and only if the text is accepted, all paths are relative and a port is found; then the port is in range, every handler type and key has the root of its first place in the tree and nothing else, and every stored root is relative |
| RouteMap.SameKeyIff | src/config_parser.cc:40-45 | two locations share a key if and only if they differ only in trailing slashes |
| RouteMap.FirstWins | src/config_parser.cc:141-150 | a location gets the root of its first matching line, and only matching lines create one |
| RouteMap.ExtractTwice | src/config_parser.cc:126-158 | extracting a second time changes nothing |
| RouteMap.StoredPathsAreRelative | src/config_parser.cc:403-408 | if the tree validates, every stored root is relative |
| Extraction.ExtractedIff | src/config_parser.cc:126-158 | for every handler type, key and root: the map has that root there if and only if it is the second word of the first line of the first location block, in document order, with that handler type and a location equal up to trailing slashes, in a server block |
| Extraction.KeyIff | src/config_parser.cc:40-45 | a key is its location without trailing slashes and with exactly one appended |
| Extraction.RelativeIff | src/config_parser.cc:88-122 | the paths validated are the second words of all lines of all location blocks of all server blocks |
| Routing.Server.InsertLocations | src/server.cc:103-119 | a walk over locations registers each one, and keeps the factory of a key already there |
| Routing.Server.CreateFactoryMap | src/server.cc:74-121 | built-ins win over configured locations and static over API on equal keys, in whatever order the maps are walked |
| Routing.LongestPrefixMatching | src/request_handler_delegate.cc:27-44 | the answer is the longest registered prefix, "/" if there is none, and the only such key |
| Routing.FactoryFor | src/request_handler_delegate.cc:46-63 | the looked-up key is present and leads to the factory registered for it |
| Routing.RouteOfConfig | src/server.cc:98-119 | a key leads to a factory if and only if the configuration gives it that factory |
| Routing.Route | src/request_handler_delegate.cc:27-62 | from tree and target to factory: the longest registered key, and the built-in, static or API factory with the root of the first place in the tree that gives it |
| Routing.PlacedIff | src/server.cc:98-119 | a key is registered for a handler type if and only if some location block in the tree carries both |
| PaletteScan.NoOverlap | src/palette_api.cc:36-38 | no marker can start inside a colour marker |
| PaletteScan.MarkersInExact | src/palette_api.cc:48-52 | the reference list holds every marker position in the span, once, in order |
| PaletteScan.NextMarker | src/palette_api.cc:48-52 | jumping past a marker skips none, and seven characters always follow it |
| PaletteScan.ParseHtml | src/palette_api.cc:33-56 | for all markers of the first palette, in order, the seven characters right after the marker; nothing without a palette |
| FileIds.IsNumber | src/request_handler/api_handler.cc:182-187 | true if and only if the string is non-empty and all digits |
| FileIds.DecimalRoundTrip | src/real_file_system.cc:95-96 | the decimal text of a number is digits and reads back as that number |
| FileIds.GetUniqueFileName | src/real_file_system.cc:10-25 | the scan returns one more than the largest value, in any order of the directory |
| FileIds.FreshAsText | src/real_file_system.cc:85-97 | the text of that id differs from every name, leading zeros included |
| Paths.Split | src/request_handler/api_handler.cc:24-39 | the non-empty parts between delimiters, without the first |
| Paths.PartsAreComponents | src/request_handler/api_handler.cc:24-39 | every part is non-empty and free of the delimiter |
| Paths.SplitOfJoin | src/request_handler/api_handler.cc:24-39 | splitting a joined path gives back its components |
| Paths.PathsDiffer | src/fake_file_system.cc:63-76 | flat path strings are injective in entity and name, and no directory path is a file path |
| FileStore.ListingSplitsBack | src/real_file_system.cc:136-147 | a listing of ids splits back into those ids, the empty one included |
| FileSystems.RealFileSystem.WriteFile | src/real_file_system.cc:53-83 | if fopen succeeds the name reads as the body up to a NUL and every other name as before, else nothing reads differently; the entity exists afterwards either way and no other comes or goes |
| FileSystems.RealFileSystem.GenIdAndWriteFile | src/real_file_system.cc:85-117 | -1 exactly when fopen fails; otherwise the id is one more than the largest in the directory, 1 if there is none, and its file reads as the body |
| FileSystems.RealFileSystem.Remove | src/real_file_system.cc:42-51 | succeeds exactly on a file that was there; that name is gone, every other name reads as before, and the entity exists afterwards exactly if a file is left in it |
| FileSystems.RealFileSystem.GetFileList | src/real_file_system.cc:136-147 | renders each name once, in the order the directory is read |
| FileSystems.FakeFileSystem.GetUniqueFileName | src/fake_file_system.cc:8-28 | one more than the largest id among the paths directly below the directory, 1 if there is none |
| FileSystems.FakeFileSystem.WriteFile | src/fake_file_system.cc:51-61 | always succeeds; the name can be read afterwards, every other name reads as before, the entity exists and no other comes or goes |
| FileSystems.FakeFileSystem.GenIdAndWriteFile | src/fake_file_system.cc:63-76 | the id is one more than the largest in the directory, and exactly its path and that of the directory are inserted |
| FileSystems.FakeFileSystem.Remove | src/fake_file_system.cc:46-49 | succeeds exactly on a file that was there; that name is gone, every other name reads as before, and the entity stays even if it was the last |
| FileSystems.FakeFileSystem.GetFileList | src/fake_file_system.cc:91-110 | renders the id of each path below the directory once |
| ApiHandler.ApiHandler.HandlePost | src/request_handler/api_handler.cc:52-80 | 200 exactly for one component when fopen succeeds: the answer carries one more than the largest id there, which could not be read and now reads as the body, other names unchanged; on 500 nothing reads differently, on 400 nothing changes |
| ApiHandler.ApiHandler.HandleGet | src/request_handler/api_handler.cc:82-122 | 200 exactly for an existing entity or a readable id of one; the text is the contents, or splits into exactly the ids of the entity |
| ApiHandler.ApiHandler.HandlePut | src/request_handler/api_handler.cc:153-180 | 200 exactly for two components when fopen succeeds: the id reads as the body and every other name as before; on 500 nothing reads differently, on 400 nothing changes |
| ApiHandler.ApiHandler.HandleDelete | src/request_handler/api_handler.cc:124-151 | 200 exactly for a file that can be read: it is gone and every other name reads as before; otherwise nothing changes |
| ApiHandler.ApiHandler.HandleRequest | src/request_handler/api_handler.cc:200-251 | for every target, verb and either file system: a second component that is no number, or another verb, is 400 and changes nothing; else the request means what its verb means, by what can be read before and after |
| ApiHandler.HandleLaw | src/request_handler/api_handler.cc:200-251 | the same of the request semantics that histories are built from |
| FileStore.WriteObserved | src/real_file_system.cc:53-83 | over either file system, a write sets the one name when it succeeds and none when it fails, and makes just its entity exist |
| FileStore.RemoveObserved | src/real_file_system.cc:42-51 | over either file system, a removal unsets the one name; the real entity stays exactly while a file is left, the fake one always |
| StoreHistory.StepRead | src/request_handler/api_handler.cc:200-251 | a request changes the one name its answer speaks of and no other name of any entity |
| StoreHistory.StoreIsLatest | src/request_handler/api_handler.cc:52-180 | after any request sequence the contents of every name are those of the latest POST or PUT with no later DELETE |
| StoreHistory.GetAnswersLatest | src/request_handler/api_handler.cc:98-114 | GET of an id answers those contents, and 400 if there are none |
| StoreHistory.GetListsSurvivors | src/request_handler/api_handler.cc:86-97 | GET of an entity is 400 exactly when no id survives and no failed write left its directory behind; otherwise it lists exactly the surviving ids, possibly none |
| StoreHistory.EntityExistsIff | src/real_file_system.cc:42-83 | after any request sequence an entity exists if and only if an id survives in it or a write to it failed with no deletion since |
| StoreHistory.ListingText | src/real_file_system.cc:136-147 | the text of a listing names each id once and splits back into exactly those ids |
| StoreHistory.StoreShape | src/real_file_system.cc:10-25 | every stored name is a string of digits, and no directory is left empty while fopen succeeds |
| StoreHistory.PostIsFresh | src/real_file_system.cc:85-117 | a POST is answered with an id that had no contents and now has the posted body |
| StoreHistory.StatusOfLog | src/request_handler/api_handler.cc:52-251 | after every history, whether a request of any verb is answered 200, 500 or 400, told from the history alone |
| StoreHistory.PostIdOfLog | src/real_file_system.cc:10-25 | a POST is answered with one more than the largest surviving id, and with 1 if none survives |
| StoreSimulation.StepAgrees | src/fake_file_system.cc:8-110 | one request keeps the two stores in agreement; the statuses differ exactly on listing an emptied entity; ids and listings are equal |
| StoreSimulation.RunsAgree | src/fake_file_system.cc:8-110 | every request sequence from empty stores keeps the agreement |
| StoreSimulation.AnswersAgree | src/fake_file_system.cc:8-110 | in every request sequence the last statuses differ exactly when the request lists an entity in which an earlier request stored a file and no id survives; POST answers and listings are equal |
| StoreSimulation.EverStoredIff | src/fake_file_system.cc:46-76 | the fake file system has a directory for exactly the entities in which some request ever stored a file |
| StoreSimulation.EmptiedEntityDiffers | src/fake_file_system.cc:46-49 | creating, deleting and listing any one file: 400 from the real one, 200 with an empty list from the fake |
| StoreSimulation.EmptiedEntityExists | src/fake_file_system.cc:46-49 | such a sequence, written out |
| IdAllocation.DirsAfterStep | src/real_file_system.cc:42-117 | exactly which files and directories there are after any step: those created or made, and those there before and not removed or dropped |
| IdAllocation.FileThereIff | src/real_file_system.cc:42-117 | in every run a file is there if and only if some step created it and no later step removed it |
| IdAllocation.DirThereIff | src/real_file_system.cc:42-117 | in every run a directory is there if and only if some step made it and no later step dropped it while empty |
| IdAllocation.CanStep | src/real_file_system.cc:42-117 | a thread that is not done can go on unless it waits for the mutex or has met INT_MAX |
| IdAllocation.IdsInRange | src/real_file_system.cc:10-25 | in every run every id granted is positive and fits an int |
| Undisturbed.AloneIsSequential | src/real_file_system.cc:42-117 | a request that begins and ends with no other thread acting leaves exactly the files and directories of the sequential handler, and a POST is granted the id that one answers |
| IdAllocation.HolderIff | src/real_file_system.cc:62-115 | the recorded holder is the thread between lock and unlock up to any point of a run if and only if every second release before it found nobody there |
| IdAllocation.RunSafe | src/real_file_system.cc:53-117 | up to any point of a run before which second releases are quiet: one thread between lock and unlock, every entry of the directory counted or still to be reached by a scan, all names digits |
| IdAllocation.PostNeverOverwrites | src/real_file_system.cc:85-117 | in every run whose second releases so far were quiet, when a POST opens its file all names there are numbers below its id, so the file is new |
| IdAllocation.IdsIncrease | src/real_file_system.cc:94-109 | in every run without DELETE whose second releases are quiet, ids of one entity strictly increase in order of acquiring the mutex |
| IdAllocation.ReissuedAfterDelete | src/real_file_system.cc:42-109 | with DELETE, in runs whose second releases are quiet: a later POST is given an id at most g only after a DELETE step removed the file of id g in between |
| DoubleRelease.WriterThreshold | src/real_file_system.cc:53-117 | POSTs never overwrite, at most one thread is between lock and unlock, and ids are distinct without DELETE, in every run with at most b writers in flight, each if and only if b is at most one |
| DoubleRelease.OverwriteThreshold | src/real_file_system.cc:53-117 | with at most p POSTs and q PUTs in flight no POST overwrites, if and only if p is zero, or p is one and q is zero |
| DoubleRelease.OverwriteCause | src/real_file_system.cc:10-117 | in every run, whatever the mutex does: a POST opens an existing file if and only if another request's fopen put that name there after the POST opened its directory, and it was not removed since |
| DoubleRelease.TwoPostsOpenOneFile | src/real_file_system.cc:94-103 | a run with at most two POSTs in flight in which the second release by an earlier one lets two of them open the file of one id |
| SessionLifecycle.StepSafe | src/session.cc:38-73 | every handler step keeps one owner per live session, one accept, and the alternation |
| SessionLifecycle.EveryRunIsSafe | src/server.cc:32-69 | at every point of every run: one owner per live session, no double delete, one accept pending or handled, reads alternate with writes, and every outcome is accounted for as in OutcomesAccounted |
| SessionLifecycle.OutcomesAccounted | src/session.cc:38-73 | at every point of every run: good reads are the responses started and those in their handler, good accepts and writes are the reads started and those in their handler, failures are the deletions and those in their handler |
| SessionLifecycle.DeletedIffFailed | src/session.cc:38-73 | with no handler of a failure running, a session has been deleted if and only if an operation on it failed |
| SessionLifecycle.LivesWithoutFailure | src/session.cc:38-73 | in every run a session none of whose operations failed is alive |
| SessionLifecycle.StepBusy | src/server.cc:48-69 | a thread is busy from the completion it takes until it returns |
| SessionLifecycle.NoUseAfterDelete | src/session.cc:51-69 | in every run no completion and no handler uses a deleted session |
| SessionLifecycle.HandlerIsAlone | src/session.cc:38-73 | while a handler runs no other handler runs on its session and nothing is pending on it |
| SessionLifecycle.NeverStuck | src/server.cc:48-69 | in every reachable state some completion or handler step is possible |
| SessionLifecycle.AnyOutcome | src/session.cc:38-73 | an idle thread can take any pending operation to its completion with either outcome |
| Samples.WhiteSkipped | src/config_parser.cc:208-239 | exactly blank, tab, line feed and carriage return are skipped in front of a token |
| Samples.WordEnds | src/config_parser.cc:285-292 | exactly blank, tab, line feed, semicolon and braces end a bare word; a carriage return does not |
| Samples.CommentEnds | src/config_parser.cc:279-284 | exactly line feed and carriage return end a comment |
| Samples.QuotesMatch | src/config_parser.cc:241-279 | either quote holds a blank up to the same quote |
| Samples.OthersDoNotQuote | src/config_parser.cc:208-239 | no other character does |
| Samples.DecimalDigits | src/real_file_system.cc:85-97 | numbers and their texts, leading zeros included |
| Samples.Digits | src/request_handler/api_handler.cc:182-187 | the digits are 0 to 9, and the empty string is no number |
| Samples.KeySample | src/config_parser.cc:40-45 | keys of locations with no, one and two trailing slashes |
| Samples.NulEnds | src/request_handler/api_handler.cc:200-203 | a target, and a body written, end at the first NUL |
| Samples.PrintedSample | src/config_parser.cc:160-183 | a nested configuration, its printed text, and the same tree read back |
| Samples.BuiltInRoutes | src/server.cc:74-97 | the seven built-in keys and their factories, whatever is configured |
| Samples.SampleRoutes | src/server.cc:98-119 | a server with a static and an API location: both lead to their root, the static one first |
| Samples.Ports | src/config_parser.cc:55-81 | every number up to 65535 is a port, directly or in a block, and no other word is |
| Samples.RenderedSample | src/real_file_system.cc:136-147 | the brackets and separators of a listing, and the text of an id |

## Left out

- Parse: takes inputs on which the stack does not underflow; `CrashedIff` says which those are.
- ExtractFilesystemMap: takes trees in which each location has a block and enough words, because the code dereferences them unchecked; "relative" is a parameter.
- ValidateRelativePaths: takes trees in which nothing the code dereferences unchecked is missing before the first absolute path, and so do ParseFile and LoadRoutes.
- GetPort: `atoi` is a parameter, because it is undefined beyond the range of int.
- HandleRequest: takes targets with a component to remove, GET targets that name an entity, and for POST names below INT_MAX, because the code indexes an empty vector or leaves the range of int otherwise.
- StepAgrees: takes requests whose fopen succeeds, because the fake file system has no failing write.
- RunSafe: takes runs whose second releases are quiet, as do PostNeverOverwrites, IdsIncrease and ReissuedAfterDelete; `WriterThreshold` says for which numbers of writers every run is so. Unlocking a mutex one does not own is undefined in the language, and the model lets it release whoever holds it.
- AloneIsSequential: takes names below INT_MAX, and lets every fopen of the request succeed or none.
- IdsIncrease: says nothing about runs with DELETE; `ReissuedAfterDelete` does.
- HandleTrailingSlashes: takes `$` in the regular expression as the end of the string only.
- The two quote states of ParseToken, and the two escape states, are each one state indexed by the quote character.
- The loop body of Parse is split into methods, one per token kind, called from the loop.
- Order of directory entries, and of the maps the server walks: any order.
- A scan whose largest value is INT_MAX has no next step in IdAllocation; the addition overflows there.
- File contents while two PUTs write one id, or a GET during a write: flockfile guards a single FILE, so there is no atomicity to state.
- Durability of a POST racing the is_empty and remove_all pair of a DELETE: only freshness is claimed.
- Path components such as `.` and `..`, links, permissions and disk failure: entities are opaque names and the data directory exists.
- Request parsing, sockets, HTTP requests to colour services and JSON reading: library code; a parsed verb, target and body are given.
- The bytes of a session's buffer between reads: the code ignores how many were transferred, so no claim relates request text to bytes read.
- A handler that throws, such as `remote_endpoint` on a reset connection (`src/session.cc:28`), ends the process; that is not an outcome of SessionLifecycle.
- StaticHandler, the constant handlers, handler factories, mime types and logging: one-branch facts.
