# Verification of Zasper's stateful core

Zasper is a Jupyter IDE with a Go server and a React client. This project models the parts of it
that carry state or an algorithm of their own and proves what they promise:

- **Commit graph** (`CommitGraph.dfy`, `History.dfy`, `Layout.dfy`). The effect that draws a git
  history: it links child lists by mutation and lays nodes out with a recursion that overwrites shared
  nodes. The class is proved to make the visits of a trace of calls; about that trace it is proved that
  last visits are a topological order and that there is one visit per directed path from the root.
- **Kernel connection** (`Channels.dfy`, `Shutdown.dfy`, `Endings.dfy`, `Delivery.dfy`). Four pollers, one
  writer, the goroutine that starts them, cancellation and `stopPolling` as atomic steps over an
  unbuffered channel, a mutex and a WaitGroup. All statements are about every interleaving.
- **Registries** (`Ports.dfy`, `Registry.dfy`, `PortBudget.dfy`, `Connections.dfy`, `Server.dfy`). The
  port list, and the session, kernel and connection maps, as a system of steps in which launches,
  connects and deletes overlap. The Go functions, as methods that change the maps and the array behind
  the port list in place, take these steps and record them.
- **Notebook files** (`Lines.dfy`, `NotebookModel.dfy`, `Notebook.dfy`). Loading, saving and
  stripping, with the loops of the code and with cell metadata as maps shared by reference.
- **Wire protocol** (`Hex.dfy`, `Wire.dfy`). Packing, signing, delimiter search and unpacking of
  frames; hexadecimal text is modelled byte by byte, HMAC and JSON are arbitrary functions.
- **Notebook editor** (`EditorModel.dfy`, `EditorOutputs.dfy`, `Reordering.dfy`, `Ansi.dfy`,
  `Editor.dfy`). The updaters of the cell list under JavaScript `slice`, the focus, and the routing of
  kernel messages into output arrays: as values with numbered arrays, and as objects on the heap that
  are changed in place and shared.
- **Untitled names** (`Untitled.dfy`, `Creates.dfy`), with the probes, the open and the write of
  overlapping requests as separate steps, and the **search cache** (`SearchCache.dfy`).

Some properties one might expect do not hold. What holds instead is proved with its exact condition.

- A parent header does not come back from the wire: `serialize` packs the header twice, against its
  own comment (`internal/kernel/kernel_session.go` lines 133-137). `ParentHeaderSurvives` says when it does.
- Saving and loading loses attachments, the key `trusted`, data that are not text, outputs outside
  code cells, data of streams and error fields outside errors. `SaveThenLoad` is an equivalence.
- The five minutes of the search cache run from the store, not from the walk. `HitAge` bounds the age
  of hits by five minutes and the time a request takes from lookup to store, and shows the bound tight.
- Cancelling a connection need not end its pollers. `PollersCanEnd` says from which states they can end,
  `MustEndIff` from which they do in every schedule, and `AllStuckOccurs` and `FailedWriteOccurs` are
  runs to states from which they cannot.
- A delete may remove a connection it has not cancelled. `DropsAnotherIffStoredSince` says when, and
  `CancelPossible` which connections can still be cancelled at all.
- A create may lose what somebody wrote under the name it has chosen, when it opens the file and, for a
  notebook, again when it fills it. `WriteSurvivesIff` says when; `OverlapTruncates`, `FillOverwrites` and
  `OverlapOverwrites` are runs in which it happens.
- Copied cells share their output array with the original. `PushIsSeen` says when an output shows in
  another cell, and `PasteSharing` when a paste begins that.

Where comments and code disagree the code is followed. Beside the parent header: the comments of
`internal/content/content_manager.go` promise `untitled-1.txt`, the code makes `untitled1.txt`; and
`CreateDirectory` always reports the name `untitled-directory`, whatever directory it made.

## Assumptions

- Uuids are new: a creation or an inserted cell gets an id never used before (`issued` records them).
- Random numbers, port probes, the outcome of a launch, of a websocket upgrade, of a receive, a write
  and a directory walk are parameters or free choices. Random ports lie in 5000..5999. The clock never
  runs backwards.
- HMAC and JSON are parameters of the wire model; the round trip asks that the three packed values
  unpack to themselves. Strings are valid UTF-8, so JSON keeps them.
- Each access to a Go map, each system call on a file and each walk of the directory tree is one step,
  although the code guards only the connection map with a mutex.
- Event handlers of the editor are atomic and see the current state; next and arrow-down happen only
  where there are cells, and a click focuses an existing cell.

## Model

| member | source | states |
|---|---|---|
| History.ChildListIsConverse | ui/src/ide/sidebar/GitPanel/CommitGraph.tsx:20-27 | the children of a commit are exactly the places in the data that name it as parent, in data order and with multiplicity |
| History.LinksConserved | ui/src/ide/sidebar/GitPanel/CommitGraph.tsx:20-27 | over any set of commits, total children equal total parent links into the set |
| History.GraphIsClosed | ui/src/ide/sidebar/GitPanel/CommitGraph.tsx:22-25 | every child is itself a shown commit |
| History.BelowShrinks | ui/src/ide/sidebar/GitPanel/CommitGraph.tsx:36-38 | without cycles fewer commits are reachable from a child than from its parent, so the recursion ends |
| History.SettledAt | ui/src/ide/sidebar/GitPanel/CommitGraph.tsx:31-34 | replaying all writes of a trace leaves each node where its last visit puts it, and nodes never visited where they were |
| History.SettledAllAppend | ui/src/ide/sidebar/GitPanel/CommitGraph.tsx:31-39 | laying out two traces in a row composes: the second overwrites the first and continues its rows |
| History.Nested | ui/src/ide/sidebar/GitPanel/CommitGraph.tsx:31-39 | every visit to a node, however often it is shared, is followed by a full layout of everything below it |
| History.ChildAfter | ui/src/ide/sidebar/GitPanel/CommitGraph.tsx:31-39 | after every visit to a node each of its children is visited again |
| History.LastVisitsAreTopological | ui/src/ide/sidebar/GitPanel/CommitGraph.tsx:30-39 | the last visit to a parent comes before the last visit to each of its children |
| History.VisitedIffReachable | ui/src/ide/sidebar/GitPanel/CommitGraph.tsx:30-45 | a commit is visited exactly when a directed path leads to it from the root |
| History.OneVisitPerPath | ui/src/ide/sidebar/GitPanel/CommitGraph.tsx:30-39 | the visits correspond one to one to the directed paths from the root, in dictionary order, and each path ends at the commit visited and at its x |
| History.RootIndex | ui/src/ide/sidebar/GitPanel/CommitGraph.tsx:42 | the first commit without parents, or none when all have parents |
| Layout.DrawableIffNoCycle | ui/src/ide/sidebar/GitPanel/CommitGraph.tsx:31-45 | the layout can be run from a root exactly when no cycle is reachable from it; cycles elsewhere do not matter |
| Layout.EndsIffDrawable | ui/src/ide/sidebar/GitPanel/CommitGraph.tsx:31-39 | calls nest to a bounded depth exactly then: below a cycle they nest deeper than any number |
| Layout.RootDrawable | ui/src/ide/sidebar/GitPanel/CommitGraph.tsx:41-45 | for the root picked from the data, the layout can be run exactly when no commit below it descends from itself |
| Layout.RowOf | ui/src/ide/sidebar/GitPanel/CommitGraph.tsx:30-45 | reachable commits get a row of the grid below yPosition, unreachable ones stay at (0, 0) |
| Layout.ChildrenAreLower | ui/src/ide/sidebar/GitPanel/CommitGraph.tsx:30-45 | after the layout every child of a reachable commit has a larger y than it |
| Layout.RowsAreDistinct | ui/src/ide/sidebar/GitPanel/CommitGraph.tsx:30-45 | no two reachable commits share a y |
| Layout.RowsCountPaths | ui/src/ide/sidebar/GitPanel/CommitGraph.tsx:30-45 | yPosition ends at 100 plus 150 times the number of directed paths from the root |
| Layout.PlaceOf | ui/src/ide/sidebar/GitPanel/CommitGraph.tsx:30-45 | where a commit is drawn, without the recursion: with the paths from the root listed as in a dictionary, the last one that leads to it gives its row by its number and its column by its steps, from x 400 and 200 apart |
| CommitGraphs.CommitGraph.BuildNodes | ui/src/ide/sidebar/GitPanel/CommitGraph.tsx:9-18 | one node at (0, 0) without children per hash, filed under that hash, for the last commit with it |
| CommitGraphs.CommitGraph.LinkParent | ui/src/ide/sidebar/GitPanel/CommitGraph.tsx:22-26 | a shown parent gets the commit as one more child, no other list changes |
| CommitGraphs.CommitGraph.LinkChildren | ui/src/ide/sidebar/GitPanel/CommitGraph.tsx:21-27 | afterwards the child lists spell out the graph of the history |
| CommitGraphs.CommitGraph.LayoutTree | ui/src/ide/sidebar/GitPanel/CommitGraph.tsx:31-39 | all visits of the trace are made: nodes stand as replaying it leaves them, and yPosition is 150 further per visit |
| CommitGraphs.CommitGraph.LayoutChild | ui/src/ide/sidebar/GitPanel/CommitGraph.tsx:36-38 | one step of the loop over the children extends the trace by the subtree of that child, at its own x |
| CommitGraphs.CommitGraph.LayoutFromRoot | ui/src/ide/sidebar/GitPanel/CommitGraph.tsx:42-45 | the layout starts at the root at x 400 and y 100; without a root all nodes stay at the origin |
| CommitGraphs.CommitGraph.Effect | ui/src/ide/sidebar/GitPanel/CommitGraph.tsx:8-49 | from any data without a cycle below the root the effect leaves the linked graph and its finished layout |
| Channels.StepConserves | internal/kernel/channels.go:52-82 | every step keeps, per channel and in order, written + held by the writer + held by the poller = received |
| Channels.StepKeepsOrder | internal/kernel/channels.go:84-94 | pollers are counted and started one after the other, the writer after all of them |
| Channels.StepCounts | internal/kernel/channels.go:53-62 | the WaitGroup counter equals the pollers counted in and not yet out |
| Channels.StepKeepsMutex | internal/kernel/channels.go:39-62 | the owner of the mutex is the one goroutine between its Lock and Unlock |
| Channels.RunKeepsInv | internal/kernel/channels.go:39-94 | all four facts hold in every state of every interleaving |
| Channels.WrittenIsPrefix | internal/kernel/channels.go:239-264 | per channel the client has been sent a prefix of what was received, at most two messages behind |
| Channels.AtMostFiveUnwritten | internal/kernel/channels.go:239-264 | over all channels at most five received messages are unwritten |
| Channels.FiveUnwrittenOccur | internal/kernel/channels.go:63-80 | there is a run in which five messages are unwritten, so the bound is exact |
| Channels.WaitGroupZero | internal/kernel/channels.go:53-62 | the counter stays in 0..4, and once all pollers are started it is zero exactly when all have ended |
| Channels.CancelledRun | internal/kernel/channels.go:64-70 | after cancellation each channel receives at most one more message and the writer writes at most one more |
| Delivery.NobodyEndsBefore | internal/kernel/channels.go:52-82 | in every run pollers and writer end only after cancellation, whatever the receives bring |
| Delivery.StartedInTurn | internal/kernel/channels.go:84-94 | in every run the pollers start in the order iopub, control, stdin, shell, and the writer last |
| Delivery.DeliverableIff | internal/kernel/channels.go:63-80 | what a poller holds can be written, with all received before it, exactly when the writer waits for a message, or nothing is cancelled, no write has failed, and the writer does not hold a message while a stopper about to cancel has the mutex |
| Delivery.RunDelivers | internal/kernel/channels.go:63-80 | the same of every fully started state that a run reaches |
| Shutdown.HeldForEver | internal/kernel/channels.go:63-80 | once the writer has returned, or the context is cancelled and the writer is not waiting for a message, a poller that holds one keeps it in every continuation |
| Shutdown.StuckAfterFailedWrite | internal/kernel/channels.go:256-261 | after a failed write the mutex stays locked: no poller ends, the counter is frozen and stopPolling never cancels |
| Shutdown.AllStuckOccurs | internal/kernel/channels.go:63-80 | there is a run to a cancelled connection whose writer has left and whose four pollers are all stuck |
| Shutdown.FailedWriteOccurs | internal/kernel/channels.go:256-261 | there is a run to a failed write with the mutex held |
| Shutdown.PollersCanEnd | internal/kernel/channels.go:52-82 | after cancellation some schedule ends all pollers exactly when all have ended, or the writer has not failed and at most one poller holds a message if the writer waits for one, none otherwise |
| Shutdown.RunCanEnd | internal/kernel/channels.go:52-82 | the same of every state that a run from the start reaches |
| Endings.SchedulesEnd | internal/kernel/channels.go:52-82 | after cancellation every schedule in which nobody cancels or stops again is bounded in length by a measure of the state |
| Endings.MustEndIff | internal/kernel/channels.go:52-82 | after cancellation every maximal schedule ends all pollers exactly when all have ended, or none is receiving or holds a message, no write has failed or is being made, and a writer that has taken a message finds only pollers on their way out |
| Lines.JoinedInOrder | internal/content/notebook.go:33 | joining keeps every piece, in order |
| Lines.SplitThenJoin | internal/content/notebook.go:33 | joining the split of a string restores it |
| Lines.SplitIsLines | internal/content/notebook.go:118 | every piece but the last ends in its only newline and the last has none |
| Lines.JoinThenSplit | internal/content/notebook.go:118 | the split is the only decomposition of that form |
| Lines.TrimIsIdle | internal/content/notebook.go:120-123 | the trim after the split never changes anything |
| NotebookModel.EntryRoundTrip | internal/content/notebook.go:105-135 | an entry of a mime bundle comes back from save, JSON and load exactly when it is a string |
| NotebookModel.BundleRoundTrip | internal/content/notebook.go:19-46 | a mime bundle comes back exactly when all its entries are strings |
| NotebookModel.AttachmentsRoundTrip | internal/content/notebook.go:149-157 | attachments come back exactly when there are none |
| NotebookModel.OutputRoundTrip | internal/content/notebook.go:64-90 | an output comes back exactly when its data are strings and not a stream's and only an error has error fields |
| NotebookModel.CellRoundTrip | internal/content/notebook.go:145-188 | a cell comes back exactly when it has no attachments, no `trusted` key, outputs only if it is code, and those all come back |
| NotebookModel.SaveThenLoad | internal/content/notebook.go:137-193 | load after save restores a notebook, but for the two format numbers, exactly when all its cells come back |
| NotebookModel.LoadSaveLoad | internal/content/notebook.go:49-102 | for every file, load, save and load equals one load exactly when no attachment was loaded |
| NotebookModel.SavesCell | internal/content/notebook.go:145-188 | field by field: the source and every text are saved as the lines that make them up, strings under text keys likewise, other data as they are, attachments wrapped, error fields only on errors |
| NotebookModel.LoadsCell | internal/content/notebook.go:53-100 | field by field: sources and texts are joined, lists of strings without a JSON key are joined, other such lists dropped, the rest printed; outputs only on code, data not on streams, error fields only on errors |
| NotebookModel.JsonMimes | internal/content/notebook.go:8-11 | the JSON types are the plain one and the application types that end in +json |
| NotebookModel.PrintedInOrder | internal/content/notebook.go:38-41 | a printed list has its printed items in brackets, one space between them |
| Notebooks.ToStringSlice | internal/content/notebook.go:208-214 | the strings of a list that holds only strings |
| Notebooks.RejoinMimeBundle | internal/content/notebook.go:19-46 | the loop computes the bundle that LoadsCell describes, in whatever order the map is visited |
| Notebooks.SplitEntry | internal/content/notebook.go:107-132 | one entry is split exactly when its key starts with text/ and it is a string; the trim is idle |
| Notebooks.SplitMimeBundle | internal/content/notebook.go:105-135 | the loop splits every entry, in whatever order the map is visited |
| Notebooks.RejoinOutputs | internal/content/notebook.go:64-90 | the outputs that the round trips speak of, case by case of the output type |
| Notebooks.RejoinLines | internal/content/notebook.go:49-102 | loads all cells in order and carries the metadata, not the format numbers |
| Notebooks.StripTransient | internal/content/notebook.go:196-205 | every metadata map of the notebook loses `trusted` and nothing else, even when cells share maps |
| Notebooks.ParseNotebook | internal/content/notebook.go:13-17 | every cell of the notebook returned is loaded field by field, without the format numbers; it has no `trusted` and every other key, because it refers to the maps that are stripped |
| Notebooks.ConvertAttachments | internal/content/notebook.go:149-157 | each attachment is wrapped in an object with the key data |
| Notebooks.ConvertOutputs | internal/content/notebook.go:159-174 | the saved outputs that the round trips speak of |
| Notebooks.ConvertToNbDisk | internal/content/notebook.go:138-193 | saves all cells in order, field by field as SavesCell describes, with format 4.5; a missing metadata map becomes a new empty one, any other is shared |
| Hex.EncodeThenDecode | internal/kernel/kernel_session.go:166 | decoding an encoded digest gives the digest |
| Hex.DecodeThenEncode | internal/kernel/kernel_session.go:190-191 | what decodes is the encoding of its result, up to the case of letters |
| Hex.DecodesTo | internal/kernel/kernel_session.go:190-197 | a text decodes to given bytes exactly when its lower-case form is their encoding |
| Hex.DecodableTexts | internal/kernel/kernel_session.go:190-196 | exactly the texts of an even number of hexadecimal digits decode |
| Hex.EncodedAt | internal/kernel/kernel_session.go:166 | every byte becomes the digit of its upper half and that of its lower half, in lower case |
| Hex.DigitsHaveValues | internal/kernel/kernel_session.go:166-191 | the digits 0 to 9, a to f and A to F have their values, and no other byte has one |
| Wire.DelimiterAt | internal/kernel/kernel_session.go:178-182 | the first delimiter frame, or the number of frames |
| Wire.DelimiterText | internal/kernel/kernel_session.go:140 | the bytes of the delimiter spell the text that the code compares with |
| Wire.HashedInOrder | internal/kernel/kernel_session.go:163-165 | what is hashed is the bytes of all frames in order: none for no frames, the frame itself for one, and two lists in a row for their concatenation |
| Wire.KernelSession.Feed | internal/kernel/kernel_session.go:163-165 | the loop feeds the hash the frames' bytes in order |
| Wire.KernelSession.SignFrames | internal/kernel/kernel_session.go:161-167 | the signature is the hexadecimal HMAC of the frames in order |
| Wire.KernelSession.Serialize | internal/kernel/kernel_session.go:139-159 | six frames: the delimiter, the hexadecimal HMAC of the last four in a row, the packed header twice, the packed metadata and the packed content |
| Wire.KernelSession.Deserialize | internal/kernel/kernel_session.go:169-233 | for every list and whatever lies behind it in its array: a complete list is refused exactly when there is a key and the signature is not the HMAC of the four frames, with the error that says why, else it gives back what they hold and the last error |
| Wire.CompleteMessage | internal/kernel/kernel_session.go:184-225 | the same about the function, with the HMAC over the four frames in a row written out |
| Wire.SerializeThenDeserialize | internal/kernel/kernel_session.go:139-233 | for every key, identity prefix without delimiter and extra buffers, a serialized message is accepted and its header, metadata and content come back |
| Wire.ParentHeaderSurvives | internal/kernel/kernel_session.go:143-148 | the whole message comes back exactly when its parent header equals its header |
| Wire.AcceptedIffSigned | internal/kernel/kernel_session.go:184-202 | with a key, a message passes exactly when its signature frame is the hexadecimal HMAC of its four payload frames in a row, up to letter case |
| Wire.ShortListFails | internal/kernel/kernel_session.go:184-219 | a list too short for a message never yields one: it panics, or is refused for its signature exactly when a key is set, the array behind has room for a payload, and the signature is not that of what lies there |
| Wire.BuffersIgnored | internal/kernel/kernel_session.go:187-219 | extra buffer frames never change the outcome of a complete message |
| Ports.PortAllocator.PortExists | internal/kernel/utils.go:104-111 | true exactly for listed ports |
| Ports.Found | internal/kernel/utils.go:80-99 | the first drawn port that is neither listed nor taken; none exactly when there is no such try |
| Ports.PortAllocator.Append | internal/kernel/utils.go:96 | one more port, in place or in a larger copy of the array |
| Ports.PortAllocator.FindAvailablePort | internal/kernel/utils.go:76-102 | appends the found port and returns it, or changes nothing and returns 0 with an error |
| Ports.PortAllocator.ShiftDown | internal/kernel/utils.go:119 | copying within the array moves each later port one place down over the released one |
| Ports.PortAllocator.ReleasePort | internal/kernel/utils.go:113-124 | the in-place shift leaves the list without the first occurrence of the port; an unknown port leaves the whole array as it was |
| Ports.ReleasedAt | internal/kernel/utils.go:117-119 | the release joins what is before the port and what is after it, in order |
| Ports.ReleasedUnknown | internal/kernel/utils.go:117-123 | releasing an unlisted port changes nothing |
| Ports.ReleaseBalances | internal/kernel/utils.go:113-124 | from a list without repetition exactly that port goes, and it is gone |
| Ports.PortsBalance | internal/kernel/utils.go:76-124 | in every run of allocations and releases the list has no repetition and is what was allocated without what was released |
| Registry.ClaimKeepsClaims | internal/kernel/utils.go:84-98 | one more claim keeps the list free of repetition, in 5000..5999, and attributed to its claimer |
| Registry.StepKeepsInv | internal/session/session_manager.go:19-71 | every step keeps the invariants of sessions, launches, kernels, ports, connections and deletes |
| Registry.RunKeepsInv | internal/kernel/kernel_supervisor.go:117-138 | they hold in every interleaving of creations, launches, failures, deletions, kills, connects and the three parts of a delete |
| Registry.CopiesAreOriginals | internal/websocket/kernel_websocket_handler.go:82-118 | in every run each connection and each active entry holds the manager its kernel started with, ready and not shutting down; a stored connection is cancelled only while a delete that has read and cancelled it is under way |
| Registry.SessionsHaveOwnKernels | internal/session/session_manager.go:31-50 | in every run sessions sit under their own id, their kernels were started, and no two share one |
| PortBudget.PortsHandedOutDiffer | internal/kernel/kernel_manager.go:115-122 | in every run all ports ever handed out, also to launches that failed, are different and in 5000..5999 |
| PortBudget.PortsNeverShared | internal/kernel/kernel_manager.go:115-122 | no two port fields of kernels ever started hold the same non-zero port |
| PortBudget.FullyPortedHasFive | internal/kernel/kernel_manager.go:115-122 | a kernel without a zero port, started or being launched, has claimed all five |
| PortBudget.ClaimsGrow | internal/kernel/utils.go:95-98 | claims are never taken back in any run, since nothing releases ports |
| PortBudget.FivePorts | internal/kernel/kernel_manager.go:115-122 | the claims of a launch that made all five are for five different ports in range |
| PortBudget.FivePortsEach | internal/kernel/kernel_manager.go:115-122 | any set of such launches has claimed five times as many different ports in range |
| PortBudget.AtMost200Kernels | internal/kernel/kernel_manager.go:115-122 | in every run at most 200 launches ever claim all five ports, counting those that failed and those under way |
| Connections.DropsAnotherIffStoredSince | internal/websocket/kernel_websocket_handler.go:43-49 | a delete that finds a connection to remove removes another one than it cancelled exactly when one was stored for that kernel after it read the map |
| Connections.LostForEver | internal/websocket/kernel_websocket_handler.go:39-49 | a connection that is neither cancelled, pending, stored nor held by a delete still to cancel it is never cancelled in any continuation |
| Connections.CancelPossible | internal/websocket/kernel_websocket_handler.go:39-49 | a connection ever opened is cancelled in some continuation exactly when it is not lost in that sense |
| Connections.DeleteMayLose | internal/websocket/kernel_websocket_handler.go:39-49 | there is a run from the start in which a client with a stored session connects during a delete and its connection is lost |
| Server.Server.Promises | internal/kernel/kernel_supervisor.go:117-138 | whenever a method is called, the concrete maps and port list satisfy what every run keeps: no port twice, managers ready and under their own id, sessions with kernels of their own, connections with the stored manager |
| Server.Server.ClaimField | internal/kernel/kernel_manager.go:116-120 | one field gets the found port, or 0, as one step of the system |
| Server.Server.PreLaunch | internal/kernel/kernel_manager.go:107-134 | claims five ports, for shell, iopub, stdin, heartbeat and control in this order; a field whose search fails is 0 |
| Server.Server.StartKernel | internal/kernel/kernel_manager.go:45-57 | claims ports even when the launch fails; only a successful launch makes the manager ready |
| Server.Server.StartKernelManager | internal/kernel/kernel_supervisor.go:117-132 | stores a copy of the ready manager, all its fields given, under its own id, or nothing on failure; the ports stay claimed either way |
| Server.Server.CreateSession | internal/session/session_manager.go:19-54 | returns a known session unchanged; otherwise claims ports, and files the new session and its kernel with all their fields, or neither on failure |
| Server.Server.StopKernelManager | internal/kernel/kernel_supervisor.go:134-138 | the copy that is stopped is the stored manager but for saying that it is shutting down, which the stored one does not say |
| Server.Server.DeleteSession | internal/session/session_manager.go:56-71 | removes the session; its kernel stays active and its stored manager does not say that it is shutting down |
| Server.Server.KillKernelById | internal/kernel/kernel_supervisor.go:60-66 | removes the kernel and nothing else |
| Server.Server.OpenConnection | internal/websocket/kernel_websocket_handler.go:73-108 | which of the three failures occurs, and that the connection carries a copy of the kernel's manager |
| Server.Server.StoreConnection | internal/websocket/kernel_websocket_handler.go:116-118 | the connection is stored over any other one of its kernel |
| Server.Server.HandleWebSocket | internal/websocket/kernel_websocket_handler.go:65-125 | the two parts in a row |
| Server.Server.ReadConnection | internal/websocket/kernel_websocket_handler.go:43 | reads the connection that the delete will cancel; without one nothing changes |
| Server.Server.ForgetConnection | internal/websocket/kernel_websocket_handler.go:47-49 | removes whatever is stored for the kernel by then |
| Server.Server.KernelDelete | internal/websocket/kernel_websocket_handler.go:39-63 | undisturbed, cancels and forgets connection and kernel; without a connection it panics and changes nothing |
| Untitled.DecimalInjective | internal/content/content_manager.go:231 | different numbers print differently |
| Untitled.DecimalWrites | internal/content/content_manager.go:231 | the printed digits stand for the number and have no leading zero |
| Untitled.WrittenOnce | internal/content/content_manager.go:231 | no other digits do |
| Untitled.NamesDiffer | internal/content/content_manager.go:224-231 | different numbers, zero included, give different names |
| Untitled.SearchEnds | internal/content/content_manager.go:228-232 | in a finite directory there is a least free number |
| Untitled.Folder.FreeFileName | internal/content/content_manager.go:224-232 | the loop ends at the least free number, at most the number of entries |
| Untitled.Folder.FreeDirectoryName | internal/content/content_manager.go:329-335 | the loop ends at the least number whose name is no directory |
| Untitled.Folder.WriteFile | internal/content/content_manager.go:235 | creates a file or replaces its contents, and fails on what is no file |
| Untitled.Folder.NewUntitledFile | internal/content/content_manager.go:220-259 | undisturbed, creates an empty file and changes no other entry; its name is untitled.txt or untitled, a number and .txt, the first that is not taken |
| Untitled.Folder.NewUntitledNotebook | internal/content/content_manager.go:261-315 | undisturbed, creates the empty notebook, text given, and changes no other entry; its name is Untitled.ipynb or Untitled, a number and .ipynb, the first that is not taken |
| Untitled.Folder.CreateDirectory | internal/content/content_manager.go:326-346 | makes untitled-directory or untitled-directory-, a number, the first that is no directory, unless a file has that name; the reported name is right exactly when there was no untitled-directory |
| Untitled.CreatesCountUp | internal/content/content_manager.go:220-278 | from any directory, creates of files or of notebooks one after the other use the free numbers in order without gaps |
| Creates.CreateAlone | internal/content/content_manager.go:220-346 | a request that meets no other goes through its probes, open and write to what the functions leave when run on their own |
| Creates.StepKeepsIff | internal/content/content_manager.go:228-292 | in every state a step of a request keeps an entry exactly when it is neither an open that finds a file with contents under its name nor a fill that finds one with other contents than the empty notebook |
| Creates.ContentsKeptIff | internal/content/content_manager.go:228-292 | from every state and in every run, somebody's contents are kept exactly when no request that had already chosen the name opens or fills; requests that choose later cannot harm them |
| Creates.WriteSurvivesIff | internal/content/content_manager.go:228-292 | what is written in the middle of a run survives exactly when no request that had chosen the name by then opens or fills afterwards |
| Creates.OpenMakesNew | internal/content/content_manager.go:228-235 | an open makes a new entry exactly when its name is still free, and then keeps all others |
| Creates.CreatesSpareLiveNames | internal/content/content_manager.go:220-315 | a name that is there before any request begins keeps its entry in every interleaving, as long as nobody else writes or removes it |
| Creates.OverlapTruncates | internal/content/content_manager.go:228-235 | there is a run of two requests that choose one name, the second truncating what was written under it |
| Creates.FillOverwrites | internal/content/content_manager.go:283-292 | there is a run of a single notebook request whose fill overwrites what was saved since its open |
| Creates.OverlapOverwrites | internal/content/content_manager.go:268-292 | there is a run of two notebook requests that choose one name in which the second fill overwrites what was saved in the finished notebook of the first |
| SearchCache.ContainsIsSubstring | internal/search/search_api_handler.go:69-74 | the test holds exactly when the part occurs somewhere in the string |
| SearchCache.OnlyFilter | internal/search/search_api_handler.go:60-91 | the suggestions are one per file that is no directory, has no .git in its path and the query in its name, in walk order, with its name, relative path and time; and nothing else is |
| SearchCache.StepKeepsInv | internal/search/search_api_handler.go:45-103 | every step of overlapping requests keeps cache entries, stores and answers justified by walks |
| SearchCache.EveryAnswerIsAWalk | internal/search/search_api_handler.go:45-110 | in every run a hit is made before five minutes have passed since the latest store for its query and describes exactly the files asked for that the storing request walked over; a miss those of a walk made during the request |
| SearchCache.HitAge | internal/search/search_api_handler.go:45-103 | if every store comes at most d after its lookup, all hits in all runs are less than a given age old exactly when that age is at least five minutes and d; so five minutes are kept exactly when d is 0 |
| SearchCache.LateHit | internal/search/search_api_handler.go:99-103 | for every delay and wait there is a run whose hit is that old, though the files have changed since |
| SearchCache.SearchHandler.CollectSuggestions | internal/search/search_api_handler.go:60-91 | the callback collects exactly the files asked for, in walk order, with name, relative path and time |
| SearchCache.SearchHandler.GetFileSuggestions | internal/search/search_api_handler.go:38-110 | an undisturbed request takes the steps of the system; no query, a hit, a failed walk and a miss are told apart, with what each answers and what is left in the cache |
| EditorModel.SlicesMeet | ui/src/ide/editor/notebook/NotebookEditor.tsx:123-127 | the slices before and after any integer bound make up the whole list |
| EditorModel.InsertKeepsOthers | ui/src/ide/editor/notebook/NotebookEditor.tsx:111-158 | for every integer focus adding a cell keeps all others in order |
| EditorModel.RemoveKeepsOthers | ui/src/ide/editor/notebook/NotebookEditor.tsx:602-605 | removing at a focus takes out just that cell, or none past the end |
| EditorModel.LoadedShows | ui/src/ide/editor/notebook/NotebookEditor.tsx:88-104 | a loaded notebook shows the served cells under new ids, no two sharing an array |
| EditorModel.StepKeepsInv | ui/src/ide/editor/notebook/NotebookEditor.tsx:111-663 | every event keeps ids unique and 0 <= focusedIndex <= number of cells |
| EditorModel.RunKeepsInv | ui/src/ide/editor/notebook/NotebookEditor.tsx:111-853 | so does every run, although deletion never moves the focus |
| EditorModel.CutThenPaste | ui/src/ide/editor/notebook/NotebookEditor.tsx:624-663 | with the focus unmoved, cut and paste exchange the focused cell and its successor and lose nothing; on the last cell only the id changes |
| EditorOutputs.PasteSharing | ui/src/ide/editor/notebook/NotebookEditor.tsx:638-663 | a paste leaves arrays unshared exactly when they were and no cell has the clipboard's array any more |
| EditorOutputs.CutFrees | ui/src/ide/editor/notebook/NotebookEditor.tsx:624-635 | after a cut no cell has the clipboard's array |
| EditorOutputs.StepKeepsUnshared | ui/src/ide/editor/notebook/NotebookEditor.tsx:111-663 | no other event makes two cells share an array |
| EditorOutputs.PushIsSeen | ui/src/ide/editor/notebook/NotebookEditor.tsx:205-219 | an output pushed to one cell is seen in another exactly when they share a non-empty array |
| EditorOutputs.PasteMixesOutputs | ui/src/ide/editor/notebook/NotebookEditor.tsx:638-663 | pasting a non-empty array that a cell still has makes that cell's next output appear in the pasted one |
| EditorOutputs.MessagesCommute | ui/src/ide/editor/notebook/NotebookEditor.tsx:174-282 | messages for different cells may be handled in either order exactly when they do not append different outputs to a shared non-empty array |
| Reordering.AlikeStep | ui/src/ide/editor/notebook/NotebookEditor.tsx:111-663 | no event tells two states apart that show the same and share alike: it is possible in both or neither and leaves them alike |
| Reordering.SwapInRun | ui/src/ide/editor/notebook/NotebookEditor.tsx:174-282 | two messages for different cells that follow each other anywhere in a run, and do not clash there, may come the other way round: the runs end alike |
| Reordering.OnlyOwnOrderMatters | ui/src/ide/editor/notebook/NotebookEditor.tsx:174-282 | wherever a burst of messages arrives in a run without shared arrays, the end depends only on what each cell gets and in which order, not on how the messages interleave |
| EditorOutputs.UnsharedNeverClash | ui/src/ide/editor/notebook/NotebookEditor.tsx:174-282 | while no arrays are shared they always may |
| EditorOutputs.StepIsOwn | ui/src/ide/editor/notebook/NotebookEditor.tsx:174-282 | while no arrays are shared, one event gives every cell that remains just what its own share of the event says |
| EditorOutputs.OutputsAreOwn | ui/src/ide/editor/notebook/NotebookEditor.tsx:174-282 | in every run whose pastes take arrays that no cell has, a remaining cell has the outputs and count its own events give it |
| EditorOutputs.OwnSinceClear | ui/src/ide/editor/notebook/NotebookEditor.tsx:472-482 | a submit forgets everything appended before it |
| EditorOutputs.OutputsSinceSubmit | ui/src/ide/editor/notebook/NotebookEditor.tsx:472-482 | in such a run a cell's outputs are, in order, exactly those that its own messages said since it was last submitted: texts of stdout without escape codes, errors, results and display data |
| EditorModel.SaysIsAppended | ui/src/ide/editor/notebook/NotebookEditor.tsx:203-282 | the output that is pushed is just the one that the message says, kind by kind |
| Ansi.CleanedExactly | ui/src/ide/editor/notebook/NotebookEditor.tsx:431-434 | the replacement from left to right keeps exactly the characters that belong to no escape code, in order |
| Editor.NotebookEditor.CellsShow | ui/src/ide/editor/notebook/NotebookEditor.tsx:208-214 | what a cell's array object holds is what the value model shows for it |
| Editor.NotebookEditor.constructor | ui/src/ide/editor/notebook/NotebookEditor.tsx:88-104 | sets up the served cells under new ids, each with its fields and its own array, or one empty cell |
| Editor.NotebookEditor.AddCellUp | ui/src/ide/editor/notebook/NotebookEditor.tsx:111-131 | the cells are the old ones with a new empty code cell, and a new array, at the focus |
| Editor.NotebookEditor.AddCellDown | ui/src/ide/editor/notebook/NotebookEditor.tsx:133-158 | the same, after the focus, or at the end when the focus is on no cell |
| Editor.NotebookEditor.DeleteCell | ui/src/ide/editor/notebook/NotebookEditor.tsx:595-609 | the cells are the old ones without the focused one; all of them when the focus is on none |
| Editor.NotebookEditor.CopyCell | ui/src/ide/editor/notebook/NotebookEditor.tsx:615-617 | remembers the focused cell with its own array, if any |
| Editor.NotebookEditor.CopyCellByIndex | ui/src/ide/editor/notebook/NotebookEditor.tsx:619-621 | remembers the cell at an index, if any |
| Editor.NotebookEditor.CutCell | ui/src/ide/editor/notebook/NotebookEditor.tsx:624-635 | the cells are the old ones without the focused one, which is remembered with its own array and its index |
| Editor.NotebookEditor.PasteCell | ui/src/ide/editor/notebook/NotebookEditor.tsx:638-663 | the cells are the old ones with the remembered one, its very array included, after the focus under the new id |
| Editor.NotebookEditor.UpdateCellSource | ui/src/ide/editor/notebook/NotebookEditor.tsx:436-447 | changes the source of the cell with that id only |
| Editor.NotebookEditor.ChangeCellType | ui/src/ide/editor/notebook/NotebookEditor.tsx:449-461 | changes the type of the focused cell only |
| Editor.NotebookEditor.ClearOutputs | ui/src/ide/editor/notebook/NotebookEditor.tsx:474-482 | the cell with that id gets a new empty array, and all others are as they were |
| Editor.NotebookEditor.SubmitCell | ui/src/ide/editor/notebook/NotebookEditor.tsx:472-482 | empties the outputs and sets the count to -1 |
| Editor.NotebookEditor.SubmitPromptFor | ui/src/ide/editor/notebook/NotebookEditor.tsx:516-526 | empties the outputs and keeps the count |
| Editor.NotebookEditor.GoToPreviousCell | ui/src/ide/editor/notebook/NotebookEditor.tsx:847-849 | moves the focus one up, not above 0 |
| Editor.NotebookEditor.GoToNextCell | ui/src/ide/editor/notebook/NotebookEditor.tsx:851-853 | moves the focus one down, not past the last cell |
| Editor.NotebookEditor.HandleArrowDown | ui/src/ide/editor/notebook/NotebookEditor.tsx:738-750 | moves the focus down, adding a cell first when asked to and the focus is on the last |
| Editor.NotebookEditor.SetExecutionCount | ui/src/ide/editor/notebook/NotebookEditor.tsx:188-201 | sets the count of the addressed cell only |
| Editor.NotebookEditor.AppendToCell | ui/src/ide/editor/notebook/NotebookEditor.tsx:207-216 | the copy of the addressed cell gets a new array if its own is empty, and the push is in place: every other array, an empty old one included, stays as it was |
| Editor.NotebookEditor.AppendOutput | ui/src/ide/editor/notebook/NotebookEditor.tsx:203-223 | the addressed cell shows one output more, in its own array or, if that was empty, in a new one; no other array changes; throws exactly when that cell has no array, and then changes nothing |
| Editor.NotebookEditor.UpdateNotebook | ui/src/ide/editor/notebook/NotebookEditor.tsx:174-282 | what every kind of message does to cells, arrays, prompt, reply and status: the addressed cell shows the output that the message says, and any other message leaves the arrays alone |
| Editor.NotebookEditor.Handle | ui/src/ide/editor/notebook/NotebookEditor.tsx:111-853 | every event, paste included, does on the heap what the value model says |
| Editor.NotebookEditor.HandleAll | ui/src/ide/editor/notebook/NotebookEditor.tsx:111-853 | every run of the editor, pushing in place and sharing arrays, is the run of the value model |

## Left out

- A history with a cycle below its root, on which `layoutTree` does not return: `Effect` asks for none, and `EndsIffDrawable` says why. The order of `Object.values`, rendering, and hashes that are names of built-in object properties.
- The branch of `WriteMessages` for a closed `Send` channel, since nothing closes it; the heartbeat channel and messages from the client to the kernel.
- A frame list that makes `Deserialize` panic inside a poller: in the connection model a received message is one that was deserialized.
- Message fields that `serialize` does not send (message id and type, buffers, tracker), and the JSON text `Deserialize` returns: its value is modelled.
- nil and empty: slices and maps read from a file are the same whether missing or empty.
- Invalid UTF-8, which JSON would replace; the text `%v` prints for a JSON object or number is an arbitrary string.
- Killing the process, the connection file, `LastActivity`, and stopping or killing an unknown kernel, which works on a zero-value manager.
- Data races on Go maps that no mutex guards: each access is one step.
- Server.Server.KernelDelete: run on its own; its parts `ReadConnection`, `CancelPolling`, `ForgetConnection` and `KillKernelById` may be interleaved with other methods, and the system of steps does so.
- A directory that cannot be examined, where every name seems taken and the loop does not end: the listing is finite.
- Untitled.Folder.CreateDirectory: the parent exists and is writable; `GetSafePath` is the identity.
- A directory walk that overlaps file changes: each walk sees one state of the tree.
- Editor.NotebookEditor.constructor: a notebook reloaded over another one keeps its old focus; runs start from a first load.
- React's batching of state updates, stale closures, prompt contents, and the sending of requests to the kernel.
- Directory listing order, `GetSafePath`, uploads, authentication, git, terminals, tabs and the file browser.
- JSON text, HMAC and SHA-256, ZeroMQ, websockets and process launch, which are foreign code.
