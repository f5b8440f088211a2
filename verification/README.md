# Proofs about the proxy manager

This project models the algorithms and protocols under the glue of a Node.js proxy manager (one master,
several cluster workers, hand-written utilities) in Dafny, and proves what they promise.

`dafny verify dfyconfig.toml` checks all of it.

## What is modelled

| part | files |
|---|---|
| the tree of running tasks: creating, spawning, calling, completing, the cascade that frees | `TaskTree`, `TaskInvariant`, `TaskRuns`, `TaskWindow`, `TaskHistory`, `TaskHeap` |
| replication of a port's ban list between the master and its workers | `IpCache`, `BanSync`, `BanPorts` |
| calls between cluster processes, matched by cookies | `ClusterIpc`, `IpcProofs`, `IpcHistory`, `IpcTables`, `Decimal` |
| the set of address ranges of the whitelist, IPv4 text | `Netmasks`, `Inet`, `TextFields` |
| IPv6 text | `Ipv6Canon`, `Ipv6Octets`, `Hex` |
| UTF-8 | `Utf8` |
| the PROXY protocol stripper and the line reader, which get their input in pieces | `ProxyHeader`, `LineReader` |
| CSV, shell words, durations | `Csv`, `Shell`, `Durations` |
| the buffer pool, the throttle, the retry chain | `BufferPool`, `Throttle`, `RetryChain` |

Where the program changes state step by step, the project has the same state twice: a class whose methods
have the program's loops and assignments, and functions on values. Each method's `ensures` says that the new
state is the function of the old one, and the invariants and run properties are lemmas about the functions.
Loops that compute a value are methods with loops, proved against a reference that is written in another way:
a recursive grammar, a table of an RFC, a set of addresses. What the functions mean is said by laws in other
terms again: which operations of a run lead to a state, which literal bytes or spellings are read how.

## What the proofs found

* **Tasks.** `_complete` marks a task as completed, runs its handlers and frees it only then. If something
  takes the last task that it holds away while the handlers run, by completing it or by moving it elsewhere,
  that cascade frees it first, and its own `_check_free` fails with `etask not in root`. A completion fails in
  this way exactly if some step between its two halves does that (`CompletionExactly`); `DisturbedCompletion`
  is such a run.
* **Bans.** Keys are joined with `|`. As long as no banned address has that character in it, the master and all
  workers answer alike for every domain once all channels are empty, if and only if the address that is asked
  about has none either (`AgreementExactly`). Banning an address keeps the agreement about the others if and
  only if it has none (`BansExactly`). Workers echo every ban that they are told of, and still no run, whatever
  it bans, has more deliveries than `2n + 1` for each ban at a worker, `2n` for each ban at the master and each
  new configuration, and two for each list sent to a new worker, where `n` is the most workers at any time
  (`DeliveriesFromStart`).
* **CSV.** Rows come back exactly when none of them is without fields (`Csv.RoundTrip`).
* **PROXY headers.** The address is the same for every cut of the stream exactly if the payload has four bytes or
  more, or nothing follows the header (`AddressExactly`). Behind a LOCAL header, the rest of the chunk that
  completes it is dropped, and later chunks are not (`LocalDropsRestOfChunk`).
* **UTF-8.** Code points from U+100000 on do not survive the way back (`Utf8.RoundTrip`, `PlaneSixteenIsLost`).
* **Buffer pool.** `free_size` never counts too little, and it is exact only until a free buffer is reused
  (`SizeExactly`): `alloc` does not subtract it.
* **Throttle.** A request that is aborted while it waits is passed over, and its slot stays idle until that request
  ends (`IdleSlot`). A request that ends while it waits, by a timeout say, gives a turn to another one, so more
  may run than the limit allows (`OverLimit`). `RunLaw` says by how much, for every run, and `LimitHolds` that only
  such ends do this: aborts alone never do.
* **Retries.** A rule on slow connections whose `retry` is left out has no limit: its guard compares with
  `NaN`. Every chain of hand-overs is finite exactly when there is no such rule (`BoundedExactly`).

## Choices of the model

* The handlers that run inside `_complete` are steps of their own between `Begin` and `End`, so that anything
  may happen in between. A failed assertion is `None`, and the state stays.
* Callers never attach a task under its own descendant, and a task that has been freed calls nothing: it no
  longer runs. `spawn` is `spawn_parent` behind a check that the child has no parent yet.
* The guessed parents of the task tree (`parent_guess`, `child_guess`) hold nothing and are not modelled.
* Ban lists hold permanent bans in the convergence proof, and no banned address has a `|` in it. How many
  messages there are is bounded whatever is banned. `IpCache` also has the ends of bans, as times that
  `create_timeouts` compares, and the size limit.
* Messages are values: serialising and parsing JSON is the identity. Channels are first in, first out per pair
  of processes.
* A timeout of a call is a step after which its task takes no reply any more.
* Numbers are unbounded where the program stays far below 2^53, and 32-bit where it uses bit operators. The
  fraction of `cut_free` is exact, without the rounding of a double.
* `sortedIndexBy` is the lower bound that its documentation promises.
* `Date.now()`, the requests, the replies of upstream servers and the contents of reads are inputs.

## Model

| member | source | states |
|---|---|---|
| TaskTree.ParentRemove | util/etask.js:242-263 | taking a task out of its place terminates, although it may free completed holders on the way up, and keeps every link answered |
| TaskTree.CheckFree | util/etask.js:265-270 | the upward cascade terminates and keeps every link answered |
| TaskTree.CutUpShrinks | util/etask.js:245-246 | cutting a call link uses up one link, which is why the cascade ends |
| TaskTree.CutChildShrinks | util/etask.js:255 | cutting a child link uses up one link |
| TaskInvariant.CheckFreeReaps | util/etask.js:242-270 | the cascade keeps the tree sound and frees exactly the task and the completed tasks above it that are left holding nothing |
| TaskInvariant.CreateKeeps | util/etask.js:201 | a new task sits in `root` only, and the invariant holds |
| TaskInvariant.BeginKeeps | util/etask.js:298-316 | marking a task as completed keeps the invariant while its handlers run |
| TaskInvariant.EndKeeps | util/etask.js:317-324 | the end of a completion fails exactly for a task that is freed already; otherwise it keeps the invariant and either frees the task with the emptied completed ancestors or leaves it where it belongs |
| TaskInvariant.AdoptKeeps | util/etask.js:317-323 | a completed callee that holds tasks becomes a child of its caller; links stay inverse and acyclic |
| TaskInvariant.SpawnParentKeeps | util/etask.js:587-628 | moving a task fails exactly when a caller waits for it; otherwise it ends under the new parent, or in `root` if that is freed, and only emptied completed ancestors are freed |
| TaskInvariant.SetDownKeeps | util/etask.js:512-523 | calling a task fails exactly in the cases that the assertions name or when the callee is freed; otherwise the callee moves from `root` to the `down` slot and nothing else changes |
| TaskInvariant.RootRemoveKeeps | util/etask.js:236-240 | taking a task from `root` leaves it in no place and all others as they were |
| TaskInvariant.LeaveParentKeeps | util/etask.js:253-262 | a task that leaves its parent loses that link, and the parent's cascade frees only emptied completed tasks |
| TaskInvariant.AbandonKeeps | util/etask.js:265-270 | a completion that fails leaves the invariant intact |
| TaskRuns.NextKeeps | util/etask.js:201-628 | every operation, in any order and with any interleaving, keeps the invariant |
| TaskRuns.RunKeeps | util/etask.js:201-628 | so does every run |
| TaskRuns.ReachableSound | util/etask.js:1199-1226 | in every reachable state each task that is not free sits in exactly one place, links are mutually inverse and ranked, freed tasks are linked to nothing, and a completed task that holds nothing is freed unless its own completion is still going on |
| TaskRuns.NoCycle | util/etask.js:1199-1226 | a chain of holders never returns to its start |
| TaskWindow.StepInWindow | util/etask.js:298-324 | while the completion of a task goes on, any other operation frees it exactly if that takes its last held task away |
| TaskWindow.CompletionExactly | util/etask.js:298-324 | whatever happens between the two halves of a completion, it fails exactly if some step takes the last held task away; otherwise it frees the task exactly if that holds nothing, with the emptied completed tasks above |
| TaskWindow.LastChildInWindow | util/etask.js:298-324 | the last held task completes, or is moved, even to the same parent: both free the task, and its completion fails |
| TaskWindow.DisturbedCompletion | util/etask.js:298-324 | a run from nothing that gets there |
| TaskHistory.NextMarks | util/etask.js:201-628 | one operation marks a task as completed only by its own `Begin`, ends its completion only by its own `End`, and links it only as the operation says |
| TaskHistory.ReachableHistory | util/etask.js:298-324 | in every reachable state the tasks are those created, a task is completed exactly if its own completion began, and its completion goes on exactly if it has not ended |
| TaskHistory.ReachableLinks | util/etask.js:512-628 | in every reachable state a task has a caller only if that called it, and a parent only if it was moved there or adopted by its caller |
| TaskHeap.Tasks.ParentRemove | util/etask.js:242-263 | on heap objects: the step of the model, link by link |
| TaskHeap.Tasks.RootRemove | util/etask.js:236-240 | on heap objects: fails exactly when the task is not in `root`, and takes it out otherwise |
| TaskHeap.Tasks.CheckFree | util/etask.js:265-270 | on heap objects: the cascade of the model |
| TaskHeap.Tasks.Create | util/etask.js:201 | on heap objects: a fresh task without links, in `root` |
| TaskHeap.Tasks.SpawnParent | util/etask.js:616-628 | on heap objects: the move of the model |
| TaskHeap.Tasks.SetDown | util/etask.js:512-523 | on heap objects: the call of the model |
| TaskHeap.Tasks.BeginComplete | util/etask.js:301 | on heap objects: the task is marked as completed, and nothing else changes |
| TaskHeap.Tasks.Adopt | util/etask.js:317-323 | on heap objects: the callee leaves its caller's `down` slot for its `child` set |
| TaskHeap.Tasks.EndComplete | util/etask.js:317-324 | on heap objects: adopts or not, runs the cascade, and fails when the model does |
| IpCache.WithoutDistinct | lib/ip_cache.js:72-77 | deleting a key removes that key and no other |
| IpCache.LiveDistinct | lib/ip_cache.js:24-37 | dropping ended bans leaves keys distinct |
| IpCache.WithoutCat | lib/ip_cache.js:72-77 | the entries that stay keep their order |
| IpCache.LiveCat | lib/ip_cache.js:24-37 | so do those whose ban has not ended |
| IpCache.BanLasts | lib/ip_cache.js:55-64 | a ban is dropped when its time has passed, and one without end never |
| IpCache.NewestAreLast | lib/ip_cache.js:65-71 | what the size limit leaves are the last entries, as many as it allows |
| IpCache.KeySplits | lib/ip_cache.js:52-54 | without bars in addresses, a key determines its ban |
| IpCache.HasExactly | lib/ip_cache.js:81-83 | without bars, an address is banned for a domain exactly if there is an entry for it without a domain or with this one |
| IpCache.Cache.constructor | lib/ip_cache.js:18-23 | the list starts with the live entries of the message, the newest `max` of them |
| IpCache.Cache.Has | lib/ip_cache.js:81-83 | true exactly if the whole address or the pair is banned |
| IpCache.Cache.Delete | lib/ip_cache.js:72-77 | the entry of the pair is gone, the others keep their order |
| IpCache.Cache.Add | lib/ip_cache.js:55-64 | the ban moves to the end of the list with its new end, the oldest entries go if there are too many, and the new one is never among them |
| IpCache.Cache.EnsureMaxSize | lib/ip_cache.js:65-71 | the eviction loop leaves exactly the newest `max` entries |
| BanSync.NextKeeps | lib/proxy_port.js:128-258 | every step keeps: a worker's list will hold all of the master's keys once its inbox is handled, and the master has or will hear of all of the worker's |
| BanSync.RunKeeps | lib/proxy_port.js:128-258 | so does every run |
| BanSync.NoListYet | lib/worker.js:252-261 | a worker has no list before its first `CREATE`, whatever else it is sent |
| BanSync.WorkerEchoes | lib/worker.js:376-380 | a worker with a list echoes each ban that it is told of, in order |
| BanSync.WorkerLists | lib/worker.js:354-380 | its list is the last snapshot with the bans after it |
| BanSync.SnapshotsArrive | lib/proxy_port.js:128-258 | a new worker will have the master's list, and a new configuration brings it to every worker that has one |
| BanSync.QuietAgrees | lib/ip_cache.js:81-83 | with empty channels the answers agree although the key sets may differ |
| BanSync.Convergence | lib/proxy_port.js:195-202 | in every run of bans of addresses without bars, from any list and with any interleaving, joins, departures and snapshots, all agree once the channels are empty |
| BanSync.AgreementExactly | lib/ip_cache.js:52-54 | in the quiet states of such runs all agree about an address if and only if it has no bar |
| BanSync.Disagreement | lib/ip_cache.js:52-54 | a run that ends in disagreement about an address with a bar |
| BanSync.BansExactly | lib/ip_cache.js:52-54 | runs that ban one address keep the agreement about addresses without bars if and only if that address has none |
| BanSync.CoveredStays | lib/proxy_port.js:195-202 | every step, whatever it bans, sends workers only bans that the master's list covers |
| BanSync.StepWeighs | lib/worker.js:376-380 | every delivery decreases the weight of unknown bans and messages under way, and any other step adds no more than its cost |
| BanSync.DeliveryShrinks | lib/worker.js:376-380 | in every state of every run, whatever was banned, a delivery makes the measure smaller |
| BanSync.DeliveriesBounded | lib/worker.js:292-294 | in every run, with deliveries and other steps in any order, the deliveries are no more than the weight at the start and the costs of the other steps |
| BanSync.DeliveriesFromStart | lib/proxy_port.js:34 | from the start on: no more than the costs of the other steps |
| BanSync.EchoesDieOut | lib/worker.js:292-294 | left alone, the channels are empty after at most that many deliveries, whatever was banned; then all agree if no banned address had a bar |
| BanSync.Settles | lib/worker.js:292-294 | from every such state, deliveries lead to empty channels |
| BanPorts.ProxyPort.constructor | lib/proxy_port.js:34 | the master starts with the configured list and no workers |
| BanPorts.ProxyPort.HandleBanip | lib/proxy_port.js:195-202 | the master's step: known bans are dropped, new ones are added and sent to every worker |
| BanPorts.ProxyPort.SetupWorker | lib/proxy_port.js:128-135 | a worker is sent the whole list |
| BanPorts.ProxyPort.UpdateConfigs | lib/proxy_port.js:249-258 | every worker is sent the whole list |
| BanPorts.Server.Banip | lib/server.js:1279-1285 | the worker's list gets the key and the ban is echoed |
| BanPorts.Server.HandleMessage | lib/worker.js:252-261 | the worker's step for each kind of message, also before its first list |
| IpcProofs.ReplyKeyInjective | util/cluster_ipc.js:172 | a key is that of one name and one cookie |
| IpcProofs.CallKeeps | util/cluster_ipc.js:169-189 | a call adds one entry and one packet for it |
| IpcProofs.ArrivalKeeps | util/cluster_ipc.js:26-57 | a request that arrives is parked or runs, and stays in one place |
| IpcProofs.InstallKeeps | util/cluster_ipc.js:208-221 | installing a handler moves parked calls to it, each once |
| IpcProofs.FinishKeeps | util/cluster_ipc.js:62-80 | a finished handler turns its call into one reply |
| IpcProofs.ReplyExpected | util/cluster_ipc.js:86-103 | the entry for a reply under way is there |
| IpcProofs.ReplyKeeps | util/cluster_ipc.js:86-117 | a reply uses up its entry |
| IpcProofs.NextKeeps | util/cluster_ipc.js:26-221 | no step takes the exit for a reply that nobody waits for, and every step keeps each call in exactly one place |
| IpcProofs.NextInOrder | util/cluster_ipc.js:208-221 | what has run and what is parked is what arrived, in order |
| IpcProofs.NextArrivals | util/cluster_ipc.js:26-57 | every step keeps: no call arrives twice, and what arrived was asked for, under that name and with those arguments |
| IpcProofs.CallsConserved | util/cluster_ipc.js:86-117 | in every reachable state each call that is waited for is in one place, any other in none, the net and the queues hold no call twice, and no call is lost |
| IpcProofs.RepliesAndOrder | util/cluster_ipc.js:208-221 | each caller resumes at most once, with the reply to its own call; what arrives was asked for; parked calls are dispatched in order, and no call is run twice, or run and still parked |
| IpcHistory.AsksInOrder | util/cluster_ipc.js:26-221 | in every run, for every two processes and handler name: what the first asked of the second, with its arguments, is in order what was run, what is parked and what is under way |
| IpcHistory.RepliesGiven | util/cluster_ipc.js:62-115 | in every run a caller resumes with the error or the value that the handler of its own call gave, and so is every reply under way |
| IpcHistory.GivenUp | util/cluster_ipc.js:169-189 | in every run a call whose timeout came is never resumed |
| IpcHistory.HandlerLives | util/cluster_ipc.js:208-238 | a handler is there from its installation to its removal; one that removes itself goes with its first call, parked or new |
| IpcTables.Ipc.Call | util/cluster_ipc.js:169-189 | the tables of the caller after a call, and its request |
| IpcTables.Ipc.SetIncomingPending | util/cluster_ipc.js:26-31 | the call joins the end of its queue |
| IpcTables.Ipc.OnCall | util/cluster_ipc.js:36-57 | the call runs, or is parked when there is no handler |
| IpcTables.Ipc.AddHandler | util/cluster_ipc.js:208-221 | an error when there is a handler; otherwise the loop runs the parked calls, and a handler that removes itself parks the rest again |
| IpcTables.Ipc.OnResponse | util/cluster_ipc.js:86-117 | the waiting task, taken from the table |
| Netmasks.MergedCanonical | lib/util.js:1064-1082 | adding a range keeps the ranges sorted, disjoint and not adjacent |
| Netmasks.MergedCovers | lib/util.js:1064-1082 | an address is covered afterwards exactly if it was or is in the range |
| Netmasks.CanonicalUnique | lib/util.js:1064-1082 | there is one such list for each set of addresses |
| Netmasks.OrderIndependent | lib/util.js:1050-1055 | the final list does not depend on the order of the adds |
| Netmasks.MergedAllCovers | lib/util.js:1050-1055 | after any adds, exactly the added addresses are covered |
| Netmasks.Netmasks.constructor | lib/util.js:1046-1049 | the list of all adds |
| Netmasks.Netmasks.AddRange | lib/util.js:1064-1082 | the in-place search and merge gives the merged list |
| Netmasks.Netmasks.Swallow | lib/util.js:1075-1081 | the second half of the merge: the ranges that the grown one reaches are cut out |
| Netmasks.Netmasks.Contains | lib/util.js:1083-1091 | true exactly for covered addresses |
| Inet.InetAddr | util/conv.js:126-149 | gives a number exactly for four decimal bytes with dots between, and the number that they denote |
| Inet.AddressOfNtoa | util/conv.js:121-149 | reading undoes printing for every 32-bit number, signed or not |
| TextFields.FieldsAdd | util/conv.js:136-144 | a separator and a piece without one add one field |
| Ipv6Canon.LongestRun | util/conv.js:245-276 | finds the longest run of zero groups, the first of the longest |
| Ipv6Canon.OctToCanon | util/conv.js:243-300 | the text is canonical by sections 4.2.1 to 4.2.3 of RFC 5952 |
| Ipv6Canon.WithGap | util/conv.js:279-291 | the groups before and after the run around `::` |
| Ipv6Canon.CanonicalUnique | util/conv.js:243-300 | an address has one canonical text |
| Ipv6Canon.GapExactly | util/conv.js:278-299 | the text has two colons in a row exactly if two groups in a row are zero |
| Ipv6Canon.Example | util/conv.js:245-276 | the run that is shortened in the example of section 4.2.3 of RFC 5952 |
| Hex.ShapeOfHex | util/conv.js:282 | groups have no leading zeros and at most four digits, as section 4.1 of RFC 5952 asks |
| Hex.ValueOfHex | util/conv.js:163 | reading undoes printing |
| Hex.HexDigits | util/conv.js:163 | the digits of base sixteen, in lower case when printed and in either case when read |
| Decimal.DecimalDigits | util/conv.js:126-149 | the digits of base ten |
| Ipv6Octets.Quad | util/conv.js:168-186 | the numbers of a dotted quad at the end, read backward |
| Ipv6Octets.AfterGap | util/conv.js:208-229 | the groups behind `::` fill the list from its end, before what the first loop set |
| Ipv6Octets.ZeroFill | util/conv.js:230-231 | zeros fill what is left between the groups before and behind `::` |
| Ipv6Octets.ToOct | util/conv.js:152-239 | for every text of an address by section 2.2 of RFC 4291, canonical or not, with a dotted quad or not, the octets are those of the address |
| Ipv6Octets.CanonicalDenotes | util/conv.js:243-300 | a canonical text denotes its address |
| Ipv6Octets.MappedDenotes | util/conv.js:121-239 | the quad that `inet_ntoa_t` prints, behind `::ffff:`, denotes the mapped address of every IPv4 address |
| Ipv6Octets.CanonAndBack | util/conv.js:152-300 | printing and reading gives all sixteen octets back |
| Utf8.Str2Utf8Bin | util/conv.js:916-953 | nothing for the empty string; otherwise the bytes are the encoding of the code points by the table of section 3 of RFC 3629, and the buffer suffices |
| Utf8.PutPoint | util/conv.js:931-950 | the bytes of one code point match their row of the table |
| Utf8.PutLeads | util/conv.js:935-949 | all bytes but the last of a code point that has several |
| Utf8.NextPoint | util/conv.js:923-931 | surrogates pair up as in UTF-16, and one without a partner stands for itself |
| Utf8.Utf8Unique | util/conv.js:931-950 | the table allows one encoding only |
| Utf8.DecodeStep | util/conv.js:962-993 | one turn of the decoder, also beyond the end of the bytes |
| Utf8.Utf8Bin2Str | util/conv.js:955-996 | the decoder from an offset on |
| Utf8.RoundTrip | util/conv.js:916-996 | decoding undoes encoding exactly when no pair denotes a code point from 0x100000 on, and what happens to such a pair |
| Utf8.PlaneSixteenIsLost | util/conv.js:987 | U+100000 comes back changed |
| Utf8.LegalWhenWhole | util/conv.js:916-930 | the code points are legal for RFC 3629 exactly when every surrogate is half of a pair |
| Utf8.PairsCount | util/conv.js:923-931 | the surrogate pairs count the code points from U+10000 to U+10FFFF |
| Utf8.Examples | util/conv.js:931-950 | the bytes of the examples of section 7 of RFC 3629 |
| ProxyHeader.CuttingDoesNotMatter | lib/util.js:618-665 | for every stream and every cut the verdict is that of the whole stream, the address too if the payload has four bytes, exactly the bytes behind the header are pushed, and fewer than 16 + 512 bytes are held |
| ProxyHeader.LocalDropsRestOfChunk | lib/util.js:645-649 | what a LOCAL header loses: the rest of its chunk, so nothing exactly when it ends there |
| ProxyHeader.ShortPayload | lib/util.js:650-656 | with a payload below four bytes and bytes behind it, cutting where the header ends changes the address |
| ProxyHeader.AddressExactly | lib/util.js:618-665 | the address is that of the whole stream for every cut if and only if the payload has four bytes or the stream ends with its header |
| ProxyHeader.WireFormat | lib/util.js:618-665 | for every version, command, family and length, written out as bytes: malformed, still open, LOCAL, of another family, or the address and the bytes that are pushed on |
| ProxyHeader.OtherPreamble | lib/util.js:625-631 | any other twelve bytes are malformed |
| ProxyHeader.NoAddress | lib/util.js:650-656 | a header without a payload and without bytes behind it gives the word `undefined` four times |
| ProxyHeader.OrdinaryConnection | lib/util.js:618-665 | an ordinary IPv4 header, however it is cut: its address is announced, and exactly the bytes behind it are pushed |
| ProxyHeader.LbTransform.HandleChunk | lib/util.js:618-665 | the stream after one more chunk: what is held, the verdict and what is pushed on |
| LineReader.ReadLines | util/file.js:63-91 | the lines that are reported are those of the whole text, whatever the reads, up to the first that stops |
| LineReader.FinishLine | util/file.js:73-79 | one carriage return before a line feed goes, also when it came with an earlier read |
| LineReader.ReadBack | util/file.js:63-91 | lines that were written with line feeds are read back exactly when none ends in a carriage return |
| LineReader.StripsOne | util/file.js:73-79 | one carriage return goes, and nothing else |
| LineReader.LastLine | util/file.js:63-91 | lines that were written with CR LF are read back, and text behind the last of them is a line unless it is empty |
| Csv.ToStr | util/csv.js:290-309 | every row on a line of its own, fields quoted where needed and quotes doubled |
| Csv.LineToStr | util/csv.js:294-299 | the fields with commas between and a line feed behind |
| Csv.ReadQuoted | util/csv.js:52-94 | the loops over a quoted value end, and read up to its closing quote |
| Csv.ReadPlain | util/csv.js:95-103 | a plain value ends before a delimiter |
| Csv.ToArr | util/csv.js:22-142 | the rows of the grammar of section 2 of RFC 4180 with line feeds, and the two errors |
| Csv.RoundTrip | util/csv.js:22-309 | reading undoes printing exactly when no row is without fields |
| Csv.QuotedIfNeeded | util/csv.js:173-193 | a field is quoted exactly if it holds a comma, a line feed or one of the two quotes |
| Csv.Errors | util/csv.js:52-94 | a quote that is never closed, and text between a closing quote and a delimiter, are the two errors |
| Csv.Unterminated | util/csv.js:95-142 | a last row without a line feed is read too, also when its last field is empty |
| Csv.QuotesInside | util/csv.js:95-103 | quotes behind the first character of a value stand for themselves |
| Shell.Sh | util/escape.js:24-39 | the quoted words with blanks between |
| Shell.UnSh | util/escape.js:41-123 | the state machine, for every text and either setting of `keep_esc` |
| Shell.RoundTrip | util/escape.js:24-123 | every list of words is read back as it was |
| Shell.KeptAsPrinted | util/escape.js:41-123 | with `keep_esc` the words are read as they were printed |
| Shell.ShellReads | util/escape.js:24-39 | by section 2.2 of the POSIX Shell Command Language the printed words are the words as well: nothing is expanded and nothing ends the command |
| Shell.BareExactly | util/escape.js:25-32 | exactly the words of letters, digits and five other characters are printed without quotes |
| Shell.BlankSeparates | util/escape.js:57-85 | each of the four blanks separates words |
| Shell.QuotesHold | util/escape.js:57-123 | text in single or in double quotes is one word, and an error if the quote is not closed |
| Shell.LastBackslash | util/escape.js:47-56 | a backslash alone stands for itself, and one at the end of a longer text adds the word `undefined` |
| Durations.MatchSound | util/date.js:144-147 | what the backtracking match finds is what the pattern means |
| Durations.MatchComplete | util/date.js:144-147 | it finds a match if there is one |
| Durations.MatchUnique | util/date.js:144-147 | a text matches in one way only |
| Durations.Chop | util/date.js:63-69 | one unit is taken out and the rest goes on |
| Durations.DurToStr | util/date.js:59-83 | the greedy parts in the order of the units, cut to `units` and joined; `0s` for nothing |
| Durations.KeptAll | util/date.js:63-79 | the parts add up to the length, and fewer parts to less |
| Durations.UnitText | util/date.js:139-153 | a number followed by any spelling of a unit, in any case, is that many of the unit; a year has 365 days and a month 30 |
| Durations.SpelledExactly | util/date.js:139-153 | a number and a word are a length exactly if the word is one of the listed spellings, in any case, and then it is that many of its unit |
| Durations.OneUnitPrinted | util/date.js:59-83 | a number of one unit is printed with the name of the unit, and nothing as `0s` |
| Durations.RoundTrip | util/date.js:59-153 | what reading makes of a printed length, with or without weeks, any blanks between parts, any `units`; it is the length exactly when no part was cut off |
| BufferPool.AllocKeeps | util/buf_pool.js:29-37 | the buffer given was not in use and is now; the count drifts by the bytes of a reused buffer |
| BufferPool.PutFine | util/buf_pool.js:38-41 | freeing keeps every buffer listed once exactly when it is not free already |
| BufferPool.PutKeeps | util/buf_pool.js:38-42 | freeing keeps the invariant exactly when the buffer is not free already, and the count follows |
| BufferPool.CutKeeps | util/buf_pool.js:48-65 | a cut keeps the lists and the count right |
| BufferPool.CutFits | util/buf_pool.js:57-64 | after a triggered cut the free bytes are within the limit |
| BufferPool.KeptMost | util/buf_pool.js:57-64 | a cut list keeps its first buffers, and as many as the fraction allows |
| BufferPool.LastInFirstOut | util/buf_pool.js:29-42 | the buffer freed last is given first, and a new one is made only when none is free |
| BufferPool.RunKeeps | util/buf_pool.js:29-66 | in every run no buffer is both free and used, and the count is the free bytes plus all bytes ever reused |
| BufferPool.SizeExactly | util/buf_pool.js:29-66 | the count is never too small, and exact if and only if nothing was reused |
| BufferPool.RunFits | util/buf_pool.js:38-66 | in every run a free that triggers the cut gets within the limit |
| BufferPool.OverflowLasts | util/buf_pool.js:48-65 | in every run `overflow_ts` is the time of the free from which on the pool has been over its limit without a break |
| BufferPool.ClockRuns | util/buf_pool.js:48-65 | in every run the clock runs after a free exactly if the pool is over its limit, but for a cut, which resets it |
| BufferPool.DropsOnlyWhenOver | util/buf_pool.js:48-65 | in every run buffers are dropped only after the limit was exceeded for longer than `free_ttl`, five minutes by default |
| BufferPool.BufPool.AllocBuf | util/buf_pool.js:29-37 | takes the last free buffer of the length or makes one, lists it as used, and leaves the count alone |
| BufferPool.BufPool.FreeBuf | util/buf_pool.js:38-47 | moves a buffer to the free list, adds its length to the count and cuts if there is a limit; an error, and nothing changed, for a length that was never given |
| BufferPool.BufPool.CutFree | util/buf_pool.js:48-66 | resets, starts or keeps the overflow clock; when triggered, every free list keeps its share, in whatever order the size classes come, and the count falls by what is dropped |
| Throttle.ThrottleMgr.Throttle | lib/throttle_mgr.js:33-41 | a request runs at once exactly if fewer than the limit are active |
| Throttle.ThrottleMgr.Release | lib/throttle_mgr.js:42-52 | the first in the queue goes on unless it is gone |
| Throttle.ThrottleMgr.GetNextTask | lib/throttle_mgr.js:73-81 | the head of the queue; an empty queue is dropped |
| Throttle.ThrottleMgr.DecreaseActive | lib/throttle_mgr.js:87-96 | one active request fewer; nobody is not counted |
| Throttle.ArriveKeeps | lib/throttle_mgr.js:33-41 | an arrival keeps the books of every domain |
| Throttle.ReleaseCounted | lib/throttle_mgr.js:42-52 | a release keeps the counts of every domain, whoever ends and whoever is next |
| Throttle.ResumesFirst | lib/throttle_mgr.js:47-81 | a release resumes the request that it takes off the front of the queue, unless that is gone; then nobody |
| Throttle.WaitingEnds | lib/mixins/server_handle.js:51-90 | so does the end of a request that still waits |
| Throttle.RunKeeps | lib/throttle_mgr.js:33-96 | so does every run, with aborted requests and requests that end while they wait |
| Throttle.RunLaw | lib/throttle_mgr.js:33-96 | in every run the count is that of the requests that have not ended; those that run or were passed over are as many as the limit allows plus the queue entries of ended requests; turns are given in order of arrival |
| Throttle.TurnsBegin | lib/throttle_mgr.js:42-52 | in every run whose turn came began to run, unless it was aborted or ended while it waited |
| Throttle.LimitHolds | lib/throttle_mgr.js:33-96 | in every run the limit of a domain is exceeded by no more than the requests that ended while they waited, so never if there were none, whoever was aborted |
| Throttle.RunsInOrder | lib/throttle_mgr.js:33-96 | when nobody is aborted or ends while waiting: as many run as the limit allows, and requests start in the order of arrival |
| Throttle.IdleSlot | lib/throttle_mgr.js:50-51 | a run in which an aborted request leaves its slot idle until it ends |
| Throttle.OverLimit | lib/mixins/server_handle.js:51-90 | a run in which two requests run where one may |
| RetryChain.Server.Retry | lib/rules.js:197-220 | one more retry, and the port that is asked for |
| RetryChain.Server.ActionTail | lib/rules.js:345-359 | a rule hands over exactly if its guard allows |
| RetryChain.Server.RoutePort | lib/server.js:834-840 | routing happens on the first attempt only |
| RetryChain.Server.RedirectReq | lib/server.js:971-980 | a redirect is a retry with its own limit |
| RetryChain.Server.ProxyError | lib/server.js:1181-1190 | a temporary failure is retried within the cap |
| RetryChain.Server.BannedIp | lib/server.js:1194-1204 | a banned address is retried up to the setting, and is an error then |
| RetryChain.ChainBounded | lib/rules.js:221-231 | no chain is longer than 20 and all settings |
| RetryChain.ChainEndless | lib/rules.js:346-350 | a rule without a number goes on for ever |
| RetryChain.BoundedExactly | lib/rules.js:345-359 | chains are bounded exactly when all such rules have numbers |
| RetryChain.RuleRepeats | lib/rules.js:221-231 | how often one rule alone goes on: three times, twenty with a port, as often as `retries` says, five on slow connections |
| RetryChain.CauseRepeats | lib/rules.js:361-379 | ten redirects, three temporary failures or as few as are set, as many banned addresses as are set, one routing |
| RetryChain.WhereItGoes | lib/worker.js:301-310 | a request comes to a port exactly if it began there or a hand-over named it and it has a server |

## Left out

- Ipv6Octets.ToOct: promises nothing for text that is no address; `parseInt` is modelled by the digits that its text starts with.
- Shell.ShellReads: is about literal words; the other syntax of a shell is not part of this model.
- Durations.DurToStr: is about whole numbers of milliseconds without `precision`.
- Durations.RoundTrip: is about whole numbers of milliseconds without `precision`, and numbers are printed without exponents.
- Csv.ToArr: does not model `trim`, `trim_cr`, `strict`, `strict_quote`, other delimiters, the partial results, or rows as objects.
- BanSync.Convergence: does not cover bans that end, the size limit or unbans, where a late echo may bring an entry back; an echo that is held up by a full pipe is just a late delivery.
- BanPorts.ProxyPort.constructor: takes a configured list of permanent bans.
- BanPorts.ProxyPort.HandleBanip: is about permanent bans and lists without a size limit, like `BanSync`.
- BanPorts.Server.Banip: is about permanent bans, and leaves out the session that a ban replaces.
- BanPorts.Server.HandleMessage: leaves out the messages that do not concern the ban list, and the sessions that a ban replaces.
- IpcProofs.CallsConserved: leaves out workers that fail, whose calls are ended with an error, and the sockets that travel with messages.
- Utf8.Utf8Bin2Str: takes arrays of bytes, not the conversion from a raw buffer.
- Netmasks.Netmasks.Add: takes ranges of numbers; parsing of address blocks by the `netmask` package is not part of this model.
- LineReader.ReadLines: starts from decoded text; the decoder of the platform is not part of this model.
- ProxyHeader.LbTransform.HandleChunk: the sockets and events around the stream are its outputs, not modelled further.
- BufferPool.BufPool.CutFree: the share of a list is exact; the program's double may differ in the last place.
- Throttle.RunsInOrder: is about a limit that stays; a new limit resets the tables while requests still run.
- RetryChain.ChainBounded: settings are numbers, truth values or missing; numbers written as text are not modelled, nor is the count of redirects, which only ends chains sooner.
- RetryChain.Server.Retry: leaves out the abort of requests under way and the logging.
- Task generators, waiting, timers, cancelling, naming and the printing of trees.
- Express, Redis, Loki, TLS, HTTP agents, child processes, the browser parts, the command line, upgrades and configuration migration.
- Calendar and locale code, number formatting, country tables: easy members or library code.
- Authentication, sanitising and the decisions of the whitelist.
