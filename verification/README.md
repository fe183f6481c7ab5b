# A verified model of kagni

kagni is a Redis-compatible store written in Python. This project models the parts of it that compute
something hard: the longest-common-subsequence command, the wire codec, the sorted-set container and its
commands, the store with lazy expiry and its snapshots, the flush protocol between the loop thread and the
dump threads, transactions, the publish/subscribe hub, BITFIELD, and the two scanning list commands.
Check everything with `dafny verify dfyconfig.toml`.

Code that updates state in the source is a class or a method with loops here, proved against a
specification; what the specification promises is then proved by lemmas over all inputs or all runs.

- Clocks are parameters: every reading a call makes is one. Byte strings are sequences of numbers below 256
  with lexicographic order. Scores are reals, so rounding plays no part.
- Command handlers, pattern matching and error wording are arbitrary functions, so the results about
  transactions and publishing hold for any of them. A handler says which keys it writes, and whether it
  flushes; the subscribing commands and WATCH are modelled themselves.
- The flush protocol is a state machine whose steps interleave freely, with any number of dump jobs in
  flight; one dump and one wipe are also modelled as calls on the table, and a job nobody interrupts is shown
  to do what the call does.

| module | what it is about |
|---|---|
| `Bytes`, `Options`, `Sequences` | byte strings and their order; missing values; reversal |
| `Lcs` | the table of lengths and moves, the backtrack, the IDX walk |
| `Resp` | printer, parser, chunked reader |
| `Wire` | the frames of RESP2 as their specification writes them, and that they are what is printed and parsed |
| `FlushProtocol` | dumps, clears and wipes under a lock and an epoch |
| `Store`, `Lifetimes`, `Snapshot` | lazy expiry against a timed map; how long what is written can be seen; snapshot and restore |
| `ZSets`, `ZSetCommands` | the container; windows, pops, union, intersection, difference |
| `Transactions` | dispatch, MULTI, EXEC, DISCARD, and what the EXEC reply holds |
| `Watching` | WATCH over whole runs |
| `PubSub` | subscriptions and the inverted index |
| `Bitfield` | windows of bits, overflow modes |
| `Lists` | LREM and LPOS |

## Where the code does less than one would expect

- **Restoring can lose time.** Taking a snapshot and restoring it read the monotonic and the wall clock at
  different moments, and the restore reads the wall clock again for every key. A key's deadline drifts by the
  difference. The view is kept exactly when no key has drifted where it could be seen
  (`Snapshot.RestoreKeepsView`); `Snapshot.LateReadDropsKeyEarly` is a key that is gone too early.
- **A flush hides writes from WATCH.** It resets the write generations, so a key that is flushed and then
  written as often as it had been written when it was watched passes for untouched
  (`Watching.FlushGoesUnnoticed` is such a run). `Watching.ExecRunsIffQuiet` says for every run, flushes
  included, exactly when EXEC runs; without a flush it is exactly when no key still watched was written or
  changed liveness (`Watching.ExecRunsIffUntouched`).
- **EXEC bypasses the subscribed-mode gate.** A queued SUBSCRIBE does not stop the writes queued after it,
  although they would be refused when sent one by one (`Transactions.QueuedSubscribeParts`). The queue
  alone tells when EXEC and the sequence agree (`Transactions.GateIsExact`, `Watching.QueueDecides`).
- **A pushed frame takes a command's place in the EXEC reply.** A queued PUBLISH loses its count if and only
  if the connection hears the channel itself by then (`Transactions.PublishSlot`), and since an open
  transaction holds no subscription (`Watching.OpenHoldsNothing`), that means by what it has queued before.
  MULTI, SUBSCRIBE c, PUBLISH c c, EXEC is such a run (`Transactions.PublishLosesReply`).
- **A failed wipe leaves flushed rows on disk.** That is the one way a flushed key stays in the table
  (`FlushProtocol.FailedWipeLeavesRows`); which rows they are `FlushProtocol.TableSinceFailure` says.
- **A status or error line with a CRLF in it does not survive the wire.** Printing and parsing undo each other
  if and only if there is none (`Resp.DrainUndoesEncode`). An error that quotes its argument can have one:
  PUBSUB with the subcommand a, CRLF, b gives such a line (`Resp.QuotedCrlfBreaks`).

## Model

| member | source | states |
|---|---|---|
| Lcs.LcsRuns | src/kagni/commands/basic.py:939-1006 | under either tie-break: the four inclusive bounds of each match lie in the two strings and enclose equal substrings; the matches strictly descend in both strings without overlap, and none could be joined to the next; their sizes add up to the length; last match first they spell a common subsequence of that length, and no common subsequence is longer |
| Lcs.FillRow | src/kagni/commands/basic.py:957-977 | from a row of optimal lengths, one pass leaves the next row of optimal lengths and, for every cell, the move the tie-break prescribes |
| Lcs.FillTable | src/kagni/commands/basic.py:951-978 | two rows suffice: the last length is optimal for the whole strings and every stored move row is right |
| Lcs.Backtrack | src/kagni/commands/basic.py:980-1006 | following any correct table of moves reports exactly the spans of the maximal diagonal runs of the path |
| Lcs.MatchesAreSound | src/kagni/commands/basic.py:992-1006 | those spans, by their own bounds, are a maximal alignment of equal substrings that spells a longest common subsequence |
| Lcs.TieBreak | src/kagni/commands/basic.py:961-975 | by default the recorded path starts with a match as far right in the first string as any longest chain has; with prefer_up, as far right in the second; and so again after each match |
| Lcs.LengthIsMaximum | src/kagni/commands/basic.py:950-978 | for all strings and either tie-break some common subsequence has the reported length and none is longer |
| Lcs.BestIsUpperBound | src/kagni/commands/basic.py:957-977 | whatever is a subsequence of prefixes of both strings is no longer than the table's entry for those prefixes |
| Lcs.WithinIffSubsequence | src/kagni/commands/basic.py:939-949 | the recursive notion of subsequence the proofs use is the one by increasing positions |
| Lcs.PathIsChain | src/kagni/commands/basic.py:980-988 | the cells the backtrack visits match equal bytes and strictly descend in both strings |
| Lcs.PathLength | src/kagni/commands/basic.py:980-1006 | the backtrack meets exactly as many matches as the optimal length |
| Lcs.GroupExact | src/kagni/commands/basic.py:983-1005 | grouping into runs loses and reorders no cell, and leaves no two runs that could be one |
| Lcs.BacktrackIsSound | src/kagni/commands/basic.py:980-1006 | the runs are equal substrings of both inputs, maximal, disjoint and strictly descending in both; their cells add up to the length; joined forwards they spell a longest common subsequence |
| Lcs.SearchesSucceed | src/kagni/commands/basic.py:1071-1076 | every search of the IDX walk finds its byte, so the walk never runs off either string |
| Lcs.SearchDown | src/kagni/commands/basic.py:1073-1076 | the inner loops stop at the last occurrence at or below the current position |
| Lcs.RightmostDominates | src/kagni/commands/basic.py:1062-1076 | no placement of the subsequence puts any of its bytes further right than the walk does, in either string |
| Lcs.RightmostIsChain | src/kagni/commands/basic.py:1066-1092 | the cells of the walk match equal bytes, descend in both strings, and spell the subsequence |
| Lcs.WalkDown | src/kagni/commands/basic.py:1066-1097 | the walk reports the long enough runs of the rightmost placement and no others |
| Lcs.IndexBlocksAreSound | src/kagni/commands/basic.py:1066-1097 | IDX blocks are equal, disjoint, descending substrings; the kept ones are exactly those with at least MINMATCHLEN cells; with MINMATCHLEN 1 all are kept and total the length |
| Lcs.LcsCommand | src/kagni/commands/basic.py:1008-1097 | LEN with IDX is refused; otherwise the length, the joined subsequence, or the rightmost blocks filtered by the clamped MINMATCHLEN |
| Resp.CollectArray | src/kagni/resp.py:121-141 | the item loop returns the array only when every item is complete, and the first error or shortage otherwise |
| Resp.RespReader.Feed | src/kagni/resp.py:300-313 | one feed drains every complete message, keeps the rest, and reports an overlong buffer or a malformed message |
| Resp.ParseStable | src/kagni/resp.py:81-118 | bytes that arrive later never change a message or an error already decided |
| Resp.BulkStable | src/kagni/resp.py:144-161 | the same for bulk strings, whose payload may hold anything |
| Resp.DrainSplits | src/kagni/resp.py:305-313 | draining a prefix and then the leftover with the rest gives what draining everything at once gives |
| Resp.DrainQuiescent | src/kagni/resp.py:305-313 | what is left in the buffer after a feed holds no complete message |
| Resp.ChunkingDoesNotMatter | src/kagni/resp.py:300-313 | a stream cut anyhow is accepted if and only if no chunk overflows the cap and the uncut stream is well formed; then messages and leftover are those of the uncut stream |
| Resp.AnyCutsAgree | src/kagni/resp.py:196-313 | under the cap in total, any two ways to cut one stream give the same messages and the same buffer |
| Resp.RespDumps | src/kagni/resp.py:23-48 | the accumulating loop yields the header and then the parts of every element in order |
| Resp.EncodeArray | src/kagni/resp.py:39-54 | the wire form of an array is its header followed by the complete frames of its elements |
| Resp.IntTextReads | src/kagni/resp.py:23-27 | every integer's printed form reads back as that integer |
| Resp.LineAt | src/kagni/resp.py:72-78 | a printed line is read back whole exactly when it holds no CRLF |
| Resp.RoundTrip | src/kagni/resp.py:23-161 | any reply anywhere in a buffer parses to the value it stands for, and the parser stops right behind it, when its lines are single lines; otherwise it never parses to that value |
| Resp.DrainUndoesEncode | src/kagni/resp.py:23-161 | feeding the frames of any replies returns exactly their values and leaves the buffer empty, if and only if all lines are single lines |
| Resp.QuotedCrlfBreaks | src/kagni/commands/pubsub.py:137-138 | the error for a PUBSUB subcommand with a CRLF in it does not drain back to itself |
| Resp.TokensUndoSpread | src/kagni/resp.py:114-118 | an inline command yields exactly its words, however they are spaced |
| Wire.PrintsFrames | src/kagni/resp.py:23-54 | every value has exactly one frame in the grammar of RESP2, and that is what is printed |
| Wire.ParsesFrames | src/kagni/resp.py:81-161 | a buffer that starts with a frame of a bulk string, an integer, an array of these or a null parses to that value, and the parser stops right after the frame |
| Wire.PartOfFrame | src/kagni/resp.py:81-161 | nothing short of a whole frame is a message, and nothing short of it is refused |
| Wire.ParsesLines | src/kagni/resp.py:107-111 | a status or error line is one message, marker and all |
| Wire.ParsesInline | src/kagni/resp.py:114-118 | any other line is an inline command, and reads as the words on it |
| Wire.RefusesNegative | src/kagni/resp.py:121-161 | an array or bulk string of negative length other than the null is a protocol error |
| Wire.RefusesUnended | src/kagni/resp.py:144-161 | so is a bulk string whose payload is not followed by a line end |
| Wire.RefusesWords | src/kagni/resp.py:81-161 | and so is a length or an integer without a digit |
| Wire.BufferCap | src/kagni/resp.py:196-304 | a feed is refused for its size exactly when more than 536870912 bytes would wait |
| Wire.PingRequest | src/kagni/resp.py:81-161 | the request PING as clients send it parses to that one word |
| FlushProtocol.StepKeeps | src/kagni/db.py:76-114 | every step of every thread keeps the protocol's invariant |
| FlushProtocol.TableIsFresh | src/kagni/db.py:77-92 | over every interleaving, outside a flush and with no failed wipe outstanding, the whole table is one state the store was in during the current epoch, or it is empty |
| FlushProtocol.FlushedKeyStaysGone | src/kagni/commands/basic.py:1153-1165 | a key that is not written again after a clear is in no table once the flush is over, whatever dumps were in flight |
| FlushProtocol.MomentHappened | src/kagni/server_asyncio.py:133-137 | a snapshot in the current epoch is a store state of that very run, taken together with its epoch |
| FlushProtocol.FailedWipeLeavesRows | src/kagni/db.py:108-116 | a run in which the wipe fails and the flushed key stays in the table |
| FlushProtocol.TableSinceFailure | src/kagni/db.py:76-116 | over every run with a failed wipe outstanding, the table is the one there was when the wipe failed, or the snapshot of the last job that still committed, which is of an older epoch; a flushed key is there exactly when that one held it |
| FlushProtocol.Db.Dump | src/kagni/db.py:58-94 | the table becomes exactly the snapshot, or is untouched when there is a store to ask and its epoch has moved on |
| FlushProtocol.DumpAlone | src/kagni/db.py:76-92 | the steps of a dump job that is not interrupted, each of them enabled, change the table as that call does, during a flush or after a failed one too, and nothing else; one that commits makes up for a failed wipe |
| FlushProtocol.DumpArrives | src/kagni/db.py:76-92 | over every interleaving, a job that is through, has not failed and has not been overtaken by a clear has put into the table what the store held when it started, where it stays until the next commit or wipe |
| FlushProtocol.NeverStuck | src/kagni/db.py:76-116 | whoever holds the lock has a next step, and a waiting job may take a lock that is free |
| Store.Data.GetValue | src/kagni/data.py:68-75 | answers like the timed map, and only hides or purges what had expired |
| Store.Data.GetItem | src/kagni/data.py:62-66 | answers like the timed map; an expired key is missing |
| Store.Data.ContainsKey | src/kagni/data.py:77-79 | true exactly for live keys |
| Store.Data.SweepExpired | src/kagni/data.py:81-91 | leaves exactly the live entries and counts the others |
| Store.Data.Iterate | src/kagni/data.py:100-102 | yields exactly the live keys |
| Store.Data.Length | src/kagni/data.py:104-106 | counts exactly the live keys |
| Store.Data.SetValue | src/kagni/data.py:182-197 | replaces the entry; keeps the deadline of a live key under keep_ttl, never that of an expired one |
| Store.Data.SetItem | src/kagni/data.py:199-201 | replaces the entry and drops any deadline |
| Store.Data.Delete | src/kagni/data.py:218-228 | removes the key; an expired one counts as missing |
| Store.Data.ExpireKey | src/kagni/data.py:230-247 | gives a live key its deadline, deletes it at once when the time is not positive, and does not revive an expired one |
| Store.Data.ExpireKeyAt | src/kagni/data.py:249-267 | the same for a wall-clock deadline |
| Store.Data.PersistKey | src/kagni/data.py:328-339 | a live key with a deadline loses it; any other call changes nothing that can be seen |
| Store.Data.WallExpiryOf | src/kagni/data.py:278-295 | the deadline in wall-clock terms, or the codes for a missing key and for no deadline |
| Store.Data.ClearAll | src/kagni/data.py:109-119 | empties the store and the generations and starts a new epoch |
| Store.Data.Touch | src/kagni/data.py:203-210 | raises one key's generation by one and no other |
| Store.GenerationCounts | src/kagni/data.py:109-210 | a generation counts the writes to its key since the last flush |
| Store.SameLater | src/kagni/data.py:58-60 | stores that show the same now show the same at any later time |
| Store.LazyRefinesTimedMap | src/kagni/data.py:57-106 | over any run with a non-decreasing clock, every answer is the timed map's, and the live view stays the timed map's, whatever expired entries linger |
| Store.SameViewSameAnswers | src/kagni/data.py:182-267 | two stores with the same live view, given the same calls, answer the same and keep the same view |
| Lifetimes.ReadsWhatIsSeen | src/kagni/data.py:57-106 | get, contains, iteration, length and sweep answer with the keys seen at that moment, and no later reading changes |
| Lifetimes.SetLasts | src/kagni/data.py:182-197 | after a set the new value is seen for good, or exactly before the deadline given, or, under keep_ttl on a key that is seen, exactly as long as the old one would have been; no other key changes |
| Lifetimes.PutLasts | src/kagni/data.py:199-201 | after a plain assignment the new value is seen for good |
| Lifetimes.RemoveEnds | src/kagni/data.py:218-228 | a removed key is never seen again, and the answer is whether it was |
| Lifetimes.ExpireEnds | src/kagni/data.py:230-247 | a key that is seen keeps its value exactly up to the seconds given, in nanoseconds from the second clock reading, or goes at once when they are not positive; any other key is left alone |
| Lifetimes.ExpireAtEnds | src/kagni/data.py:249-267 | the same for a wall-clock deadline |
| Lifetimes.PersistLasts | src/kagni/data.py:328-339 | a key that is seen then is for good, and the answer is whether it would otherwise have gone |
| Lifetimes.WallExpiryTells | src/kagni/data.py:278-295 | -2 for a key that is not seen, -1 for one that always will be, or else the time from which it is not |
| Snapshot.CopyValue | src/kagni/data.py:342-357 | the copy holds the same and shares no container with the original |
| Snapshot.Take | src/kagni/data.py:121-153 | exactly the live keys are saved, with equal contents in fresh containers and wall-clock deadlines |
| Snapshot.MutateAfterSnapshot | src/kagni/data.py:121-153 | whatever is later done in place to a stored container, the snapshot still holds what was there |
| Snapshot.Restore | src/kagni/data.py:155-180 | exactly the keys whose deadline has not passed come back, with their deadlines on the new monotonic clock; rows of the older format come back without one |
| Snapshot.RestoredRow | src/kagni/data.py:155-180 | a row without a deadline, of the older format or not, is shown for good; one with a deadline exactly while it is ahead |
| Snapshot.SavedRow | src/kagni/data.py:121-153 | exactly the keys seen are saved, each with the time it has left on the wall clock, or none |
| Snapshot.RestoreKeepsView | src/kagni/data.py:121-180 | the restored store shows at every later wall time what the original would show, if and only if no deadline has drifted where it could be seen |
| Snapshot.SaveAndRestore | src/kagni/data.py:121-180 | through the heap: what comes back holds what it held when the snapshot was taken, though a container is changed in between; the keys shown are the original's at every later wall time, if and only if no deadline has drifted where it could be seen |
| Snapshot.PromptReadsKeepView | src/kagni/data.py:155-180 | with both clocks read at one moment on each side the view is kept, for every store |
| Snapshot.RestoredLife | src/kagni/data.py:167-180 | after the trip a key lives exactly up to its old deadline plus its drift; keys without a deadline stay; values are unchanged |
| Snapshot.LateReadDropsKeyEarly | src/kagni/data.py:167-180 | a restore that reaches a key late drops it at a time when the original still shows it |
| ZSets.BisectLeft | src/kagni/zset.py:43-48 | the returned index separates the pairs below the key from the others |
| ZSets.BisectRight | src/kagni/zset.py:59-73 | the returned index separates the pairs above the key from the others |
| ZSets.Insort | src/kagni/zset.py:59-73 | the list stays strictly increasing and gains just the new pair |
| Bytes.FirstDifference | src/kagni/zset.py:59-73 | members are ordered by the first byte in which they differ, and one that ends before that comes first |
| ZSets.OrderingUnique | src/kagni/zset.py:24-31 | a score map has one ordered list only, so the list never says anything the map does not |
| ZSets.OrderingSize | src/kagni/zset.py:33-34 | list and map have the same size |
| ZSets.ZSet.Rank | src/kagni/zset.py:43-48 | the rank is the number of pairs below the member's pair, and its place in the list |
| ZSets.ZSet.Add | src/kagni/zset.py:59-73 | map update on the scores; true exactly when the member is new or its score changes; the list stays in order |
| ZSets.ZSet.Remove | src/kagni/zset.py:75-82 | map removal on the scores; true exactly when the member was there |
| ZSets.ZSet.ScoreBounds | src/kagni/zset.py:85-97 | the two indexes enclose exactly the pairs in the window, for all four open and closed combinations |
| ZSets.ScoreEnds | src/kagni/zset.py:85-97 | a closed end of a score window takes the pairs on it, an open end does not |
| ZSets.MemberEnds | src/kagni/zset.py:104-123 | the same for member windows, with ends that may be absent |
| ZSets.ZSet.ScorePairs | src/kagni/zset.py:99-102 | a score window is the in-order filter of all pairs |
| ZSets.ZSet.MemberPairs | src/kagni/zset.py:104-123 | a member window is the in-order filter of all pairs |
| ZSets.ZSet.RemoveRank | src/kagni/zset.py:126-143 | exactly the window of ranks goes, from the list and from the map, and its size is returned |
| ZSets.RankSliceMeaning | src/kagni/zset.py:126-139 | the normalised slice holds exactly the ranks of the window, negative indexes counting from the end |
| ZSets.ZSet.RemoveScore | src/kagni/zset.py:145-153 | exactly the members in the score window go, and their number is returned |
| ZSets.ZSet.RemoveMember | src/kagni/zset.py:155-173 | exactly the members in the member window go, and their number is returned |
| ZSets.OutsideMembers | src/kagni/zset.py:155-173 | what stays is exactly the members beyond a bound that is given, or on an open one, with their scores |
| ZSets.ZSet.Copy | src/kagni/zset.py:176-180 | an equal, independent sorted set |
| ZSetCommands.SliceRanks | src/kagni/commands/zset.py:90-104 | selects the very window that removal by rank removes |
| ZSetCommands.LimitPairs | src/kagni/commands/zset.py:353-363 | from the offset on, at most count pairs; a negative count sets no limit, a negative offset selects nothing |
| ZSetCommands.ZRank | src/kagni/commands/zset.py:253-270 | the number of pairs below the member's, or above it in reverse, with the score on request; a missing member gives the null of the form asked for |
| ZSetCommands.RankIsPlace | src/kagni/commands/zset.py:253-270 | the pair at place i has rank i, and in reverse as many as come after it |
| ZSetCommands.ZPop | src/kagni/commands/zset.py:539-547 | returns exactly the n lowest pairs, or the n highest, highest first, and leaves exactly the rest |
| ZSetCommands.TakenAreExtreme | src/kagni/commands/zset.py:539-547 | the pairs popped lie below all that stay, lowest first, or above them all, highest first |
| ZSetCommands.SortedSets.Pop | src/kagni/commands/zset.py:531-550 | the same on a key: an emptied set loses its key, other keys keep theirs, and the key is reported as written exactly when something was popped |
| ZSetCommands.PopWindow | src/kagni/commands/zset.py:531-550 | the rank arguments of the pops denote the first n or the last n ranks, for every n and length |
| ZSetCommands.UnionOf | src/kagni/commands/zset.py:712-734 | every member of some source and no other, with the fold of its weighted scores |
| ZSetCommands.InterOf | src/kagni/commands/zset.py:735-751 | every member of all sources and no other, with the fold of its weighted scores |
| ZSetCommands.DiffOf | src/kagni/commands/zset.py:752-767 | the first source without the members of the others, with its own scores |
| ZSetCommands.AggregateSets | src/kagni/commands/zset.py:712-767 | a fresh valid sorted set with exactly that result; the sources are not modified |
| ZSetCommands.AggregateMeans | src/kagni/commands/zset.py:712-775 | the domains are the set-theoretic ones, and each score is the sum, the least or the greatest of the weighted scores |
| ZSetCommands.FoldMeans | src/kagni/commands/zset.py:769-775 | pairwise combining over a whole list is its sum, its minimum or its maximum |
| ZSetCommands.ContributionsCount | src/kagni/commands/zset.py:723-751 | a member has a score to fold exactly when some source holds it, and one per source when all do |
| ZSetCommands.ContributionsAre | src/kagni/commands/zset.py:721-751 | what is folded for a member is its score in each source that holds it times that source's weight, in the order of the sources |
| Transactions.GateOrder | src/kagni/commands/__init__.py:154-210 | only a request that gets past every gate changes the store, the subscriptions or pushes anything; a connection that holds a subscription and sends anything but the allowed names changes nothing at all, and gets the error the order of the gates prescribes |
| Transactions.DirectConn | src/kagni/commands/__init__.py:166-223 | outside a transaction only MULTI, UNWATCH and WATCH change the transaction state, each in its own way, and WATCH only past the gates |
| Transactions.Commands.WatchKeys | src/kagni/commands/basic.py:365-371 | every named key is recorded with its generation and liveness as they are now |
| Transactions.Commands.AnyDirty | src/kagni/commands/__init__.py:245-249 | true exactly when some watched key has another generation or another liveness |
| Transactions.Commands.Exec | src/kagni/commands/__init__.py:263-280 | replays the queue in order with pushes captured per command, and gives the connection its own outbox back |
| Transactions.Commands.Dispatch | src/kagni/commands/__init__.py:122-145 | one request of one connection: the new session state, the new store, the reply and the pushed frames; session and hub stay in step |
| Transactions.ServedRuns | src/kagni/commands/__init__.py:190-232 | a request that gets past the gates has its effect: the handler's table, marks, reply and frames are what is left, recorded and sent, and a subscribing command changes the names held on its own side |
| Transactions.PlainWords | src/kagni/commands/__init__.py:147-223 | with no subscription and no transaction: MULTI opens one with an empty queue, EXEC and DISCARD are errors, WATCH and UNWATCH change the watches, unknown names and wrong arities are refused |
| Transactions.InTransaction | src/kagni/commands/__init__.py:234-305 | in a transaction: DISCARD ends it and answers +OK, EXEC ends it, a dirty one answers *-1 and does nothing, an empty one *0; MULTI, WATCH and what could not run are refused and change nothing; all else is queued last and answers +QUEUED |
| Transactions.NameIgnoresCase | src/kagni/commands/__init__.py:137-141 | command names are read without regard to case |
| Transactions.QueueingIsInert | src/kagni/commands/__init__.py:282-305 | inside a transaction nothing but EXEC touches the store or pushes a frame |
| Transactions.ExecOutcome | src/kagni/commands/__init__.py:238-280 | a dirty EXEC answers a null array, leaves the store alone and ends the transaction; a clean one has the effect of the replay |
| Transactions.OnlyRunnableQueued | src/kagni/commands/__init__.py:290-305 | a queue only ever holds known commands of the right arity, and never MULTI, EXEC, DISCARD or WATCH |
| Transactions.ReplayIsDirect | src/kagni/commands/__init__.py:154-210 | a queued command does the same replayed as sent directly, unless the subscribed-mode gate stops it; then sending it directly changes nothing |
| Transactions.ReplayHeld | src/kagni/commands/__init__.py:263-279 | what a connection subscribes to when a queued request is replayed follows from the requests queued before it, whatever the handlers do |
| Transactions.ExecIsSerial | src/kagni/commands/__init__.py:263-279 | when the gate would stop none of the queued requests, EXEC leaves after each of them the store and the subscriptions that dispatching them one by one leaves; whether it would is told by the names held at EXEC and the queue alone |
| Transactions.GateIsExact | src/kagni/commands/__init__.py:154-279 | over all command tables with the same names and arities, EXEC is the sequence for a queue if and only if the gate stops none of its requests |
| Transactions.SlotsAreSerial | src/kagni/commands/__init__.py:263-279 | when the gate stops none of the queued requests, each element of the reply is what that request, sent in its turn, pushes first or replies; an UNWATCH that the gate would refuse is the one exception |
| Transactions.NoSubscriptionNoStops | src/kagni/commands/__init__.py:197-205 | the gate stops nothing when the connection holds no subscription and queues no SUBSCRIBE or PSUBSCRIBE |
| Transactions.QueuedSubscribeParts | src/kagni/commands/__init__.py:263-279 | SUBSCRIBE c, SET c c queued by a connection without subscriptions: EXEC and the sequence part |
| Transactions.SubscriptionSlot | src/kagni/commands/pubsub.py:50-109 | a queued subscribing command always has its first confirmation in its slot, whatever the other commands do |
| Transactions.EverySlotFilled | src/kagni/commands/__init__.py:263-279 | no slot of the EXEC array stays empty, for every queue a session can hold, when each other command replies or pushes on the arguments it accepts |
| Transactions.ExecReplyParses | src/kagni/commands/__init__.py:255-280 | the EXEC reply parses as one array with one element per queued command, then every extra pushed frame as a message of its own, and nothing is left, if and only if all lines are single lines |
| Transactions.PublishSlot | src/kagni/commands/__init__.py:263-279 | a queued PUBLISH answers with its count if and only if the connection, with what it has queued before, does not hear the channel itself; otherwise its element is one of the frames it was sent |
| Transactions.HubPublishes | src/kagni/pubsub.py:62-83 | whatever delivery log meets the promises of the hub, with session and hub in step, pushes the publisher exactly the frames due to it, and its length counts them with those sent elsewhere |
| Transactions.PublishLosesReply | src/kagni/commands/__init__.py:238-305 | a run: a new connection sends MULTI, SUBSCRIBE c, PUBLISH c c, EXEC, and the second element of the reply is the message in place of the count |
| Watching.WatchedIsLast | src/kagni/commands/basic.py:365-379 | over every run, what a session has watched is what the last WATCH of that key saw |
| Watching.TransactionByRequests | src/kagni/commands/__init__.py:234-305 | over every run, a transaction is open exactly while a MULTI sent without a subscription has been followed by neither EXEC nor DISCARD; its queue is the runnable requests sent since it was opened, in order; otherwise there is none |
| Watching.EndsIdle | src/kagni/commands/__init__.py:238-286 | over every run, EXEC and DISCARD in a transaction leave the connection with no transaction, no queue and no watch, and DISCARD leaves the store alone |
| Watching.OpenHoldsNothing | src/kagni/commands/__init__.py:147-305 | over every run, a connection with an open transaction holds no subscription |
| Watching.QueueDecides | src/kagni/commands/__init__.py:147-279 | over every run, whether EXEC is the sequence, for all command tables with the same names and arities, follows from the queue alone |
| Watching.QueueDecidesPublish | src/kagni/commands/__init__.py:147-279 | over every run, whether a queued PUBLISH keeps its count follows from what the requests queued before it subscribe to |
| Watching.RunFollows | src/kagni/data.py:203-210 | over every stretch of every run, the generations are the old ones after exactly the writes and flushes the commands have marked |
| Watching.GenerationKept | src/kagni/data.py:109-119 | a generation is the same at two moments if and only if the key was neither written nor flushed, or was flushed and then written as often as the generation counted |
| Watching.ExecRunsIffQuiet | src/kagni/commands/__init__.py:245-253 | over every run, flushes included, EXEC runs exactly when each key still watched is as live as at its last WATCH, and since then was neither written nor flushed, or was flushed and then written as often as it had been when it was watched |
| Watching.ExecRunsIffUntouched | src/kagni/commands/__init__.py:245-253 | over every run without a flush, EXEC runs exactly when no key still watched was written, or changed liveness, since its last WATCH |
| Watching.FlushGoesUnnoticed | src/kagni/data.py:109-119 | a run in which a watched key is flushed and rewritten with another value, and EXEC runs all the same |
| PubSub.AddTo | src/kagni/pubsub.py:31-32 | only that name's subscribers change, and no entry is empty |
| PubSub.DropFrom | src/kagni/pubsub.py:34-40 | the same, and an entry that would become empty goes |
| PubSub.Join | src/kagni/commands/pubsub.py:50-92 | each name given, of either kind, is entered for session and hub; they stay in step; each confirmation carries the total count at that point, repeated names included |
| PubSub.Leave | src/kagni/commands/pubsub.py:62-109 | each name given, or every one held in byte order, is dropped and confirmed; one null confirmation when there is none |
| PubSub.JoinStep | src/kagni/commands/pubsub.py:50-92 | the confirmation of each name carries the number of names then held on both sides |
| PubSub.LeaveStep | src/kagni/commands/pubsub.py:62-109 | the same when names are dropped |
| PubSub.LeavingEverything | src/kagni/commands/pubsub.py:62-109 | with no arguments the names held are confirmed in byte order, and the counts run down one by one to what is held on the other side |
| PubSub.ConfirmationOnWire | src/kagni/commands/pubsub.py:50-109 | a confirmation, byte by byte: the word of the command, the name or a null, the count |
| PubSub.Subscribe | src/kagni/commands/pubsub.py:50-60 | the session then holds exactly the channels it held and those named; its patterns stay, and session and hub stay in step |
| PubSub.PSubscribe | src/kagni/commands/pubsub.py:82-92 | the same for patterns |
| PubSub.Unsubscribe | src/kagni/commands/pubsub.py:62-80 | the session then holds the channels it held without those named, or none; in step throughout, and at least one frame is always sent |
| PubSub.PUnsubscribe | src/kagni/commands/pubsub.py:94-109 | the same for patterns |
| PubSub.RemoveSession | src/kagni/pubsub.py:53-59 | the session is in no entry of either table, the other subscribers stay, and the rest stays in step |
| PubSub.Connect | src/kagni/commands/__init__.py:73-84 | a new session holds nothing and is in step |
| PubSub.Publish | src/kagni/pubsub.py:62-83 | the count is the number of frames delivered: one per subscriber of the channel and one per matching pattern and subscriber of it, each exactly once, to each session in its outbox |
| PubSub.HolderIsOwed | src/kagni/pubsub.py:69-83 | a subscriber of the channel is owed the message, and the holder of a pattern that matches the channel is owed it under that pattern |
| PubSub.MessageOnWire | src/kagni/pubsub.py:101-106 | a message, byte by byte: the word, the channel, the payload |
| PubSub.PatternMessageOnWire | src/kagni/pubsub.py:108-112 | the same with the pattern before the channel |
| PubSub.SortedNames | src/kagni/commands/pubsub.py:62-80 | the one arrangement of the names in strictly ascending byte order |
| PubSub.AscendingUnique | src/kagni/commands/pubsub.py:62-80 | a set of names has one such arrangement |
| PubSub.AlwaysConfirmed | src/kagni/commands/pubsub.py:50-109 | subscribing confirms something exactly when it is given a name; unsubscribing always does |
| PubSub.PublishReaches | src/kagni/pubsub.py:62-83 | a publisher itself is sent exactly the frames due for the names it holds, and none exactly when it does not hear the channel |
| Bitfield.ExtractBits | src/kagni/commands/bit.py:47-53 | the unsigned value of the window, most significant bit first |
| Bitfield.StoreBits | src/kagni/commands/bit.py:56-65 | the window then holds the value, and no bit outside it changes |
| Bitfield.WindowInjective | src/kagni/commands/bit.py:47-65 | the value of a window and the bits outside it determine the bitmap |
| Bitfield.StoredReadsBack | src/kagni/commands/bit.py:68-72 | a value in range, stored modulo the width, is interpreted as itself, signed or not |
| Bitfield.OverflowMeans | src/kagni/commands/bit.py:75-92 | in-range values pass; SAT gives the nearest value of the type, WRAP a congruent one, FAIL none |
| Bitfield.WrapIsUnique | src/kagni/commands/bit.py:75-92 | there is only one congruent value in range |
| Bitfield.ExecuteOne | src/kagni/commands/bit.py:285-308 | each subcommand reads and writes the integer at its window and leaves the other bits; FAIL writes nothing |
| Bitfield.RunBitfield | src/kagni/commands/bit.py:279-315 | the subcommands take effect in order, and a bitmap is created only by a write that succeeds |
| Bitfield.WriteThenGet | src/kagni/commands/bit.py:285-308 | after a write that did not fail, GET of the same window returns the in-range value; windows that do not overlap read as before |
| Bitfield.Answers | src/kagni/commands/bit.py:285-308 | GET answers the reading, SET the reading before the write, INCRBY the one after it, which is the sum when that is in range; nothing is answered exactly when FAIL meets a value out of range |
| Bitfield.TypeRanges | src/kagni/commands/bit.py:75-92 | i8 is -128 to 127 and u8 is 0 to 255, and so for every width |
| Bitfield.FirstBit | src/kagni/commands/bit.py:47-72 | the bit at the offset is the most significant of the window, and the sign of a signed type |
| Bitfield.ExecutesOnce | src/kagni/commands/bit.py:285-308 | the integer view of a subcommand leaves one possible reply and one possible bitmap |
| Lists.ListCommands.Lrem | src/kagni/commands/lists.py:204-236 | removes the smaller of the count and the occurrences (all for 0) from the requested end; the key keeps its deadline, an emptied key goes, and a call that removes nothing changes and reports nothing |
| Lists.TrimHead | src/kagni/commands/lists.py:212-219 | the forward scan drops the first copies and keeps the rest in order |
| Lists.TrimTail | src/kagni/commands/lists.py:220-227 | the backward scan drops the last copies and keeps the rest in order |
| Lists.TrimmedKeepsTheRest | src/kagni/commands/lists.py:204-236 | only that many copies of the value go; every other element stays, in order |
| Lists.TrimmedUnique | src/kagni/commands/lists.py:204-236 | list, value, number and end leave one possible result |
| Lists.TrimmedMirror | src/kagni/commands/lists.py:212-227 | removing from the tail is removing from the head of the reversed list |
| Lists.QuotaMeans | src/kagni/commands/lists.py:212-227 | a count of zero takes every copy, any other as many as it says whatever its sign, or all there are |
| Lists.HeadGoesFirst | src/kagni/commands/lists.py:212-219 | from the head, the first copy goes first |
| Lists.TheNamedEnd | src/kagni/commands/lists.py:212-227 | of a list with copies at both ends one copy is taken at the end that is asked for |
| Lists.ListCommands.Lpos | src/kagni/commands/lists.py:368-426 | exactly the copies from the RANK-th on among the first MAXLEN scanned, cut at COUNT, in scan order, and as many as that makes; one index or nil without COUNT |
| Lists.Positions | src/kagni/commands/lists.py:400-426 | the same for the scan itself, from either end |
| Lists.NearestCopy | src/kagni/commands/lists.py:400-426 | RANK 1 finds the first copy and RANK -1 the last |
| Lists.MaxlenScansLess | src/kagni/commands/lists.py:408-412 | MAXLEN finds what scanning only that many elements from the end of the scan finds |
| Lists.CollectedAll | src/kagni/commands/lists.py:408-424 | stopping early at MAXLEN or COUNT misses nothing |
| Lists.AnswerMirror | src/kagni/commands/lists.py:400-426 | a negative RANK answers for the reversed list, with the indexes mirrored |
| Lists.AnswerUnique | src/kagni/commands/lists.py:400-426 | one answer only fits the description |

## Left out

- The hiredis engine and its byte accounting (src/kagni/resp.py:228-298): a foreign C reader; the pure engine is modelled.
- Python's recursion limit on nested arrays, and its limit on the digits of an integer: the parser here takes any depth and any length.
- Sockets, event loops, backpressure, signals, command line, logging: input and output only.
- IEEE floats: infinities, NaN (which an aggregate turns into 0), rounding, and the printing and parsing of scores; scores are reals.
- Glob matching and the cache of compiled patterns: `matches` is an arbitrary predicate.
- Parsing of the options of LCS, BITFIELD and LPOS, type checks of stored values, and the text of error replies: the members take parsed options on values of the right kind.
- sqlite and pickle: one commit replaces the whole table at once; reading the table at boot is the first state of a run, and every job in the protocol carries its epoch.
- "The newest snapshot always wins" is not claimed: a cancelled dumper does not stop a commit already under way.
- Keyspace events, expiry callbacks and the order in which a dict is iterated: the key to purge or copy next is arbitrary.
- `ttl` and `ttl_ms`, which round a deadline; hash field expiry, which repeats the argument for keys; BITOP and BITPOS; ZADD flags, random picks, plain set and string commands: they would only add easy members.
- Transactions.Commands.Dispatch: requests without a session, requests that are not lists of byte strings, names with bytes outside ASCII, and exceptions turned into replies are not modelled; a handler's reply stands for the last. Stored values are byte strings here and handlers are functions of the store, so a handler cannot keep a reference to a container.
- Transactions.PublishSlot: of keyspace events, which push frames as PUBLISH does, nothing is said.
- Transactions.EverySlotFilled: that each command other than the subscribing ones replies or pushes is assumed of the command table, which is a parameter.
- Frames a command pushes to other connections: in `Transactions` only those to its own connection appear, and `PubSub.Publish` has them all.
- ZSetCommands.SortedSets.Pop: expiry and the keyspace events of a deleted key are not modelled.
- ZSets.ZSet.Copy: adds nothing about the commands that call it.
