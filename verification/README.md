# Verified models of Redis internals

This project models parts of the Redis 8.6.3 sources that keep redundant state in step, and proves in
Dafny that they do: over every run, for every input, with the exact condition where the code does not
keep its promise. `dafny verify dfyconfig.toml` checks everything.

| area | files | main results |
|---|---|---|
| ACL command rules | AclText, Acl, AclReplay, AclTables, AclSelector | deleting shadowed rules preserves meaning; replaying the rule string rebuilds the selector (`RunReplays`); a table that grows or shrinks changes no other permission (`LoadedCommands`, `UnloadedCommands`) |
| Append-only file manifest | AofManifest, AofServer | which crash points of all runs recover the executed commands, losses included (`RunIsSafeIff`) |
| Append-only file log | AofLog, AofFeed | every byte-prefix of a log loads as specified (`LoadTorn`, `ReloadIsQuietIff`, `PreambleStaysIff`), each command in its database (`TornFeedReplays`) |
| Append-only file flush | AofFlush | no byte fed is lost or repeated in append mode (`RunConserves`), and exactly when without it (`PlainRunConservesIff`) |
| Top-K sketch | ChkTable, ChkReport, ChkMisreport, ChkHeap, ChkTopK | one live entry per class over every run (`RunIsUnique`), what the reported slot holds (`ReportsOwnSlotIff`, `PromotedIsKept`), heap order exactly when (`OfferKeepsHeapIff`) |
| Blocked clients | Blocked, BlockedReady, BlockedPass, BlockedRun, BlockedDb, BlockedServer | indexes and counts agree in every reachable state (`RunIsSound`), fair passes (`HandleIsFair`), no lost wakeup (`NoLostWakeup`, `QueuedKeyIsHandled`, `ListenerIsHeard`) |
| Bit operations | BitOp, BitOpFast, BitOpCommand, BitPos, BitPosCommand, BitField, BitFieldStore, BitFieldCommand, PopCount, PopCountNeon | fast paths equal per-bit meanings (`Bitop`, `Bitpos`, `IncrByMeans`, `RedisPopcount`) |
| Slot ranges, hash tags | Slots, SlotArrays, SlotText, HashSlot | unique canonical form (`CanonicalIsUnique`, `ValidIff`), acceptance and meaning of any ranges (`AcceptedIff`, `AcceptedDenotes`), round trip through text, sound slot inference (`PatternSlotIsSound`) |
| Event ports | EvPort, EventLoop | each descriptor is held in exactly one place, which every method of `EventLoop` keeps (`CreateFileEvent`, `DeleteFileEvent`, `Poll`) |
| Linked list | AdList | every operation refines a sequence; deleting on the way does not disturb a walk (`DeleteWhileWalking`) |

`Common` holds the option type and the character search that several of them use.

Code that updates fields or arrays in place is a class or a method with loops, each proved equal to a
function on values; what the code promises is proved about those functions. System calls, clocks, random
choices and hash functions are parameters, so the results hold for all of their outcomes.

## Where the code falls short of the plain claim

For each of these there is a case that fails, given as a lemma, and the exact condition under which the
claim holds.

- A first-argument operand with a separator or quote makes the rule string unreadable (`BlankOperandIsUnreadable`, `LeftoverStays`, `ReplayAllowsMore`, `ReadableIffCleanOperand`).
- A rule that names a command of an unloaded module is refused when the bits are recomputed (`UnloadedNameIsRefused`, `UnloadedCommands`).
- An error reported after the manifest was renamed makes the completion handler unlink the BASE that the disk needs (`RunThatLosesBase`, `RunIsSafeIff`, `DoneSafeIffNotLate`).
- A tail torn inside a command of an open MULTI is cut inside the transaction, so the next load truncates again, or runs the torn transaction at the next EXEC (`TornTransaction`, `ReloadIsQuietIff`, `AppendedAfterTornMulti`).
- A descriptor opened without append mode leaves a hole when bytes are kept after an undone short write (`PlainRunThatLoses`, `PlainRunConservesIff`, `PlainRunEndsRightIff`).
- A count lowered below its parent's breaks the heap order (`OffersThatLoseOrder`, `HeapifiedIsHeapIff`, `OfferKeepsHeapIff`).
- The deletion of a key whose type nobody can block for is not announced to a module's client that asked to be told (`HashDeletionIsMissed`, `DeletionIsHeardIff`).
- A tail torn before the end of the first command behind an RDB preamble takes the preamble with it (`PreambleIsCut`, `PreambleStaysIff`).
- The slot that a top-K update reports, and with it the count listed for the item, can be another item's (`AnotherIsReported`, `ChainComesBack`, `ReportsOwnSlotIff`).
- BITFIELD SET under SAT stores the maximum for some values below the minimum (`VeryLowValueSaturatesHigh`, `SignedSetClampsIff`, `UnsignedSetIs`).
- The vector popcount wraps beyond 2047 full blocks (`LongOnesWrap`, `ShortNeverWraps`).
- A reversed slot range can be hidden by merging (`ReversedRangeHides`, `TiesDecide`, `AcceptedIff`, `PromiseHoldsIff`).
- Slot numbers are cut to sixteen bits before they are checked (`NegativeNumbers`, `NumbersReadModulo`).

The comment in chk.c that bounds lobby counts by the promotion threshold disagrees with the code, which
stores up to 255; the model follows the code.

## Model

| member | source | states |
|---|---|---|
| `AclText.RemoveRules` | redis-stable/src/acl.c:574-616 | the in-place deletion loop, on any string, equals the specified scan; on a list of clean rules it leaves exactly those that the new rule does not shadow, in order, joined by single spaces |
| `AclText.EditedIs` | redis-stable/src/acl.c:574-616 | on a list of clean rules the scan deletes exactly the shadowed ones |
| `AclText.UnshadowedMembers` | redis-stable/src/acl.c:574-616 | a rule survives the deletion if and only if its text is neither the new rule nor the new rule followed by a bar |
| `AclText.SplitJoin` | redis-stable/src/sds.c:1054-1162 | tokenizing a joined rule string gives the rules back, in order |
| `AclText.LastIffClean` | redis-stable/src/sds.c:1054-1162 | the last rule of a string is read back as itself if and only if it holds no separator and no quote |
| `AclText.SplitBefore` | redis-stable/src/sds.c:1054-1162 | clean rules in front of a last one are read back whatever that one is |
| `Acl.LookupLower` | redis-stable/src/server.c:3483-3525 | command lookup ignores case |
| `Acl.ParseLower` | redis-stable/src/acl.c:1037-1212 | an accepted operation and its lower-cased text have the same effect, up to the case of a first argument |
| `Acl.ParsedRule` | redis-stable/src/acl.c:620-628 | the text kept for an operation is the lower-cased operation, and it survives tokenizing |
| `Acl.StoredRule` | redis-stable/src/acl.c:760-813 | what is kept for an operation parses to the same effect |
| `Acl.ExecApplies` | redis-stable/src/acl.c:1037-1212 | executing an operation changes bits and first arguments as its effect on permissions says |
| `Acl.CommandRegistry.GetCommandID` | redis-stable/src/acl.c:1530-1555 | each name, whatever its case, keeps one id for good; ids are never shared and never the reserved one |
| `AclReplay.ShadowedIsCovered` | redis-stable/src/acl.c:574-616 | if a stored rule shadows an older one, whatever the older one writes the newer one overwrites |
| `AclReplay.DroppingShadowedAgrees` | redis-stable/src/acl.c:574-616 | dropping shadowed rules from any rule list changes permissions only where the new rule writes anyway |
| `AclReplay.AddingRuleKeepsMeaning` | redis-stable/src/acl.c:620-628 | deleting shadowed rules and appending the new one means the old list followed by the new rule |
| `AclReplay.StoredSparesFuture` | redis-stable/src/acl.c:760-813 | no stored rule touches the reserved bit that decides between +@all and -@all |
| `AclReplay.StepKeepsFaithful` | redis-stable/src/acl.c:1037-1212 | every operation keeps the rule list faithful to the bitmap and to the first arguments |
| `AclReplay.RunKeepsFaithful` | redis-stable/src/acl.c:1037-1212 | so does every run of operations |
| `AclReplay.ReplayRebuilds` | redis-stable/src/acl.c:760-813 | replaying a faithful rule list from the chosen start rebuilds the bitmap, the first arguments up to case, and the rule list: the panic is unreachable |
| `AclReplay.RunReplays` | redis-stable/src/acl.c:673-813 | for every run from a fresh selector the kept string splits into rules whose replay rebuilds the selector; the all-commands flag implies a full bitmap |
| `AclReplay.ReadableIffCleanOperand` | redis-stable/src/acl.c:945-971 | the condition on operands is exact in every faithful selector: after an operation the rule string is readable if and only if a first-argument operand has no separator or quote |
| `AclReplay.BlankOperandIsUnreadable` | redis-stable/src/acl.c:945-971 | the failing case: GET with a first argument that holds a blank is accepted, and the rule string cannot be read back |
| `AclReplay.LeftoverStays` | redis-stable/src/acl.c:574-628 | what an unclean operand leads to next: a rule that shadows its first word leaves the rest in the string, and that is no rule |
| `AclReplay.ReplayAllowsMore` | redis-stable/src/acl.c:673-813 | an operand that holds a blank and another rule reads back as two accepted rules, and replaying them allows a command that the selector does not |
| `AclTables.StoredExtends` | redis-stable/src/acl.c:673-706 | after commands and categories were added to the table a stored rule is still accepted, with the same effect but for the bits of new commands |
| `AclTables.LoadedCommands` | redis-stable/src/acl.c:673-706 | recomputing after the table grew: every old command and every first argument keeps its permission, and a new command that no rule names is allowed exactly when future commands are |
| `AclTables.ShrunkRule` | redis-stable/src/acl.c:673-706 | after commands and categories left the table a stored rule is accepted if and only if the table still has what it names, and else refused |
| `AclTables.UnloadedCommands` | redis-stable/src/acl.c:673-706 | recomputing after the table shrank succeeds if and only if the table has what every rule names; then every remaining command and every first argument keeps its permission |
| `AclTables.UnloadedNameIsRefused` | redis-stable/src/acl.c:673-706 | the failing case: a rule that names a command of an unloaded module |
| `AclSelector.Selector.SetCommandBit` | redis-stable/src/acl.c:560-569 | writes one bit of the bitmap, and the all-commands flag with it |
| `AclSelector.Selector.ResetFirstArgsForCommand` | redis-stable/src/acl.c:918-925 | forgets the first arguments of one command |
| `AclSelector.Selector.ChangePerm` | redis-stable/src/acl.c:632-646 | writes the bits of a command and of all its subcommands, and forgets the first arguments of the command itself |
| `AclSelector.Selector.SetSubBitsForCategory` | redis-stable/src/acl.c:654-668 | the recursion over subcommands writes exactly the category members among them |
| `AclSelector.Selector.SetBitsForCategory` | redis-stable/src/acl.c:654-668 | the loop over the table writes exactly the commands and subcommands of the category |
| `AclSelector.Selector.AddAllowedFirstArg` | redis-stable/src/acl.c:945-971 | adds a first argument unless it is there already, whatever its case |
| `AclSelector.Selector.UpdateCommandRules` | redis-stable/src/acl.c:620-628 | on any rule string: what the new rule shadows is cut out and it comes last; a list of clean rules stays one if and only if the new rule has no separator or quote |
| `AclSelector.Selector.SetSelector` | redis-stable/src/acl.c:1037-1212 | the whole command part, errors included, on any selector and operand: bits, first arguments and rule string become what the specification says; a list of clean rules stays one if and only if a first-argument operand has no separator or quote |
| `AclSelector.Selector.MatchesReplay` | redis-stable/src/acl.c:760-813 | the sanity check on a fake selector always succeeds |
| `AclSelector.Selector.Describe` | redis-stable/src/acl.c:760-813 | the description is +@all or -@all followed by the rule string |
| `AclSelector.Selector.ApplyAll` | redis-stable/src/acl.c:673-706 | replaying rules succeeds if and only if none is refused; then it equals the specified replay and keeps a faithful selector faithful |
| `AclSelector.Selector.Recompute` | redis-stable/src/acl.c:673-706 | on a table that knows or refuses each stored rule: succeeds if and only if none is refused, and then the rule string is unchanged and the selector is faithful to it on that table; on an unchanged table no permission changes |
| `AofManifest.LoadInvertsLines` | redis-stable/src/aof.c:211-395 | loading a written manifest gives the same lists and the counters of the last BASE and INCR |
| `AofManifest.NewIncrIsGood` | redis-stable/src/aof.c:468-478 | a new INCR entry has a fresh name and a higher number and comes last |
| `AofManifest.RewrittenIsGood` | redis-stable/src/aof.c:440-536 | after a rewrite the manifest needs a fresh BASE and the INCR being written, nothing else |
| `AofManifest.OpenKeeps` | redis-stable/src/aof.c:804-868 | opening a new INCR file keeps the invariant and is crash-safe at every point, whether opening or persisting fails, and also when persisting fails after its rename |
| `AofManifest.StartKeeps` | redis-stable/src/aof.c:2652-2720 | starting a rewrite keeps the invariant and is crash-safe at every point |
| `AofManifest.DelKeeps` | redis-stable/src/aof.c:682-706 | unlinking history files one by one is crash-safe at every point |
| `AofManifest.DoneKeeps` | redis-stable/src/aof.c:2809-2969 | the completion handler keeps the invariant and is crash-safe at every point, on every outcome but the one of LosingPoints |
| `AofManifest.LossIsLost` | redis-stable/src/aof.c:2809-2969 | after that outcome the server still has every file it needs, while the manifest on disk names a BASE that is gone |
| `AofManifest.LostStep` | redis-stable/src/aof.c:2652-2969 | every operation of such a server: its points cannot be loaded until a manifest is stored, and are as good as any from there on |
| `AofManifest.LosingPoints` | redis-stable/src/aof.c:2809-2969 | a finished rewrite whose manifest is reported as failed after its rename: every point but the last is safe, and at the last the disk cannot be loaded |
| `AofManifest.StepIsSafe` | redis-stable/src/aof.c:2652-2969 | each other operation keeps the invariant, and a crash at any of its points restarts into a state that satisfies it |
| `AofManifest.FirstStartInv` | redis-stable/src/aof.c:727-780 | the state after a first start satisfies the invariant, with nothing buffered and no child |
| `AofManifest.FirstStartIsSafe` | redis-stable/src/aof.c:727-780 | a crash at any point of a first start leaves a directory for another first start, or one that recovers the data |
| `AofManifest.RunKeepsInv` | redis-stable/src/aof.c:440-536 | so does the end of every run of operations, crashes and restarts; after a loss the half of it that concerns the memory |
| `AofManifest.RunIsSafeIff` | redis-stable/src/aof.c:2652-2969 | at any crash point after any run, failing system calls and losses included, the disk recovers exactly the executed commands not still buffered, if and only if no completed losing rewrite is newer than the last manifest that took effect; INCR numbers increase; every file the server needs exists |
| `AofManifest.RunThatLosesBase` | redis-stable/src/aof.c:2809-2969 | the failing case: first start, rewrite, completion with a late error; the disk cannot be loaded, also not after the next command |
| `AofManifest.DoneSafeIffNotLate` | redis-stable/src/aof.c:2809-2969 | the handler leaves a recoverable disk if and only if persisting is not reported as failed after its rename took effect |
| `AofManifest.ForkSafeIffFlushed` | redis-stable/src/aof.c:2652-2720 | a fork leads to a recoverable disk if and only if the buffer was empty |
| `AofServer.LoadManifest` | redis-stable/src/aof.c:265-395 | the loop over manifest lines computes the specified load, rejections included |
| `AofServer.MarkRewrittenIncrAofAsHistory` | redis-stable/src/aof.c:506-536 | the walk from the tail moves all but the last INCR to the head of the history |
| `AofServer.Aof.OpenNewIncrAofForAppend` | redis-stable/src/aof.c:804-868 | passes through exactly the specified crash points |
| `AofServer.Aof.RewriteAppendOnlyFileBackground` | redis-stable/src/aof.c:2652-2720 | passes through exactly the specified crash points; succeeds exactly when no child runs, the new file is opened and stored and the fork works, and then the child has the executed commands and the buffer is empty |
| `AofServer.Aof.DelHistoryFiles` | redis-stable/src/aof.c:682-706 | passes through exactly the specified crash points |
| `AofServer.Aof.BackgroundRewriteDoneHandler` | redis-stable/src/aof.c:2809-2969 | passes through exactly the specified crash points on every branch |
| `AofLog.CommandRead` | redis-stable/src/aof.c:1357-1380 | an encoded command reads back as itself, and one cut at any byte is a read error, never a format error |
| `AofLog.ReadArguments` | redis-stable/src/aof.c:1618-1648 | the argument loop computes the specified parse |
| `AofLog.LoadSingleAppendOnlyFile` | redis-stable/src/aof.c:1507-1772 | the command loop computes the specified load, with a preamble or without, its truncation and error outcomes, and a read error before the end of the file |
| `AofLog.LoadPrefix` | redis-stable/src/aof.c:1581-1735 | on any prefix of a log the loader runs the complete commands and stops at the offset of the last one, or of the open transaction |
| `AofLog.LoadWhole` | redis-stable/src/aof.c:1581-1735 | a complete log loads cleanly; one whose last transaction is open is cut back to where it starts |
| `AofLog.LoadTorn` | redis-stable/src/aof.c:1581-1735 | for every byte-prefix of every log with transactions: what runs, the status, and the truncated file |
| `AofLog.ReloadIsQuietIff` | redis-stable/src/aof.c:1700-1735 | reloading runs the same commands, and needs no further truncation if and only if the tail was not torn inside a command of an open transaction |
| `AofLog.AppendedAfterTornMulti` | redis-stable/src/aof.c:1700-1735 | what a noisy reload costs, for anything appended after a truncation inside an open MULTI: without an EXEC none of it runs at the next load; at the first EXEC the torn transaction runs after all, with all that was appended before it |
| `AofLog.TornTransaction` | redis-stable/src/aof.c:1700-1735 | the failing case: MULTI and one byte of the next command |
| `AofLog.LoadTornPlain` | redis-stable/src/aof.c:1581-1735 | without transactions exactly the commands wholly inside the prefix run, the file is cut to their length, and a reload is clean |
| `AofLog.PreambleStaysIff` | redis-stable/src/aof.c:1507-1772 | behind an RDB preamble, for every byte-prefix of every log with transactions: what runs, and that the preamble stays in the file if and only if a command behind it is kept or nothing has to be cut |
| `AofLog.PreambleIsCut` | redis-stable/src/aof.c:1507-1772 | the failing case: a preamble and the first byte of a command; the file is emptied |
| `AofFeed.SelectText` | redis-stable/src/aof.c:1427-1435 | the SELECT that is printed by hand is the command in the format of all others |
| `AofFeed.WrittenReplays` | redis-stable/src/aof.c:1409-1448 | replaying what was written runs every command in the database it was executed in |
| `AofFeed.TornFeedReplays` | redis-stable/src/aof.c:1409-1448 | loading any byte-prefix of a fed file, transactions included, runs a prefix of the executed commands, each in its database; the whole file without an open transaction, all of them |
| `AofFeed.StampIsSkipped` | redis-stable/src/aof.c:1604 | a timestamp line, whole or torn at the end of the file, is read over |
| `AofFlush.AofWrite` | redis-stable/src/aof.c:1109-1126 | the retry loop over short writes and interrupts computes the specified result |
| `AofFlush.WriteAllAtEnd` | redis-stable/src/aof.c:1109-1126 | for every pattern of short writes the file grows by exactly the prefix that is reported written |
| `AofFlush.AofFile.FlushAppendOnlyFile` | redis-stable/src/aof.c:1147-1355 | equals the specified flush |
| `AofFlush.AofFile.HandleWritten` | redis-stable/src/aof.c:1218-1322 | equals the specified handling of full, short and failed writes |
| `AofFlush.AofFile.DoFsync` | redis-stable/src/aof.c:1323-1355 | equals the specified fsync step |
| `AofFlush.AofFile.FeedAppendOnlyFile` | redis-stable/src/aof.c:1409-1448 | appends the timestamp line given, a SELECT exactly when the command names another database than the last, and the command; records the database and changes nothing else |
| `AofFlush.FlushConserves` | redis-stable/src/aof.c:1147-1355 | one flush loses and repeats no byte; without append mode, writes stop landing at the end exactly after an undone short write |
| `AofFlush.RunConserves` | redis-stable/src/aof.c:1147-1448 | over every run in append mode file and buffer hold every byte fed, the size is right, and the fsync offset does not pass it |
| `AofFlush.FlushBehindConservesIff` | redis-stable/src/aof.c:1147-1355 | a flush with the offset past the end of the file, whatever the writes, the policy and force: no byte is lost if and only if the flush keeps none of what it wrote |
| `AofFlush.PlainRunConservesIff` | redis-stable/src/aof.c:804-868 | for a descriptor opened without append mode, over every run: no state loses a byte if and only if no flush keeps bytes after an undone short write |
| `AofFlush.PlainRunEndsRightIff` | redis-stable/src/aof.c:804-868 | the same for the last state of a run that did not end the server, when no zero byte is fed: the hole stays for good |
| `AofFlush.PlainRunThatLoses` | redis-stable/src/aof.c:804-868 | the failing case: a short write that is undone, then a full one |
| `ChkTable.AltIdxInvolutes` | redis-stable/src/chk.c:169-171 | the alternative bucket of the alternative bucket is the bucket itself, and is in the table |
| `ChkTable.Exchange` | redis-stable/src/chk.c:248-281 | putting an entry into a slot adds its class and count and removes the former occupant, nothing else |
| `ChkTable.KickoutConserves` | redis-stable/src/chk.c:248-281 | a kick chain keeps every class and count it moves and loses at most the entry it ends up holding |
| `ChkTable.HeavyKeeps` | redis-stable/src/chk.c:196-234 | the heavy step keeps one live entry per class and counts within the total; when it finds nothing all four slots are taken |
| `ChkTable.EmptySlotMeansAbsent` | redis-stable/src/chk.c:196-234 | an item with an empty heavy slot and no heavy entry is not in a lobby either |
| `ChkTable.PromoteKeeps` | redis-stable/src/chk.c:286-328 | promotion keeps the invariant, or changes nothing |
| `ChkTable.CheckLobbyKeeps` | redis-stable/src/chk.c:331-365 | so does the lobby check |
| `ChkTable.EnterLobbyKeeps` | redis-stable/src/chk.c:480-505 | and entering an empty lobby slot |
| `ChkTable.DecayLobbyKeeps` | redis-stable/src/chk.c:507-536 | and the decay of the other lobby entry |
| `ChkTable.UpdateKeeps` | redis-stable/src/chk.c:456-536 | one weighted update keeps the invariant with the new total |
| `ChkTable.UpdateKeys` | redis-stable/src/chk.c:456-536 | no slot appears or disappears, and the slot an update reports is in the tables |
| `ChkTable.RunKeeps` | redis-stable/src/chk.c:456-536 | every run of updates keeps the invariant, whatever the random choices |
| `ChkTable.RunIsUnique` | redis-stable/src/chk.c:456-536 | from empty tables: at most one live entry per class across heavy and lobby entries of both tables, and no count above the total |
| `ChkReport.ChainWrites` | redis-stable/src/chk.c:248-281 | a kick chain leaves in every slot what it wrote there last, and changes no other slot |
| `ChkReport.PromoteReports` | redis-stable/src/chk.c:286-328 | a promotion reports the slot it took, with the lobby entry in it or what the chain wrote back |
| `ChkReport.ReportsOwnSlot` | redis-stable/src/chk.c:456-536 | unless another item's lobby entry was decayed, the reported slot holds the item if and only if the chain wrote nothing else back to it |
| `ChkReport.ReportsAnother` | redis-stable/src/chk.c:507-536 | when a lobby entry is decayed that stays with another item, the updated item is in neither table |
| `ChkReport.ReportsOwnSlotIff` | redis-stable/src/chk.c:456-536 | for every update: the reported slot holds the item if and only if no other item's lobby entry was decayed and what the chain wrote back last, if anything, is the item |
| `ChkReport.PromotedIsKept` | redis-stable/src/chk.c:456-536 | every promotion of the item's own: it has the count found in the reported slot and is in a heavy slot, or it is the entry that the chain lost |
| `ChkMisreport.AnotherIsReported` | redis-stable/src/chk.c:456-576 | the first failing case, a run from empty tables for any threshold: an item of weight 1 is listed with another item's 1000 |
| `ChkMisreport.ChainComesBack` | redis-stable/src/chk.c:456-576 | the second failing case, with the threshold of the code: an item whose entry has the count 5 is listed with another item's 7 |
| `ChkHeap.HeapifyDown` | redis-stable/src/chk.c:75-105 | the hole-moving loop equals repeated swaps with the smaller child |
| `ChkHeap.HeapifiedPermutes` | redis-stable/src/chk.c:75-105 | the result is a permutation |
| `ChkHeap.HeapifiedIsHeapIff` | redis-stable/src/chk.c:75-105 | after one count of a heap changed, the result is a heap if and only if the new count is not below the parent's |
| `ChkHeap.FindItem` | redis-stable/src/chk.c:62-73 | finds the item with its fingerprint, or shows that it is not listed |
| `ChkHeap.OfferKeepsListed` | redis-stable/src/chk.c:541-576 | an update never lists an item twice |
| `ChkHeap.OfferKeepsHeapIff` | redis-stable/src/chk.c:541-576 | when an update keeps the heap a heap, exactly |
| `ChkHeap.OfferLists` | redis-stable/src/chk.c:541-576 | an offer that is not below the least count lists the item with the count offered |
| `ChkHeap.OffersThatLoseOrder` | redis-stable/src/chk.c:541-576 | the failing case: offers (a,2), (b,2), (a,1) into four empty buckets leave the counts 0, 2, 0, 1 |
| `ChkHeap.OffersKeepListed` | redis-stable/src/chk.c:541-576 | across all updates the heap never holds an item twice |
| `ChkTopK.TopK.CheckHeavyEntries` | redis-stable/src/chk.c:196-234 | the nested loops find the first match, else the first empty slot |
| `ChkTopK.TopK.Kickout` | redis-stable/src/chk.c:248-281 | the loop equals the specified kick chain |
| `ChkTopK.TopK.TryPromoteAndKickout` | redis-stable/src/chk.c:286-328 | equals the specified promotion |
| `ChkTopK.TopK.CheckLobbyEntry` | redis-stable/src/chk.c:331-365 | equals the specified lobby check |
| `ChkTopK.TopK.EnterLobbyEntry` | redis-stable/src/chk.c:480-505 | equals the specified entry into a lobby |
| `ChkTopK.TopK.DecayLobbyEntry` | redis-stable/src/chk.c:507-536 | equals the specified decay |
| `ChkTopK.TopK.UpdateTables` | redis-stable/src/chk.c:456-536 | equals the specified table update |
| `ChkTopK.TopK.CheckExistInHeap` | redis-stable/src/chk.c:62-73 | the downward loop finds the specified bucket |
| `ChkTopK.TopK.OfferToHeap` | redis-stable/src/chk.c:541-576 | equals the specified heap update, with the name expelled |
| `ChkTopK.TopK.Update` | redis-stable/src/chk.c:456-576 | a whole update keeps the invariants of tables and heap and equals the specified tables, heap and result |
| `Blocked.DropKeepsIndex` | redis-stable/src/blocked.c:443-457 | leaving the lists of some keys keeps client side and database side inverse, and the deletion counts exact |
| `Blocked.UnlinkIsDrop` | redis-stable/src/blocked.c:536-569 | releasing one entry does for that key what leaving it means, absent lists and counts included |
| `Blocked.DropTwice` | redis-stable/src/blocked.c:443-457 | releasing keys one by one in any order is releasing them together |
| `Blocked.ListenerIsCounted` | redis-stable/src/blocked.c:558-566 | a listener for deletions always has a count, as the code asserts |
| `Blocked.AddWaitersKeepIndex` | redis-stable/src/blocked.c:399-431 | entering the lists of any keys, repetitions ignored, keeps the index |
| `Blocked.BlockClientCounts` | redis-stable/src/blocked.c:74-87 | blocking keeps the count per type and the total exact |
| `Blocked.BlockForKeysKeeps` | redis-stable/src/blocked.c:388-439 | blocking on keys keeps the whole invariant, and the client waits for exactly those keys |
| `Blocked.QueueKeeps` | redis-stable/src/blocked.c:173-180 | a client is queued for reprocessing at most once |
| `Blocked.UnblockKeeps` | redis-stable/src/blocked.c:184-215 | unblocking keeps the whole invariant, and the client waits for nothing |
| `BlockedReady.SignalKeeps` | redis-stable/src/blocked.c:476-523 | signalling keeps the invariant |
| `BlockedReady.SignalKeepsReady` | redis-stable/src/blocked.c:476-523 | signalling keeps list and dictionary of ready keys equal, each key once |
| `BlockedReady.SignalQueuesIff` | redis-stable/src/blocked.c:476-523 | a key is queued after a signal if and only if it was queued before, or someone wants it and someone is blocked for that kind of object |
| `BlockedReady.NoLostWakeup` | redis-stable/src/blocked.c:476-523 | a waiter of the signalled type, or of a module, finds the key queued exactly once, despite the quick returns |
| `BlockedReady.TakeKeeps` | redis-stable/src/blocked.c:351-367 | taking over the list, and removing a key from the dictionary before it is handled, keep both in step |
| `BlockedPass.ReleasedKeeps` | redis-stable/src/blocked.c:666-680 | releasing a served client keeps the invariant |
| `BlockedPass.UnblockOnKeyKeeps` | redis-stable/src/blocked.c:666-714 | serving a client keeps the invariant and the ready queue whether its command finishes, blocks again, or the client is freed, and whatever keys it signals while it runs |
| `BlockedPass.ServedWaitsForData` | redis-stable/src/blocked.c:672-676 | the assertion on the blocking type holds |
| `BlockedPass.TurnAt` | redis-stable/src/blocked.c:597-616 | a turn unlinks at most the receiver and puts it back at the tail if it blocks on the key again |
| `BlockedPass.IteratorStaysValid` | redis-stable/src/blocked.c:597-616 | the node that the iterator holds is still in the list after the turn |
| `BlockedPass.PassWalks` | redis-stable/src/blocked.c:582-618 | a pass over the rest of the list gives each initial waiter one turn, in order |
| `BlockedPass.PassKeeps` | redis-stable/src/blocked.c:582-618 | a pass keeps the invariant and the ready queue |
| `BlockedRun.HandleIsFair` | redis-stable/src/blocked.c:582-618 | every waiter at the start has exactly one turn, in blocking order; those not served stay in front in order, those that block again follow |
| `BlockedRun.StepKeeps` | redis-stable/src/blocked.c:74-215 | every event keeps the invariant and the ready queue sound |
| `BlockedRun.StartIsSound` | redis-stable/src/blocked.c:61-69 | the empty server is sound |
| `BlockedRun.RunIsSound` | redis-stable/src/blocked.c:335-457 | every state of every run is sound |
| `BlockedRun.QueuedUntilHandled` | redis-stable/src/blocked.c:351-377 | a queued key stays queued until it is the one handled |
| `BlockedRun.QueuedKeyIsHandled` | redis-stable/src/blocked.c:335-379 | over every run: a key no longer queued was handled on the way, and everyone waiting for it then had a turn |
| `BlockedDb.ChangesAreHeard` | redis-stable/src/blocked.c:476-523 | whoever takes a stream away signals the key first, so that the key is queued while a client of XREADGROUP waits for it |
| `BlockedDb.TurnIsHeard` | redis-stable/src/blocked.c:597-616 | so it stays during a pass, whatever the served command does to the database |
| `BlockedDb.ListenerIsHeard` | redis-stable/src/t_stream.c:2789-2799 | in every state of every run the key of a client blocked in XREADGROUP holds a stream or is queued, and its turn serves it whatever is stored then |
| `BlockedDb.DeletionIsHeardIff` | redis-stable/src/blocked.c:476-523 | for a client of a module that asked to be told: the end of its key is queued if and only if it was, or the old object is of a type that clients can block for |
| `BlockedDb.HashDeletionIsMissed` | redis-stable/src/module.c:8701-8709 | the failing case, reached from a start: a module's client blocks on a hash, the hash is deleted, and nobody is told |
| `BlockedServer.Server.BlockClient` | redis-stable/src/blocked.c:74-87 | equals the specified transition |
| `BlockedServer.Server.AddKeys` | redis-stable/src/blocked.c:399-431 | the loop equals entering the lists of all keys |
| `BlockedServer.Server.BlockForKeys` | redis-stable/src/blocked.c:388-439 | equals the specified transition |
| `BlockedServer.Server.ReleaseBlockedEntry` | redis-stable/src/blocked.c:536-569 | equals the specified release |
| `BlockedServer.Server.UnblockClientWaitingData` | redis-stable/src/blocked.c:443-457 | the loop, in any dictionary order, leaves all lists of the client |
| `BlockedServer.Server.QueueClientForReprocessing` | redis-stable/src/blocked.c:173-180 | equals the specified queueing |
| `BlockedServer.Server.UnblockClient` | redis-stable/src/blocked.c:184-215 | equals the specified transition |
| `BlockedServer.Server.SignalKeyAsReady` | redis-stable/src/blocked.c:476-523 | equals the specified signal |
| `BlockedServer.Server.UnblockClientOnKey` | redis-stable/src/blocked.c:666-714 | equals the specified serving of a client |
| `BlockedServer.Server.HandleClientsBlockedOnKey` | redis-stable/src/blocked.c:582-618 | the iterator loop with its count tries exactly the initial waiters, in order, and keeps the invariant |
| `BitOp.ByteOpMeans` | redis-stable/src/bitops.c:1343-1434 | for all eight operators each bit of the byte loop's result has the operator's meaning on the sources' bits; ONE means exactly one |
| `BitOp.SkipIsSafe` | redis-stable/src/bitops.c:1343-1434 | once the loop over the sources may stop early, the remaining sources cannot change the result |
| `BitOpFast.FastIsSlow` | redis-stable/src/bitops.c:1189-1338 | the arithmetic of the fast path equals the byte loop's, though ONE clears common bits only at the end |
| `BitOpFast.WordIsBytes` | redis-stable/src/bitops.c:1189-1338 | both passes on words are, byte by byte, the byte operation |
| `BitOpCommand.ByteColumn` | redis-stable/src/bitops.c:1343-1434 | the loop over the sources with its early exits computes the byte operation |
| `BitOpCommand.FirstPassOnWord` | redis-stable/src/bitops.c:1215-1337 | the first pass on one word of the result in place |
| `BitOpCommand.SecondPassOnWord` | redis-stable/src/bitops.c:1277-1308 | the second pass of DIFF, DIFF1 and ANDOR completes a word |
| `BitOpCommand.FastPath` | redis-stable/src/bitops.c:1189-1338 | every byte the fast path finishes equals the byte operation on its column |
| `BitOpCommand.Lookup` | redis-stable/src/bitops.c:1127-1159 | the lookup loop: missing keys are empty, the longest length is exact, the shortest bounds every source |
| `BitOpCommand.Bitop` | redis-stable/src/bitops.c:1113-1434 | errors exactly on bad arity or type; otherwise the result has the longest length and every bit has the operator's meaning on zero-padded sources |
| `BitPos.ScanBit` | redis-stable/src/bitops.c:461-469 | shifting the scanning bit tests the bits of the loaded bytes from left to right |
| `BitPos.LoadWord` | redis-stable/src/bitops.c:440-448 | up to eight bytes are loaded big endian, padded with zeros |
| `BitPos.SkipUniform` | redis-stable/src/bitops.c:407-430 | the two skipping loops pass over uniform bytes only, for every alignment |
| `BitPos.RedisBitpos` | redis-stable/src/bitops.c:390-475 | returns the first matching bit, else -1 for ones and the position past the end for zeros; the panic is never reached |
| `BitPosCommand.FirstMaskBits` | redis-stable/src/bitops.c:1616 | the mask for the first byte covers exactly the bits before the range |
| `BitPosCommand.LastMaskBits` | redis-stable/src/bitops.c:1617 | the mask for the last byte covers exactly the bits after the range |
| `BitPosCommand.ChunkFound` | redis-stable/src/bitops.c:1649-1680 | one of the three searches: what its position means for the whole range |
| `BitPosCommand.Search` | redis-stable/src/bitops.c:1649-1693 | the three searches together find the least matching position of the bit range |
| `BitPosCommand.Bitpos` | redis-stable/src/bitops.c:1556-1693 | with normalised ends in bytes or bits: the least matching position in the range, -1 if there is none, past the end for a zero when no end is given |
| `BitField.SignedIncrementIsRight` | redis-stable/src/bitops.c:614-667 | for i1 to i64 and every old value and increment the check reports overflow exactly when the sum does not fit, with the wrapped or clamped value |
| `BitField.UnsignedIncrementIsRight` | redis-stable/src/bitops.c:577-612 | the same for u1 to u63 |
| `BitField.UnsignedSetIs` | redis-stable/src/bitops.c:577-612 | for SET a negative argument counts as too large, so SAT stores the maximum |
| `BitField.SignedSetClampsIff` | redis-stable/src/bitops.c:614-667 | for SET under SAT the value is clamped if and only if it is not below max - INT64_MAX; below it the maximum is stored |
| `BitField.SignedSetWraps` | redis-stable/src/bitops.c:614-667 | for SET overflow is reported exactly when the value does not fit, and WRAP reduces it |
| `BitField.VeryLowValueSaturatesHigh` | redis-stable/src/bitops.c:614-667 | a concrete i63 value that saturates to the wrong end |
| `BitFieldStore.SetThenGet` | redis-stable/src/bitops.c:498-530 | a field reads back what was written modulo 2^bits, and no bit outside the field changes |
| `BitFieldStore.SetUnsignedBitfield` | redis-stable/src/bitops.c:498-511 | the bit loop writes the specified field in place |
| `BitFieldStore.GetUnsignedBitfield` | redis-stable/src/bitops.c:518-530 | the bit loop reads the number written in the field |
| `BitFieldStore.SignExtendedIsWrapped` | redis-stable/src/bitops.c:532-552 | sign extension gives the value of the signed type with those bits |
| `BitFieldStore.WriteThenRead` | redis-stable/src/bitops.c:498-552 | a value of the type, written as two's complement, reads back as itself |
| `BitFieldCommand.IncrByMeans` | redis-stable/src/bitops.c:1827-1909 | INCRBY at any offset and width: the field then holds the exact sum, wrapped or clamped, or nothing changes under FAIL; no bit outside changes |
| `BitFieldCommand.SetMeans` | redis-stable/src/bitops.c:1827-1909 | SET: replies the old value and stores the new one, reduced or clamped as far as the checks clamp |
| `BitFieldCommand.BufferedRead` | redis-stable/src/bitops.c:1910-1942 | reading the nine-byte buffer equals reading the zero-extended string |
| `BitFieldCommand.GetThroughBuffer` | redis-stable/src/bitops.c:1910-1942 | GET reads the field of the zero-extended string |
| `BitFieldCommand.GrownBits` | redis-stable/src/bitops.c:782-807 | growing the string changes no bit and makes room for every write |
| `BitFieldCommand.Execute` | redis-stable/src/bitops.c:1827-1942 | one operation in place equals its specification |
| `BitFieldCommand.Bitfield` | redis-stable/src/bitops.c:1809-1942 | the string grows once, then the operations run in order with these replies |
| `PopCount.SwarCounts` | redis-stable/src/bitops.c:110-143 | each byte of the masked word holds the bit count of the byte it came from |
| `PopCount.BlockCountIsCount` | redis-stable/src/bitops.c:110-144 | the top byte of the product is the count of the 28 bytes, at most 224, so nothing is lost |
| `PopCount.RedisPopcount` | redis-stable/src/bitops.c:65-150 | equals the per-bit count for every string and alignment |
| `PopCountNeon.TotalsCount` | redis-stable/src/bitops.c:177-216 | the exact lane totals add up to the count of the blocks |
| `PopCountNeon.ShortNeverWraps` | redis-stable/src/bitops.c:177-216 | up to 2047 blocks no sixteen-bit lane wraps |
| `PopCountNeon.LongOnesWrap` | redis-stable/src/bitops.c:177-216 | with more blocks a string of ones wraps, so the bound is exact |
| `PopCountNeon.AddBlock` | redis-stable/src/bitops.c:177-216 | one turn adds four byte counts to each lane modulo 65536 |
| `PopCountNeon.RedisPopCountAarch64` | redis-stable/src/bitops.c:166-266 | never more than the count, and equal to it if and only if no lane wraps |
| `Slots.MergeCovers` | redis-stable/src/cluster.c:1904-1911 | merging adjacent ranges covers every slot as often as before |
| `Slots.CanonicalIsUnique` | redis-stable/src/cluster.c:1886-1912 | two sorted, non-adjacent, non-overlapping arrays with the same slots are equal |
| `Slots.MergedIsCanonical` | redis-stable/src/cluster.c:1886-1912 | sorting and merging disjoint ranges gives the canonical form of the same set, whatever the sort does with ties |
| `Slots.ValidIff` | redis-stable/src/cluster.c:1775-1810 | the checks on the merged array accept exactly the in-bounds and pairwise disjoint inputs |
| `Slots.EqualIffSameSlots` | redis-stable/src/cluster.c:1915-1928 | comparing merged arrays decides equality of slot sets |
| `Slots.CanonicalIsFixed` | redis-stable/src/cluster.c:1886-1912 | a canonical array is left alone |
| `Slots.CanonicalIsShort` | redis-stable/src/cluster.c:1778-1781 | a canonical array has at most 8192 ranges, so it passes the count check |
| `Slots.MergedIsChains` | redis-stable/src/cluster.c:1904-1911 | merging turns each maximal chain of adjacent ranges into one range, for any ranges, reversed ones included |
| `Slots.AcceptedIff` | redis-stable/src/cluster.c:1775-1810 | for any sorted ranges, reversed ones included: the merged array is accepted if and only if every chain starts no later than it ends, is in bounds, and ends before the next begins |
| `Slots.AcceptedReversed` | redis-stable/src/cluster.c:1775-1810 | a reversed range that is accepted was merged with a neighbour: the two shapes it can have |
| `Slots.LoneReversedIsRefused` | redis-stable/src/cluster.c:1775-1810 | a reversed range adjacent to no other is refused |
| `Slots.PromiseHoldsIff` | redis-stable/src/cluster.c:1775-1810 | the documented promise, acceptance exactly of proper, in-bounds, disjoint ranges, holds of an input if and only if it has no reversed range or its chains are refused anyway |
| `Slots.TiesDecide` | redis-stable/src/cluster.c:1899-1912 | with equal starts the order qsort happens to choose can decide: 10-9 and 10-12 are accepted one way and refused the other |
| `Slots.MergedKeepsNet` | redis-stable/src/cluster.c:1904-1911 | merging keeps, for any ranges and every slot, how many more ranges have begun than ended |
| `Slots.AcceptedDenotes` | redis-stable/src/cluster.c:1775-1810 | the slots of an accepted array, reversed ranges included: those where one more range has begun than ended |
| `Slots.EqualCoversEqually` | redis-stable/src/cluster.c:1915-1928 | arrays that compare as equal cover every slot equally often, whatever the ranges |
| `Slots.EqualToDisjointIff` | redis-stable/src/cluster.c:1915-1928 | compared with disjoint ranges any others are equal if and only if they have the same slots and are disjoint too |
| `Slots.OverlapDiffers` | redis-stable/src/cluster.c:1915-1928 | not the other way round: 0-5 3-8 differs from 0-8 |
| `Slots.ReversedRangeHides` | redis-stable/src/cluster.c:1775-1810 | a range that ends before it starts can be hidden by merging: 0-9 10-4 is accepted as 0-4 |
| `SlotArrays.SlotRangeArray.SortAndMerge` | redis-stable/src/cluster.c:1899-1912 | sorts and merges in place to the specified form |
| `SlotArrays.SlotRangeArray.MergeSorted` | redis-stable/src/cluster.c:1904-1911 | the merging loop in place equals the specified merge |
| `SlotArrays.SlotRangeArray.Check` | redis-stable/src/cluster.c:1787-1809 | accepts exactly in-bounds, proper and disjoint ranges; each error names a real culprit |
| `SlotArrays.SlotRangeArray.NormalizeAndValidate` | redis-stable/src/cluster.c:1775-1810 | for ranges with start no later than end: succeeds exactly when the count is in range and they are in bounds and disjoint, leaving the canonical form of the same set; for any ranges: succeeds exactly when the chains of the sorted array are accepted |
| `SlotArrays.SlotRangeArray.Contains` | redis-stable/src/cluster.c:1975-1980 | decides membership |
| `SlotArrays.AppendSlot` | redis-stable/src/cluster.c:1942-1972 | without an array makes one with the one slot; otherwise extends the last range or adds one, growing the array when full |
| `SlotArrays.AppendKeepsForm` | redis-stable/src/cluster.c:1942-1972 | appending a later slot keeps the canonical form and adds that slot only |
| `SlotArrays.IsEqual` | redis-stable/src/cluster.c:1915-1928 | on disjoint ranges decides equality of slot sets, also of an array with itself; on any ranges decides equality of the merged arrays |
| `SlotText.DecimalParses` | redis-stable/src/util.c:484-548 | string2ll reads back every number that fits a long long, the sign included |
| `SlotText.NumbersReadModulo` | redis-stable/src/cluster.c:1849-1884 | both numbers of a range are cut to sixteen bits, a negative second one too; a pair is read as itself if and only if both fit |
| `SlotText.NegativeNumbers` | redis-stable/src/cluster.c:1849-1884 | the failing case: 0--65533 is read as 0-3; a sign in front of the first number is refused |
| `SlotText.ParseInvertsToString` | redis-stable/src/cluster.c:1833-1865 | parsing the text of any ranges gives the ranges |
| `SlotText.CanonicalSurvivesText` | redis-stable/src/cluster.c:1833-1880 | writing, reading, sorting, merging and checking a canonical array gives it back |
| `SlotText.Render` | redis-stable/src/cluster.c:1833-1845 | the loop writes the ranges separated by single spaces |
| `SlotText.FromString` | redis-stable/src/cluster.c:1849-1884 | null on malformed text; whatever is accepted is canonical; a canonical array comes back unchanged |
| `HashSlot.KeyHashSlot` | redis-stable/src/cluster.h:59-78 | hashes what the first brace pair encloses, or the whole key |
| `HashSlot.PatternHashSlot` | redis-stable/src/cluster.c:35-60 | the scan computes the specified part to hash, or gives up |
| `HashSlot.MatchAgrees` | redis-stable/src/util.c:65-199 | a match agrees with the pattern up to the first special character |
| `HashSlot.PatternSlotIsSound` | redis-stable/src/cluster.c:35-60 | if a slot is inferred, every key that the pattern can match is hashed on the same part, for all placements of braces and any treatment of special characters |
| `HashSlot.ScanGivesUp` | redis-stable/src/cluster.c:35-60 | the scan gives up exactly when a special character comes before a closed non-empty tag |
| `EvPort.HeldOnce` | redis-stable/src/ae_evport.c:59-63 | a registered descriptor is associated with the port or pending, never both, and the recorded mask is the loop's |
| `EvPort.SetPendingMask` | redis-stable/src/ae_evport.c:166-208 | changing the mask of a pending descriptor, or freeing its entry, keeps this |
| `EvPort.SetKernelMask` | redis-stable/src/ae_evport.c:182-245 | so does changing or dropping an association |
| `EvPort.Reassociate` | redis-stable/src/ae_evport.c:254-273 | so does each re-association of a poll |
| `EvPort.Report` | redis-stable/src/ae_evport.c:300-319 | so does each reported event |
| `EventLoop.EventLoop.LookupPending` | redis-stable/src/ae_evport.c:111-120 | finds the pending entry of a descriptor, or shows there is none |
| `EventLoop.EventLoop.AddEvent` | redis-stable/src/ae_evport.c:154-183 | adds to the mask where the descriptor is held; fails only if a new association fails |
| `EventLoop.EventLoop.CreateFileEvent` | redis-stable/src/ae.c:145-179 | the mask grows by the given flags exactly on success, nothing else changes, and the highest descriptor is right |
| `EventLoop.EventLoop.DelEvent` | redis-stable/src/ae_evport.c:185-245 | removes from the mask where the descriptor is held |
| `EventLoop.EventLoop.DeleteFileEvent` | redis-stable/src/ae.c:181-201 | removes the flags, the barrier with the writable one, and updates the highest descriptor |
| `EventLoop.EventLoop.Poll` | redis-stable/src/ae_evport.c:247-319 | afterwards exactly the reported descriptors are pending and all others are associated |
| `EventLoop.EventLoop.ResizeSetSize` | redis-stable/src/ae.c:107-122 | succeeds exactly when no registered descriptor is dropped; masks do not change |
| `AdList.List.LinkNodeHead` | redis-stable/src/adlist.c:90-101 | the list becomes the node followed by the old list |
| `AdList.List.LinkNodeTail` | redis-stable/src/adlist.c:123-134 | the list becomes the old list followed by the node |
| `AdList.List.AddNodeHead` | redis-stable/src/adlist.c:76-85 | the value is put in front |
| `AdList.List.AddNodeTail` | redis-stable/src/adlist.c:109-118 | the value is put at the end |
| `AdList.List.InsertNode` | redis-stable/src/adlist.c:136-164 | the new node stands right before or after the given one |
| `AdList.List.UnlinkNode` | redis-stable/src/adlist.c:179-193 | only that node leaves the list, and it forgets its neighbours |
| `AdList.List.Index` | redis-stable/src/adlist.c:324-335 | negative indexes count from the end; null out of range |
| `AdList.List.SearchKey` | redis-stable/src/adlist.c:299-317 | the first node with the value, null exactly when there is none |
| `AdList.List.RotateTailToHead` | redis-stable/src/adlist.c:339-351 | rotates by one |
| `AdList.List.RotateHeadToTail` | redis-stable/src/adlist.c:354-366 | rotates by one the other way |
| `AdList.List.Join` | redis-stable/src/adlist.c:370-386 | concatenates and leaves the other list empty and valid |
| `AdList.List.Dup` | redis-stable/src/adlist.c:254-288 | a fresh list with the same values |
| `AdList.Iter.Next` | redis-stable/src/adlist.c:233-245 | returns the held node and fetches its neighbour at once |
| `AdList.DeleteWhileWalking` | redis-stable/src/adlist.c:216-245 | from either end, whichever visited nodes are deleted: every element is met once, in the order of the walk, and exactly the nodes not chosen remain, in order |

## Left out

- AclSelector.Selector.SetSelector: leaves the result for key and channel patterns to a parameter, because that code is not part of the model.
- AofFeed.TornFeedReplays: is stated for logs without timestamp lines, because those are read over (`StampIsSkipped`).
- AofLog.LoadSingleAppendOnlyFile: takes the loading of an RDB preamble as a parameter and has no counts and lengths beyond 64 bits, because the RDB format is not part of the model.
- AofLog.AppendedAfterTornMulti: lists a MULTI that is queued inside an open transaction among the commands run, where the server answers it with an error and does nothing.
- AclSelector.Selector.MatchesReplay: requires a faithful selector, because on others the server panics; that all reachable ones with clean operands are faithful is `RunKeepsFaithful`.
- EventLoop.EventLoop.DeleteFileEvent: requires the descriptor to be in the table or beyond the set size, because for one in between the code indexes its table without a check.
- ACL: key and channel patterns, passwords, selectors beyond the command part, the packing of the bitmap into words (bits are a set of ids below 1024), and the reply texts.
- AclReplay.RunReplays: does not say that replay restores the all-commands flag, which it does not; it says that the flag implies a full bitmap.
- AOF: the states of a server whose AOF is off or waiting for its first rewrite, replication offsets, and the format of one manifest line.
- AOF: a rewrite child is the dataset at the fork; fork, rename, fsync and unlink are outcomes chosen by the environment.
- Top-K: the decay tables are any value between zero and the old count, and the lookup of fingerprints and buckets from a hash is a parameter.
- Blocked clients: timeouts, replies, statistics, replicas and postponed clients beyond their type counts; termination of the rounds of handleClientsBlockedOnKeys, since served commands may signal new keys for ever.
- Blocked clients: re-executing a command may change the entries of its own client and signal keys, and nothing else; a client of a module stays in the list until the module unblocks it.
- BITOP: the AVX2 path; the four words of a block are combined one after the other, where the code interleaves them.
- BITFIELD: parsing of types and offsets, key events and the change counter.
- BITCOUNT and the path of redisPopcount with the POPCNT instruction would only add easy members.
- Slot ranges: iterators and duplication; qsort is a sort that promises no order among equal starts.
- HashSlot.PatternSlotIsSound: matching of special characters is any relation, so nothing is said about what a pattern with a wildcard does match.
- Event loop: callbacks, timers, the fired mask of an event, and the abort on a failed re-association.
- Linked list: callbacks for copying, freeing and matching values, and allocation failure.
- Commands, networking, persistence formats other than the above, and the application code around the vendored sources.
