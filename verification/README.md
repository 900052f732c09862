# Agent delivery, relocation and collection: a verified model

A Dafny model of the parts of the Rust agent whose correctness is not visible in one function: the
fold of split gNMI answers into one tree, the daemon's home, relocation and reload machine, the
bounded on-disk queue with its flush, the retry loop, how switch reports are packed, exporter
scrapes, network snapshots, the first-start identity and the exposition-format reader.

Objects that the agent updates in place are classes (`DiskQueue`, `DeliveryQueue`, `Process`,
`Scraper`, `StateDirectory`, `Answer`), loops are loops, and each is proved against functions or a
step machine about which the theorems are stated. Everything the world decides is a parameter: the
clock, the server's answers, when a cancellation is seen, which unlinks, reads, writes, links and
openings fail, the resolver's reply, the length of an encoding, and what a text reads as a number.

## Files

| file | models |
|---|---|
| `Options.dfy`, `Ordering.dfy` | optional values; total orders, sorting, sums over a sequence that forget its order |
| `Tree.dfy`, `TreeGroups.dfy`, `TreeOrders.dfy`, `TreeSplits.dfy`, `TreeMerge.dfy`, `TreeAnswers.dfy` | `gnmi/tree.rs`: the laws of the fold, what becomes of each member and list entry, any order of updates, any way of cutting up an answer, the in-place merge, and what whole answers carry |
| `EntryLists.dfy`, `QueueHistory.dfy`, `Queue.dfy`, `EntryNames.dfy` | `queue.rs`: histories as a step machine, the queue class, the entry names |
| `Flush.dfy` | `flush` in `main.rs` |
| `Home.dfy`, `DaemonState.dfy`, `Daemon.dfy` | `home.rs`, the daemon loop of `main.rs` and client identity of `transport.rs`: the step machine, and the loop with its variables |
| `Retry.dfy` | `retry_with_budget` in `transport.rs` |
| `SwitchReport.dfy` | `switch_report.rs` |
| `Exporters.dfy`, `Text.dfy` | `exporters/mod.rs`, `exporters/text.rs` |
| `NetworkFacts.dfy`, `NetworkOrder.dfy` | `collectors/network_facts.rs` |
| `Identity.dfy` | `identity.rs` |

## Where the code falls short of a stated law

- The fold promises the same tree however an answer is split. It does not hold when a value or a
  longer path overwrites a list key on its own path: once the first part has renamed the entry, the
  next part no longer finds it and lists another (`RenamedEntry`). `WhateverTheSplit` gives the exact
  condition for answers cut up by members.
- Nor does it hold for every answer cut up by list entries. A list sent whole is appended, a list sent
  under keyed paths is merged entry by entry (`ListedAlready`). An entry made by a keyed path holds
  the keys that are not sent as strings, where the whole list may give numbers
  (`NumericKeyLeftOut`). These are the only two ways for it to fail: with the list keys on its path
  left alone, an answer cut up in any way folds like the whole exactly when no entry addressed by keys
  is listed yet and every key left to its path is a string (`HoweverItIsCut`; `ListEntryByEntry` for
  exact equality).
- The numbers of accepted deliveries can go down: the count restarts from the directory, so it
  restarts at zero once the directory was emptied (`RestartGoesBack`), and it lags behind a write
  that failed after its rename. `SlipsExactly` names the steps after which this can happen,
  `TakenInOrder` says it happens in no other run, and `OutOfStepGoesBack` that it does happen.
- An entry's name reads back exactly until its second has thirteen digits (`NameRoundTrip`).
- A network sample depends on the order of the dumps when two interfaces that look different share
  an index that has addresses, and in no other case (`OrderFree`).
- A series that vanishes from an exporter in a scrape whose batch is too large stays believed valid:
  the scraper forgets it although nobody was told (`LostSeriesIsBelieved`).
  `BelievesTheLatestScrape` says the receiver is right about every series but those.
- home.json names the home that said moved when its unlink failed, and keeps naming it until somebody
  deletes it or another home is adopted: `FailedUnlinkKeepsMovedHome` is such a run, `MoveBegins` and
  `PendingFile` give the exact condition.

## Model

| member | source | states |
|---|---|---|
| `Tree.EntrySurvives` | agent/src/gnmi/tree.rs:103-150 | A write below a list entry leaves it findable by its keys if and only if the path and the value say so, whatever the entry holds. |
| `Tree.FoldBelow` | agent/src/gnmi/tree.rs:103-142 | Any number of updates below one path element all reach the same node, provided each but the last leaves the list entry findable. |
| `Tree.FoldMember` | agent/src/gnmi/tree.rs:103-162 | A run of updates builds each member of a node from the parts that concern it, in their order, and touches no other member. |
| `Tree.SplitAtNode` | agent/src/gnmi/tree.rs:103-162 | At one node, every way of cutting a value into updates, recursively and in any order, has the effect of merging the whole value. |
| `Tree.SplitFoldsAlike` | agent/src/gnmi/tree.rs:103-162 | Below any path, every split of a value that overwrites no list key on the path folds into exactly the tree the whole value gives. |
| `Tree.WhateverTheSplit` | agent/src/gnmi/tree.rs:1-7 | For every value, cut up by its members, recursively and in any order, onto every tree: the parts fold exactly like the whole if and only if the value travels in one update anyway or leaves the keys of every list entry on its path alone. |
| `Tree.RenamedEntry` | agent/src/gnmi/tree.rs:103-162 | A concrete update that renames its list entry: cut in two it folds into a different tree than whole. |
| `Tree.PartingWritesCommute` | agent/src/gnmi/tree.rs:103-150 | Two updates that part at a node, at different names or at entries with different values of the same keys, commute there up to the order of list entries. |
| `Tree.DivergentWritesCommute` | agent/src/gnmi/tree.rs:103-150 | Two updates whose paths part anywhere below any path commute, for every starting tree: exactly when they part at different names, up to the order of list entries otherwise. |
| `Tree.FoldEntries` | agent/src/gnmi/tree.rs:118-141 | Updates for the entries of one list change nothing but that list, putting each entry where its keys first match or at the end. |
| `Tree.ListEntryByEntry` | agent/src/gnmi/tree.rs:118-162 | A list sent entry by entry folds like the list sent whole if and only if no update addresses an entry listed before it. |
| `Tree.ListedAlready` | agent/src/gnmi/tree.rs:152-162 | Two updates for one entry: one entry under keyed paths, two when sent as a list. |
| `TreeGroups.FocusFold` | agent/src/gnmi/tree.rs:103-162 | A member of a folded node is what the updates through it make of it, whatever other updates come in between. |
| `TreeGroups.FoldKeyed` | agent/src/gnmi/tree.rs:118-142 | Updates to the entries of one list, at any depth below them, change nothing but that list. |
| `TreeGroups.ListFoldBuilds` | agent/src/gnmi/tree.rs:118-150 | A list ends up as its old entries, each with the updates that found it, followed by one entry for each new value of the keys, in the order these first came. |
| `TreeOrders.AnyOrder` | agent/src/gnmi/tree.rs:103-150 | Any number of updates, of which no two different ones lead to the same place and none overwrites a list key on its way, fold into the same tree in every order, onto every tree, up to the order of list entries. |
| `TreeOrders.SameSymmetric` | agent/src/gnmi/tree.rs:103-150 | Being the same tree up to the order of list entries is symmetric. |
| `TreeOrders.SameTransitive` | agent/src/gnmi/tree.rs:103-150 | It is transitive. |
| `TreeSplits.SplitFolds` | agent/src/gnmi/tree.rs:103-162 | At one node, a value cut up by members, by list entries and by leaves, interleaved in any way and with any of the keys left to the paths, folds like the whole value up to the order of list entries if and only if no entry addressed by keys is listed yet and every key left out is a string. |
| `TreeSplits.HoweverItIsCut` | agent/src/gnmi/tree.rs:1-7 | The same if and only if below every path whose list keys the value leaves alone, for every tree. |
| `TreeSplits.AnyTwoCuts` | agent/src/gnmi/tree.rs:1-7 | Of two answers that carry the same value, each cut up in its own way, one of which folds like the whole value: they fold into the same tree up to the order of list entries if and only if the other meets that condition too. |
| `TreeSplits.PlainSplits` | agent/src/gnmi/tree.rs:1-7 | The splits by members alone are among them. |
| `TreeSplits.Interleaved` | agent/src/gnmi/tree.rs:118-142 | So are interleaved updates for the entries of a list, when those for each entry split the entry. |
| `TreeSplits.EntryByEntry` | agent/src/gnmi/tree.rs:118-142 | So is one update per entry of a list. |
| `TreeSplits.LeavesOfEntry` | agent/src/gnmi/tree.rs:132-137 | So is any cut of an entry by members without any of the keys its path names; it makes exactly that entry if and only if the keys left out are strings. |
| `TreeSplits.KeysLeftOut` | agent/src/gnmi/tree.rs:132-137 | Whatever splits an entry without some of the keys its path names splits the entry. |
| `TreeSplits.NumericKeyLeftOut` | agent/src/gnmi/tree.rs:132-137 | A list entry with a number for its key, sent as one leaf below its keyed path, folds into another tree than the list sent whole. |
| `TreeSplits.OneChanged` | agent/src/gnmi/tree.rs:118-142 | Lists that differ in one entry are the same up to order only if that entry is the same, so a difference below a list entry is never hidden by reordering. |
| `TreeSplits.NewEntryMerges` | agent/src/gnmi/tree.rs:132-162 | The entry a keyed path makes, merged with a value that carries its keys, is that value. |
| `TreeMerge.Unprefixed` | agent/src/gnmi/tree.rs:99-101 | The result is the longest tail of the name without a colon. |
| `TreeMerge.PrefixDropped` | agent/src/gnmi/tree.rs:99-101 | A module prefix put on a plain name is taken off again. |
| `TreeMerge.StripUndoesQualification` | agent/src/gnmi/tree.rs:79-97 | Stripping undoes every qualification of member names, at every depth (section 4 of RFC 7951). |
| `TreeMerge.StrippedIsPlain` | agent/src/gnmi/tree.rs:79-97 | After stripping no member name at any depth carries a prefix. |
| `TreeMerge.LastNameWins` | agent/src/gnmi/tree.rs:83-97 | Of several member names with one base, the last in name order gives the value. |
| `TreeMerge.MergeValueInPlace` | agent/src/gnmi/tree.rs:152-162 | Merging member by member, in any order of members, gives the recursive merge of the two values. |
| `TreeMerge.Position` | agent/src/gnmi/tree.rs:127-139 | The search stops at the first entry carrying all keys, or at the end of the list. |
| `TreeMerge.InsertInPlace` | agent/src/gnmi/tree.rs:103-142 | The recursive in-place insert computes the insert the laws above are about. |
| `TreeMerge.Answer.constructor` | agent/src/gnmi/tree.rs:20-22 | An answer starts from the empty tree. |
| `TreeMerge.Answer.MergeOne` | agent/src/gnmi/tree.rs:20-42 | One notification folds into the tree as its writes, which `UpdateIsWritten` tells from what it carries; an invalid value stops it there. |
| `TreeMerge.Answer.Merge` | agent/src/gnmi/tree.rs:20-42 | A whole answer folds into the tree as its writes, which `AnswerIsWritten` tells from what it carries; the first invalid value ends it and what came before stays. |
| `TreeAnswers.PathUnqualified` | agent/src/gnmi/tree.rs:44-55 | Whatever module prefixes a path carries on its names and on its keys, its elements are exactly the plain names with their plain keys, in order. |
| `TreeAnswers.SaysDecodes` | agent/src/gnmi/tree.rs:57-77 | Every typed value is decoded to what it says: text, numbers, flags, floats, lists of them, opaque bytes, and qualified JSON at every depth. |
| `TreeAnswers.InvalidExactly` | agent/src/gnmi/tree.rs:57-77 | A value is invalid if and only if it is JSON text that does not parse, or a list that holds such a value. |
| `TreeAnswers.UpdateIsWritten` | agent/src/gnmi/tree.rs:22-42 | An update is one write of what it carries at the prefix followed by its path, also when the value comes wrapped once more in the name of its container. |
| `TreeAnswers.AnswerIsWritten` | agent/src/gnmi/tree.rs:20-42 | A whole answer is the writes of what its notifications carry, each at its full path, in their order. |
| `TreeAnswers.OneUpdateAnswer` | agent/src/gnmi/tree.rs:22-39 | The same spelled out for one update: prefix p, path q and value v give the one write of v at p + q, wrapped or not. |
| `TreeAnswers.TypedLeaves` | agent/src/gnmi/tree.rs:57-77 | Each kind of typed leaf is written as it stands, and an update without a value writes nothing. |
| `TreeAnswers.StopsAtMalformed` | agent/src/gnmi/tree.rs:20-27 | An answer with a malformed value is written up to it: the notifications before, and the updates before it in its own. |
| `TreeAnswers.AnswersAgree` | agent/src/gnmi/tree.rs:1-7 | Two targets that cut the same value up in their own ways, with their own prefixes, types and wrappings, give the same tree up to the order of list entries, when each cut is one that folds like the whole. |
| `QueueHistory.ReachableGood` | agent/src/queue.rs:213-453 | Over every run, each entry that reached the directory is still queued or left once, the counters since opening say exactly what left for each reason and the range of what was dropped, the directory stays in order, and whatever is taken again stands at its head. |
| `QueueHistory.LeavesOnce` | agent/src/queue.rs:332-372 | No entry leaves twice, and what left is not queued. |
| `QueueHistory.RepeatsAreAdjacent` | agent/src/queue.rs:323-375 | Repeated deliveries of one file name are byte-identical, with nothing else taken in between. |
| `QueueHistory.OneEntryPerId` | agent/src/queue.rs:262-375 | In a directory found without two files of one id, the same holds of deliveries of one id. |
| `QueueHistory.TakenInOrder` | agent/src/queue.rs:262-375 | While the count has not slipped, the numbers of taken entries never go down, over any run. |
| `QueueHistory.SlipsExactly` | agent/src/queue.rs:213-308 | The count slips in exactly the steps that leave it below a queued or taken number. |
| `QueueHistory.OutOfStepGoesBack` | agent/src/queue.rs:262-375 | From every state with the count below such a number, some continuation delivers a lower number after a higher one. |
| `QueueHistory.RestartGoesBack` | agent/src/queue.rs:213-250 | A concrete run: a delivery, a reopening of the emptied directory, a delivery with a lower number. |
| `QueueHistory.NumbersGrow` | agent/src/queue.rs:262-308 | Between two openings an entry gets a higher number than every entry known to be written before it, whether that one is still queued or long gone. |
| `Queue.Overflow` | agent/src/queue.rs:280-299 | How many of the oldest entries go: what stays has room for the payload, and no longer suffix has. |
| `Queue.PassedOffer` | agent/src/queue.rs:345-372 | Offering the head of what a pass has left extends the pass by that one offer. |
| `Queue.PassedRemove` | agent/src/queue.rs:345-372 | Removing the head, offered or unreadable, extends the pass by that one departure. |
| `Queue.PassedCaused` | agent/src/queue.rs:333-372 | Every entry that leaves in a pass leaves as accepted, rejected or unreadable exactly when the server accepted it, rejected it, or it could not be read. |
| `Queue.HealthTold` | agent/src/queue.rs:377-385 | The published health counts the entries and their bytes, and its oldest time is that of the entry with the lowest number. |
| `EntryLists.NotTooOld` | agent/src/queue.rs:194-199 | Exactly the entries queued at most the age limit before now, in nanoseconds, or after it, are kept. |
| `Queue.NewEntryIs` | agent/src/queue.rs:276-301 | A new entry carries its id, its body and the whole second, and the lowest number that is not below the count and past every entry not too old. |
| `Queue.KeptIs` | agent/src/queue.rs:275-299 | What an enqueue keeps is not too old, and with one more of the oldest a limit would be exceeded. |
| `Queue.QueueThenExpire` | agent/src/queue.rs:194-199 | An entry queued at some moment is still there after an expiry at another if and only if its second began no more than the age limit before it, in nanoseconds; so a clock stepped back drops nothing just queued. |
| `Queue.DiskQueue.constructor` | agent/src/queue.rs:213-250 | Opening takes its count from the directory's last entry and publishes the health of what it found, whatever the names found there. |
| `Queue.DiskQueue.Reopen` | agent/src/queue.rs:213-250 | A crash loses everything but the directory. |
| `Queue.DiskQueue.Remove` | agent/src/queue.rs:500-506 | An unlink takes out one entry, counts it for its reason and republishes; a failing one changes nothing. |
| `Queue.DiskQueue.Expire` | agent/src/queue.rs:421-434 | Drops exactly the entries queued more than the limit ago, in nanoseconds, oldest first; a failing unlink leaves a prefix of that done. |
| `Queue.DiskQueue.ExpireNext` | agent/src/queue.rs:421-434 | One aged entry leaves, or stays because its unlink failed; the others are untouched. |
| `Queue.DiskQueue.Deliver` | agent/src/queue.rs:323-375 | The callback looks at a queue whose published health is that of its directory and counters, and changes nothing but what was offered and taken. |
| `Queue.DiskQueue.PassHead` | agent/src/queue.rs:345-372 | The head of the line is read, offered and removed, or stays, each for the reason its read, answer or unlink gives. |
| `Queue.DiskQueue.DrainCurrent` | agent/src/queue.rs:345-375 | A pass takes entries off the head in order and stops at the first that is blocked, leaving it and everything behind it; it counts what was delivered and rejected, and stops early only when cancelled or at its limit. |
| `Queue.DiskQueue.DrainAtMost` | agent/src/queue.rs:323-375 | Expires first, keeping exactly the entries queued no more than the limit ago; then takes entries off the head, each for its cause; health agrees at return. |
| `Queue.DiskQueue.MakeRoom` | agent/src/queue.rs:280-299 | The oldest entries go until the payload has room, and no more than that; at an unlink that fails, what is left is a longer suffix starting with the entry that failed. |
| `Queue.DiskQueue.Write` | agent/src/queue.rs:436-453 | A written entry stands last; the count advances only when the write is known to have succeeded. |
| `Queue.DiskQueue.Enqueue` | agent/src/queue.rs:262-308 | From any directory, a successful enqueue leaves exactly the longest suffix of unexpired entries with room for the new one, which sorts last, within both limits; a payload over the byte limit changes nothing. |
| `EntryNames.NameRoundTrip` | agent/src/queue.rs:479-497 | A name reads back as its number and second if and only if the second has at most twelve digits. |
| `EntryNames.NamesSortByNumber` | agent/src/queue.rs:479-485 | Names sort by number, whatever follows it. |
| `EntryNames.NameForm` | agent/src/queue.rs:479-485 | A name is twenty digits of the number, twelve of the second and the id between dashes, then `.json`. |
| `EntryNames.OnlyEntryNamesParse` | agent/src/queue.rs:487-497 | No other file is taken for an entry: what parses has that form, with an id that is one. |
| `Flush.DeliveryQueue.constructor` | agent/src/main.rs:153-186 | The two queues are tried on a directory each and share nothing; one that cannot be opened leaves its directory as found. |
| `Flush.DeliveryQueue.FlushTelemetry` | agent/src/main.rs:1108-1117 | The telemetry queue is opened if it was not, or the flush fails with it untouched; otherwise it sees one drain of at most 120 offers. |
| `Flush.DeliveryQueue.Flush` | agent/src/main.rs:1089-1118 | Telemetry is offered only with no observation left queued, at most 120 batches of it; each queue sees one drain, a blocked observation leaves telemetry untouched; a queue that is not open is tried again when its turn comes and not touched otherwise; the flush fails exactly when an entry is blocked by an answer other than a cancellation or a queue fails, and one that is not cut short has emptied the observations and the telemetry or used up its share. |
| `Home.DeploymentIdReadsBack` | agent/src/home.rs:84-102 | Every valid deployment identifier is read back from a key issued for it, whatever the secret contains. |
| `Home.Resolve` | agent/src/home.rs:106-134 | A resolved home always answers the configuration and is the one persisted; a persisted one that still answers is used without asking. |
| `Home.IdentifierExactly` | agent/src/home.rs:84-102 | A key carries an identifier if and only if it stands before a secret of the fixed length and has the allowed form. |
| `Home.AnswersItsDeployment` | agent/src/home.rs:36-41 | With a key issued for an identifier, a home answers if and only if it was resolved at the same address for the same identifier and may be sent to; what is fetched carries that identifier. |
| `Home.ResolveForAnother` | agent/src/home.rs:106-134 | With the key of another deployment, a persisted home is not used and a home of that deployment is fetched. |
| `DaemonState.StepGood` | agent/src/main.rs:444-721 | Every step of the daemon and of its workers keeps: home, client and listener current; the resolution in flight started for the current configuration; home.json honest; no heard move lost; passes of the current generation current. |
| `DaemonState.StepFollows` | agent/src/main.rs:444-507 | What a step may change: the generation with what a pass is built from, the signal with the home, and a pending move only by adopting another home. |
| `DaemonState.ReachableGood` | agent/src/main.rs:444-721 | The same over every run, with old workers answering at any time. |
| `DaemonState.PendingMoveIsForgotten` | agent/src/main.rs:1239-1252 | In every reachable state with a move pending, home.json does not name the home that said moved unless its unlink failed, and a resolution in flight was started for the configuration still current. |
| `DaemonState.OnlyAnotherHomeEndsAMove` | agent/src/main.rs:636-714 | Only adopting a different home, already persisted, ends a pending move. |
| `DaemonState.ClientIsCurrent` | agent/src/main.rs:1226-1236 | After every step the live client is the one that would be built afresh; `SendsItsConfiguration` says what that is. |
| `DaemonState.SendsItsConfiguration` | agent/src/transport.rs:206-253 | In every reachable state the client sends to the current home with the current configuration's key, installation, timeout and attempts; the notice socket is open if and only if some job is enabled, and connects with the same. |
| `DaemonState.GenerationAdvancesExactly` | agent/src/main.rs:851-888 | A step advances the generation if and only if the origin, one of those settings, the labels, the jobs or the queries changed; otherwise client and socket stay. |
| `DaemonState.ReloadExactly` | agent/src/main.rs:576-627 | What a reload does in every state, told from that state: ignored, adopted at once, or sent to the resolver. |
| `DaemonState.StartsExactlyWhenDue` | agent/src/main.rs:715-721 | A resolution for a move starts if and only if the move is due and none is in flight. |
| `DaemonState.MoveWaits` | agent/src/main.rs:72-96 | After any number of failed resolutions the next is due exactly half a minute, one, two, four, eight and then fifteen minutes after the last. |
| `DaemonState.GenerationTracksInputs` | agent/src/main.rs:851-888 | The policy generation advances exactly on the steps that change client settings, labels, job policy or osquery settings. |
| `DaemonState.CurrentPassHasCurrentInputs` | agent/src/main.rs:916-954 | A pass that holds the current generation has the inputs a new pass would get. |
| `DaemonState.MoveHeardIffPending` | agent/src/transport.rs:300-320 | A move is pending or waiting to be read if and only if the current home said so through a client sharing the current signal; no such answer is lost. |
| `DaemonState.RelocationStartsFromCurrentHome` | agent/src/main.rs:632-635 | A relocation begins only by reading a moved answer noted on the current signal. |
| `DaemonState.SignalChangesWithHome` | agent/src/transport.rs:307-313 | The signal changes exactly when the home does, and then to one no client ever had. |
| `DaemonState.StaySignalNeverReturns` | agent/src/transport.rs:307-320 | A signal that is not current never becomes current again, over any run. |
| `DaemonState.LateAnswersAreIgnored` | agent/src/transport.rs:315-320 | A late moved answer from a stay already left never starts a relocation, not even after moving back to that home. |
| `DaemonState.StopForgetsMovedHome` | agent/src/main.rs:740-755 | A moved answer heard from the current home leaves no persisted home after the stop, so the next start asks again, unless the unlink failed when the pending move began. |
| `DaemonState.StopKeepsHome` | agent/src/main.rs:740-755 | A stop changes nothing but home.json, and that only when a move heard from the current home is still to be read. |
| `DaemonState.StopLeavesHonestFile` | agent/src/main.rs:740-755 | When no unlink failed, home.json names after a stop nothing but the current home, and only if that was never heard to say moved. |
| `DaemonState.MoveBegins` | agent/src/main.rs:632-635 | A move that begins leaves home.json naming the moved home if and only if the file was there and could not be unlinked. |
| `DaemonState.PendingFile` | agent/src/main.rs:636-714 | While the move stays pending, over any run, home.json stays as the move left it until somebody deletes it. |
| `DaemonState.FailedUnlinkKeepsMovedHome` | agent/src/home.rs:138-145 | From every start there is a run in which home.json names the home that said moved. |
| `DaemonState.NoticedAll` | agent/src/main.rs:632-635 | Once noticed, every move heard from the current home is pending and none is unread. |
| `DaemonState.ReloadTakenUp` | agent/src/main.rs:644-668 | A resolved reload is adopted whole or not at all, and a usable reply is; a pending move ends only with another home, already in home.json, and otherwise leaves home.json alone. |
| `DaemonState.MoveTakenUp` | agent/src/main.rs:669-714 | A reply ends a move if and only if it names another allowed home that can be built and persisted; that home is then in use and in home.json, under a signal nobody has heard on. Any other reply leaves all but the next attempt as it was, and that comes within the shortest and the longest wait. |
| `Daemon.Process.constructor` | agent/src/main.rs:337-442 | Starts with a home that answers, persisted and in use, under a signal nobody has heard on. |
| `Daemon.Process.BuildClient` | agent/src/main.rs:1226-1236 | A client for an origin carries that origin and the configuration's key, installation, timeout and attempts; it shares the current signal exactly at the current home. |
| `Daemon.Process.ReplaceClient` | agent/src/main.rs:669-691 | Once a client is live no pass started before holds the generation, and every signal in use stays below the next to be made. |
| `Daemon.Process.AdoptReload` | agent/src/main.rs:444-507 | The live client sends like the one built for the reload; when nothing a pass sends changed, client, generation and listener are the same as before, and otherwise every earlier pass is out of date. |
| `Daemon.Process.ReloadJob` | agent/src/main.rs:576-627 | The reload job is the reload step of the machine, in every reachable state. |
| `Daemon.Process.TakeMoved` | agent/src/transport.rs:300-302 | With no move pending the signal reads true if and only if the current home was heard to say moved, through a client that sends to it; no other signal is touched. |
| `Daemon.Process.NoticeMoves` | agent/src/main.rs:632-635 | Is the notice step; afterwards every move heard from the current home is pending and none is unread. |
| `Daemon.Process.DeferRelocation` | agent/src/main.rs:72-96 | A deferred move stays pending and is asked for again within the shortest and the longest wait, and the wait after that is no shorter. |
| `Daemon.Process.TakeUpReload` | agent/src/main.rs:644-668 | Keeps every invariant; the new configuration and its home are adopted together or not at all, and a pending move ends only with another home already in home.json. |
| `Daemon.Process.TakeUpMove` | agent/src/main.rs:669-714 | Keeps every invariant; another home ends the move under a signal on which nothing was heard, and anything else changes only when to ask again, within the bounds. |
| `Daemon.Process.FinishResolution` | agent/src/main.rs:636-714 | A finished resolution is the finish step of the machine. |
| `Daemon.Process.ResolveMove` | agent/src/main.rs:715-721 | Is the start step; afterwards a move that is due has a resolution in flight. |
| `Daemon.Process.SpawnJobPass` | agent/src/main.rs:916-954 | A pass carries the current generation and what the daemon holds now. |
| `Daemon.Process.NotingMoved` | agent/src/transport.rs:315-320 | A worker that hears moved raises the signal of the client it holds, whenever that is. |
| `Daemon.Process.Happen` | agent/src/transport.rs:315-320 | Whatever workers hear and whoever deletes home.json between two parts of the loop is a run of the machine. |
| `Daemon.Process.DoJobs` | agent/src/main.rs:512-627 | The due jobs, in order and with anything happening after each, are a run of the machine. |
| `Daemon.Process.Iterate` | agent/src/main.rs:510-739 | One iteration is the run of its parts in the loop's order; at its end a move that is due has a resolution in flight, a move whose usable answer came in it has been made, and one heard by the end of its jobs is pending or made. |
| `Daemon.AnswerIsTakenUp` | agent/src/main.rs:510-739 | A usable answer for a move in flight is taken up within the iteration that finishes it, whatever jobs, moved answers and deletions fall into it. |
| `Daemon.HeardIsNoticed` | agent/src/main.rs:510-739 | A move heard from the home in use by the end of the jobs is pending, or made, at the end of the same iteration. |
| `Daemon.Process.Iterations` | agent/src/main.rs:510-739 | So does every iteration, each from where the one before ended, in a reachable state. |
| `Daemon.Process.Stop` | agent/src/main.rs:740-755 | After a stop home.json does not name a home heard to say moved, unless the unlink failed now or when the pending move began. |
| `Daemon.Process.Loop` | agent/src/main.rs:510-755 | The daemon from start to end, with workers answering at any moment: every iteration ends with due moves in flight and answered moves made, and when unlinks succeed home.json names at the end only the current home, and only if it was never heard to say moved. |
| `Retry.SleepSliced` | agent/src/transport.rs:987-995 | The slices slept sum to the wait exactly, none longer than 25 ms, and a cancellation seen ends it at once. |
| `Retry.OneRound` | agent/src/transport.rs:950-1008 | One attempt, why no other follows it, or the whole wait before the next. |
| `Retry.AnotherRound` | agent/src/transport.rs:950-1008 | An attempt started when the loop is ready keeps every pacing rule of the attempts before it. |
| `Retry.RetryWithBudget` | agent/src/transport.rs:950-1008 | For every clock with overshooting sleeps, every answer and every moment of cancellation: at most `attempts` attempts, each later one within the budget with its timeout, none after a cancellation seen, and an exact reason for every way to end. |
| `Retry.RetryAfterIsAFloor` | agent/src/transport.rs:950-1008 | No attempt starts before the Retry-After of the response before it (section 10.2.3 of RFC 9110), or before the backoff. |
| `Retry.StartsExactly` | agent/src/transport.rs:969-1003 | When no sleep overshoots, the next attempt starts exactly at the later of the end of the backoff and the moment the server asked for. |
| `Retry.BackoffDoubles` | agent/src/transport.rs:950-1008 | The backoff doubles from 250 ms and stays at eight seconds from the sixth wait on. |
| `SwitchReport.Encode` | agent/src/switch_report.rs:181-226 | The loop builds the report of `ReportTells`, and none of no outcomes or beyond the limit. |
| `SwitchReport.ReportTells` | agent/src/switch_report.rs:181-226 | A report says of its outcomes the status of each at its place, the switches read in their order, and VLANs or neighbors complete if and only if some switch was read and every one read answered that section. |
| `SwitchReport.Pack` | agent/src/switch_report.rs:126-141 | Packing keeps every outcome in order, keeps batches of several within the budget, and ends a batch only where the next outcome would not fit. |
| `SwitchReport.TakeBatch` | agent/src/switch_report.rs:142-156 | Reporting, halving or dropping the next batch loses no outcome and shrinks the work left. |
| `SwitchReport.Halve` | agent/src/switch_report.rs:142-156 | The worklist ends, and every outcome is in one report within the limit unless it does not fit alone. |
| `SwitchReport.Reverse` | agent/src/switch_report.rs:126-156 | Reversing the reports keeps each of them. |
| `SwitchReport.Reports` | agent/src/switch_report.rs:123-156 | Every report tells of its group what `ReportTells` says, its sections included, and stays within 256000 bytes; every target but a dropped one is in exactly one report, every switch that fits alone is sent, each unreachable target has its reason, and with configured lengths nothing is dropped. |
| `SwitchReport.SentOnce` | agent/src/switch_report.rs:181-226 | Reports of a partition of the outcomes list every status once, but for those dropped, and carry every reached switch once. |
| `SwitchReport.UnreadOnlyWithReason` | agent/src/switch_report.rs:159-169 | Every status in a report is that of a polled target, unreachable if and only if its poll failed or its switch alone does not fit a report. |
| `SwitchReport.TooLargeIsSaid` | agent/src/switch_report.rs:159-169 | A switch too large for a report of its own is reported unreachable with that as its error. |
| `SwitchReport.NothingToHalve` | agent/src/switch_report.rs:126-156 | Where a target adds no more to a report than the packing counts for it, no packed batch of several targets is too large. |
| `SwitchReport.ExactlyOneReport` | agent/src/switch_report.rs:123-156 | When every status is sent, a target whose address no other has stands in exactly one report, at exactly one place. |
| `SwitchReport.UnreadFits` | agent/src/switch_report.rs:200-226 | An unread target of a configured collector and address always fits a report alone, however long its error was. |
| `SwitchReport.KeptFits` | agent/src/switch_report.rs:142-156 | When nothing is dropped, every unread outcome fits alone, for an encoding that is never shorter than one of its unread targets. |
| `Exporters.Scraper.constructor` | agent/src/exporters/mod.rs:236-289 | A scraper starts knowing nothing. |
| `Exporters.CollectGone` | agent/src/exporters/mod.rs:252-259 | The loop over what was known gives, value taken out, exactly what is no longer served. |
| `Exporters.Scraper.TakeUp` | agent/src/exporters/mod.rs:236-272 | A scrape makes a batch of its readings and what is gone, or of what is known as failed, and keeps the latest readings served. |
| `Exporters.Scraper.Scrape` | agent/src/exporters/mod.rs:236-289 | A scrape passes on its readings, and a failed sample for every series known before that it does not serve; a batch over 512000 bytes is dropped, but what is known is replaced all the same. |
| `Exporters.OneScrape` | agent/src/exporters/mod.rs:236-357 | After a batch that arrives, a receiver believes a series valid exactly when the scrape worked and served it readable, or when it believed it before and neither the scraper knew of it nor the scrape serves it. |
| `Exporters.TheViewTold` | agent/src/exporters/mod.rs:236-357 | Over every history, what the receiver believes and whether the scraper still knows of it follow from the results and the dropped batches alone. |
| `Exporters.OrphanedByADrop` | agent/src/exporters/mod.rs:260-286 | A series is believed though the scraper forgot it if and only if some scrape no longer served it while it was believed, had its batch dropped, and none has served it since. |
| `Exporters.BelievesTheLatestScrape` | agent/src/exporters/mod.rs:236-357 | After any history of successful, failed and partial scrapes with any batches dropped but the last, the receiver's view of a series is exactly that of the latest scrape if and only if no dropped batch lost the series with none serving it since. |
| `Exporters.UnservedFails` | agent/src/exporters/mod.rs:252-259 | A series that the latest scrape does not serve is not believed once its batch arrives, if and only if no dropped batch lost it. |
| `Exporters.SameSeries` | agent/src/exporters/mod.rs:293-305 | Readings are of one series if and only if sensor, boundary, kind of measurement and the whole milliseconds of their windows agree. |
| `Exporters.WindowChanges` | agent/src/exporters/mod.rs:252-346 | After any history, a sensor served over one window and then over another leaves a failed sample without a value for the old window's series, and for the new one its own measurement at the scrape's time. |
| `Exporters.GoneHolds` | agent/src/exporters/mod.rs:252-259 | A series no longer served is sent as the reading last known of it, without its value. |
| `Exporters.ValidExactlyWithValue` | agent/src/exporters/mod.rs:318-357 | Over every history a receiver holds of each series a sample of that series, valid if and only if it carries a value. |
| `Exporters.NothingDropped` | agent/src/exporters/mod.rs:236-357 | With no batch dropped, the receiver believes exactly what the latest scrape served readable. |
| `Exporters.LostSeriesIsBelieved` | agent/src/exporters/mod.rs:260-286 | A readable series that vanishes in a scrape whose batch is dropped stays believed valid through any later scrapes that do not serve it. |
| `Text.ReadQuoted` | agent/src/exporters/text.rs:112-126 | The loop over a quoted value computes the recursive reading with its escapes. |
| `Text.ReadLabels` | agent/src/exporters/text.rs:96-134 | The label loop computes the recursive reading up to the closing brace, within the label limit. |
| `Text.ReadBody` | agent/src/exporters/text.rs:64-75 | Labels, then the first word as the value; anything else fails the scrape. |
| `Text.ReadLine` | agent/src/exporters/text.rs:44-83 | One line counts against the series limit whether kept or not, and adds a sample only for a wanted name. |
| `Text.Parse` | agent/src/exporters/text.rs:37-85 | The line loop computes the reading of the text. |
| `Text.FilterCommutes` | agent/src/exporters/text.rs:36-85 | Whenever every series parses, parsing with a choice of names gives exactly the chosen samples. |
| `Text.FailsExactly` | agent/src/exporters/text.rs:37-85 | A text fails if and only if one of its lines is broken, or there are more series, or more chosen ones, than the limits allow. |
| `Text.BadLineFails` | agent/src/exporters/text.rs:53-59 | Under any limits and choice, a line without anything after its name, or whose name starts with a digit or holds another character than letters, digits, `_` and `:`, fails the text. |
| `Text.NoValueFails` | agent/src/exporters/text.rs:70-73 | A sample with no word after its labels fails, whatever reads as a number. |
| `Text.QuotedFails` | agent/src/exporters/text.rs:112-126 | A value that is not closed, or with a backslash before anything but `n`, a backslash and a quote, fails. |
| `Text.LabelFails` | agent/src/exporters/text.rs:102-110 | A label whose name is no label name, or whose value is not quoted, fails. |
| `Text.LabelLimit` | agent/src/exporters/text.rs:127-130 | Labels of different names fail if and only if they are more than the limit. |
| `Text.SpacedLabel` | agent/src/exporters/text.rs:96-134 | White space may stand before and after a name, before a value and after it. |
| `Text.LastLabelWins` | agent/src/exporters/text.rs:128-130 | Of several labels with one name the last gives the value. |
| `Text.QuotedEscape` | agent/src/exporters/text.rs:112-126 | Any value, with quotes, backslashes, newlines, commas or braces, reads back from its escaped form. |
| `Text.LabelsReadBack` | agent/src/exporters/text.rs:96-134 | Any printed labels within the limit read back, followed by any text. |
| `Text.PrintedReadsBack` | agent/src/exporters/text.rs:37-134 | The standard printing of any samples within the limits, with any comments, empty lines and timestamps among them, parses back to exactly those samples whose names are chosen. |
| `NetworkFacts.Group` | agent/src/collectors/network_facts.rs:173-179 | The addresses are grouped by index, each group in dump order. |
| `NetworkFacts.Join` | agent/src/collectors/network_facts.rs:180-202 | The first interface of an index takes its sorted addresses; addresses are left over exactly when some index has no interface. |
| `NetworkFacts.Snapshot` | agent/src/collectors/network_facts.rs:158-205 | One sample, with every failure: a failed or oversized dump, a race the kernel reported, an address without an interface. |
| `NetworkFacts.EveryAddressKept` | agent/src/collectors/network_facts.rs:173-205 | A sample keeps every dumped address exactly once, on an interface of its index. |
| `NetworkFacts.SampledExactly` | agent/src/collectors/network_facts.rs:158-203 | Two dumps fail if and only if one exceeds its limit, and are worth another attempt if and only if an address has no interface. |
| `NetworkFacts.SampleDescribes` | agent/src/collectors/network_facts.rs:182-204 | A sample has an interface for each record and no other, by name and index, and each says what its record says, a zero hardware address or mtu counting as missing. |
| `NetworkFacts.FirstTakesAddresses` | agent/src/collectors/network_facts.rs:180-183 | The first interface of an index has all its addresses, any other with that index none. |
| `NetworkFacts.AddressOrderIs` | agent/src/collectors/network_facts.rs:17-22 | Addresses sort by version, bits, prefix and family. |
| `NetworkFacts.StableSnapshot` | agent/src/collectors/network_facts.rs:133-156 | What is published equals two samples in a row with nothing between them, the first such pair within five attempts; a failure ends it and a race starts over. |
| `NetworkOrder.SampleForgetsOrder` | agent/src/collectors/network_facts.rs:158-205 | Reordering both dumps changes nothing when interfaces sharing an index with addresses look alike. |
| `NetworkOrder.OrderMatters` | agent/src/collectors/network_facts.rs:180-194 | When two that look different share one, some order of the interfaces gives another sample. |
| `NetworkOrder.OrderFree` | agent/src/collectors/network_facts.rs:133-205 | A sample is the same for every order of both dumps if and only if it fails anyway or no two such interfaces exist. |
| `NetworkOrder.DistinctIndicesAlike` | agent/src/collectors/network_facts.rs:180-194 | Interfaces of distinct indices, as the kernel numbers them, meet that condition. |
| `Identity.StepGood` | agent/src/identity.rs:27-141 | Every step of every process keeps: only whole identities are linked, a linked file never changes, and what a process returned is in the file and matches what it was told. |
| `Identity.RunGood` | agent/src/identity.rs:27-141 | The same over every schedule of racing processes with crashes at any step. |
| `Identity.Agreement` | agent/src/identity.rs:27-46 | All processes that succeed return the same identity, the one in the file. |
| `Identity.DifferentOverridesNeverBothSucceed` | agent/src/identity.rs:52-63 | Two different explicit identities never both succeed. |
| `Identity.IdentityNeverChanges` | agent/src/identity.rs:115-141 | Once linked the identity never changes, whatever runs, fails or crashes after. |
| `Identity.LinkLeavesFile` | agent/src/identity.rs:115-141 | A link onto a free name leaves the candidate there, whole, even when its directory could not be synced; a taken name stays as it is, and only a synced link lets the process read on. |
| `Identity.StateDirectory.constructor` | agent/src/identity.rs:27-46 | A start finds whatever the directory holds. |
| `Identity.StateDirectory.Let` | agent/src/identity.rs:27-46 | Other processes take steps of the machine, leave this one where it is and never change a file that exists. |
| `Identity.StateDirectory.PersistNew` | agent/src/identity.rs:115-141 | Creating, writing and linking succeeds exactly when each part does, whoever links first; alone it links its own candidate. |
| `Identity.StateDirectory.ReadBack` | agent/src/identity.rs:36-63 | The identity returned is the file's, unless the process was told another. |
| `Identity.StateDirectory.LoadOrCreate` | agent/src/identity.rs:27-46 | One start, with other processes acting between all of its steps, is part of a run of them all; it never replaces an existing file, returns the file's identity and only the one it was told to have, and without a failure of its own returns exactly what the file then warrants. |

## Left out

- HTTP, TLS, WebSocket, gRPC and DNS: their answers are parameters.
- How a failed response is classified (`failure_kind`, `moved`): the retry loop and the clients take the class as given.
- The deadline that clients share between requests after a Retry-After: only the one inside a retry loop is modelled.
- Installation keys and signatures; their create-once protocol is that of the identity file.
- TOML and JSON text, the payload structs, the scheduler and configuration checks, the host collectors and the browser code.
- Permissions, temporary names and what an operating-system crash does to unsynced links and renames: steps are atomic and may fail, and a crash falls between them.
- A second process on one queue directory, and an open directory that cannot be listed.
- Threads and the wait for the queue's lock (`lock_until_cancelled`): one flush or enqueue at a time holds it.
- Queue numbers past the 64-bit range.
- Status files, logs and error messages; `Text` and `TreeMerge` say that a reading fails, not with which message.
- The order of list entries in a tree, and of reports after a batch was halved: neither is promised.
- The ambiguity of an answer that really repeats its container's name inside: `Answer.Merge` unwraps it as the code does, and the laws are stated on inserts.
- Queue.DiskQueue.Enqueue: takes entries as values and not as file names, so it says nothing of an entry queued in a second of thirteen digits, which `EntryNames.NameRoundTrip` shows to be invisible to the next listing.
- SwitchReport.Reports: takes the encoded length as a fixed function of the report, while the real timestamp's width varies; that six bytes per character and the two allowances of the code bound the report of one unread target is a hypothesis (`Plausible`).
- Writing home.json is all or nothing: a rename whose directory sync fails counts as not written.
- What becomes of an exporter's batch once it is queued: it arrives, in order.
