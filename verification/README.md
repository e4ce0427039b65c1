# Models of a Paradigm node, with proofs

Paradigm is a ledger node written in Go. This Dafny 4.11 project models the parts of it that are hard to get
right and proves what they are for. `dafny verify dfyconfig.toml` checks everything.

**Consensus** (`Dag`, `Voting`, `Coordinates`, `RoundInfo`, `Rounds`, `Chronicle`, `Sorting`, `Order`, `Sorter`,
`NodeState`, `Reception`, `Sighting`, `Succession`, `CometGraph`). Comets form one global graph in which no creator forks; a node
holds an ancestor-closed part of it, inserted in an order of its own. A comet is named by its position in the graph,
which stands for its hash. `Voting` defines rounds, witnesses and fame on the graph alone and proves that fame
decisions agree, and that a witness which the next round sees becomes famous; the class `CometGraph` follows the code,
with its coordinates, memo caches, round table, queue of undecided rounds and blocks, and is proved to compute what
`Voting` defines, so that nodes agree (`NodesAgree`). Over a whole run no round is ever cut into two blocks
(`OneBlockPerRound`). A signature is a flag that only comets of the graph carry. Caches may evict at any time.

**Gossip** (`RollingIndex`, `Gossip`, `Turn`). A node sends another the comets it lacks; they are rebuilt from creators
and indices, which are looked up in rolling windows, inserted, and wait for consensus, which runs over them in the same
turn. Hashing and signature checks are parameters (`Crypto`).

**Trie** (`Tree`, `KeyEncoding`, `TrieNode`, `YellowPaper`, `TrieView`, `Trie`). `Tree` is the Merkle Patricia trie as
a fully loaded value; `Trie` is the class that loads nodes by hash, marks them dirty, collapses and commits them, and
is proved to stand for such a value at all times. `YellowPaper` is Appendix D of the Ethereum Yellow Paper, a function
of keys and values that knows no tree; the root hash after any updates and commits is this function of the map they
leave. The hash is a parameter; on the encodings that occur it is assumed to have 32 bytes, no collisions, and never
to be zero.

**RLP** (`Rlp`, `EncodeBuffer`, `DecodeStream`, `DecodeFault`). The encoding of Appendix B of the Yellow Paper, the
two-pass encoder with deferred list headers, and the stream decoder with its stack of open lists and its errors.

**Mailbox and queues** (`Mpsc`, `Ring`, `Mailbox`, `MailboxDelivery`, `MailboxRest`, `MailboxStall`). The lock-free
queue at the level of its pointers, the ring that doubles, and the scheduling protocol as a machine whose steps are the
atomic operations of any number of goroutines: every message is handled once and in order, system messages first, no
user message while the mailbox is suspended, and it is said exactly from which moments on every run ends.

**State and gas** (`Journal`, `Filing`, `StateDB`, `Gas`, `Block`). Accounts with their journal and snapshots, the
writing of changed accounts to the trie, the buying, using and refunding of gas, and blocks of transactions: what every
address holds after them, and after they were committed.

What the code does differently from what it says or promises:

- A question about ancestors that is asked before both comets are inserted is answered "no", and the answer is cached.
  `CachedAncestorStale`, `CachedOldestStale` and `CachedStrongStale` say exactly when such an answer is wrong later, and
  `StaleAnswer` is a run in which it is. `InsertComet` and `DivideRounds` never ask too early.
- The queue of undecided rounds starts with round 0, and round 0 enters it once more with its first comet
  (`DivideRound`).
- Signatures are meant to be whitened when comets are sorted, but the table that the number is made from is never
  filled, and the number is zero (`CompareReceived`). A filled table would make the sort fail: the names of comets begin
  with 0x and are read as plain base-16 digits (`NamesAreNoNumbers`). `ConsensusSorter.Less` says exactly when it fails.
- Block signatures lose their validator on the wire and get the comet's creator instead (`SignaturesSurvive`), so that
  an exchange breaks off at a comet with a signature by someone else (`Exchange`).
- The RLP header reader looks at the second byte of the input 0x81 without checking that there is one.
  `ReadKindOverreads`, `SplitOverreads` and `ValuesOverread` say exactly which inputs make the reader, the splitters and
  the counter do so. `ParseNode` does the same for trie nodes, where an empty compact key is another such input.
- A nil message is taken for an empty queue and stays counted, so that the processor of the mailbox goes round for ever.
  It also goes round while a message is counted behind one whose push is not finished (`SpinsWhileStalled`).
  `EveryRunEnds` says exactly from which moments on neither can happen, and `ComesToRest` when the mailbox can still
  come to rest.
- Reverting the touch of an account that was clean takes it out of the set of dirty objects, but the object does not ask
  to be put back when it changes again (`TouchAndRevert`). `RevertToSnapshot` says exactly when this happens, `Commit`
  exactly when a state opened on what it has written shows the same, and `LostBalance` is a run in which a balance is
  lost.
- A commit empties the set of dirty objects, but the objects stay live and do not ask to be put back. A change after it
  is lost in the next commit on the same state (`LostAfterCommit`); `ChangeAfterCommit` says exactly when. The node goes
  on with a copy, which has no objects then, and is not affected.
- Finalising the state after a transaction deletes suicided accounts with what they hold. `BurnedIs` says exactly when
  nothing is burned.
- The refund multiplies the state's own refund counter by the gas price where the counter is less than half of the gas
  used (`RefundGas`). `CounterKept` says exactly when the counter keeps its value, and `MultipliedCounter` is a run in
  which it does not. The journal does not see this: `OverwriteRefund` says exactly which snapshots still bring the old
  value back, and `OverwrittenForGood` is a run in which one does not.
- A transaction that fails after it bought gas has paid for the gas (`TransitionOnNative`).

## Model

| member | source | states |
|---|---|---|
| `Voting.StronglySeesMonotone` | core/sequentia/sequentia.go:194-213 | Whatever an ancestor of a comet strongly sees, the comet strongly sees. |
| `Voting.QuorumStep` | core/sequentia/sequentia.go:300-354 | Every comet of a round above 0, whether it got there by its own count or through its other-parent alone, strongly sees a strong majority of the witnesses of the round below. |
| `Voting.OneWitnessPerRound` | core/sequentia/sequentia.go:280-297 | No creator has two witnesses in one round. |
| `Voting.RoundMonotone` | core/sequentia/sequentia.go:344-354 | A comet is never in a lower round than a comet it descends from. |
| `Voting.QuorumsOverlap` | core/sequentia/sequentia.go:72 | A strong majority of votes for one side, collected by one witness, makes that side the strict majority for every comet of the round that strongly sees a quorum. |
| `Voting.DecisionSettles` | core/sequentia/sequentia.go:784-792 | Once a witness decides a fame in a normal round, every witness of that round, held by anyone, votes that way. |
| `Voting.UnanimousAbove` | core/sequentia/sequentia.go:784-799 | Above a round in which all witnesses vote alike every tally is unanimous and a strong majority, so normal and coin rounds both keep the vote. |
| `Voting.FameAgreement` | core/sequentia/sequentia.go:739-820 | Fame agreement: any two witnesses of any rounds, normal or coin in between, that decide the fame of one witness decide it alike. |
| `Voting.MoreThanTwoThirds` | core/sequentia/sequentia.go:194-213 | Strongly seeing is having comets of more than two thirds of the participants on paths in between. |
| `Voting.RoundRises` | core/sequentia/sequentia.go:300-354 | A comet is one round above the greatest round of a parent if and only if it strongly sees more witnesses of that round than two thirds of the participants; otherwise it is in that round. |
| `Voting.FirstRound` | core/sequentia/sequentia.go:300-354 | A comet without parents is in round 0. |
| `Voting.BeginsWithWitness` | core/sequentia/sequentia.go:280-297 | The comets of a creator in a round begin with a witness of that round. |
| `Voting.FirstVote` | core/sequentia/sequentia.go:757-760 | One round above a witness the vote is whether it is seen. |
| `Voting.LaterVote` | core/sequentia/sequentia.go:762-800 | Later votes follow at least half of the votes strongly seen; in every n-th round more than two thirds of the participants must agree, and otherwise the middle byte of the hash decides. |
| `Voting.DecidesByTwoThirds` | core/sequentia/sequentia.go:784-792 | A vote decides if and only if it is at least two rounds above, in no coin round, and carried by more than two thirds of the participants. |
| `Voting.SeenIsFamous` | core/sequentia/sequentia.go:739-820 | With more than two participants, a witness that all the witnesses of the next round see, of those that a witness two rounds above strongly sees, is decided famous by that witness, and one that none of them sees is decided not famous. |
| `Voting.SeenByAllIsFamous` | core/sequentia/sequentia.go:739-820 | The same if all witnesses of the next round see it, or none does. |
| `Rounds.SightIsRecorded` | core/sequentia/sequentia.go:739-820 | Judging a round records each of its witnesses as famous if all recorded witnesses of the next round see it, and as not famous if none does, once there is a witness two rounds above. |
| `Coordinates.AncestorByIndex` | core/sequentia/sequentia.go:96-115 | Comparing an index with a last ancestor is reachability in the graph. |
| `Coordinates.ThroughByIndex` | core/sequentia/sequentia.go:194-213 | A last ancestor is at or above a first descendant exactly if the participant has a comet on a path between the two comets. |
| `Coordinates.OldestByIndex` | core/sequentia/sequentia.go:165-182 | The first descendant by a comet's own creator is the oldest self-ancestor that sees the other comet, when it sees it at all. |
| `Coordinates.WalkedIsExact` | core/sequentia/sequentia.go:586-614 | After the walk down the self-parents all coordinates of all comets are exact for the store with the new comet. |
| `NodeState.AncestorIsReachability` | core/sequentia/sequentia.go:96-115 | The comparison over the store is reachability, and false when a comet is missing. |
| `NodeState.OldestIsOldest` | core/sequentia/sequentia.go:165-182 | The oldest self-ancestor to see a comet is the one with the least index, or none. |
| `NodeState.CachedAncestorStale` | core/sequentia/sequentia.go:86-93 | A cached ancestor answer differs from a fresh one if and only if it was asked while a comet was missing and has become true since; it is never wrongly true. |
| `NodeState.CachedOldestStale` | core/sequentia/sequentia.go:156-182 | A cached oldest self-ancestor differs from a fresh one if and only if it was asked while a comet was missing that is seen now, although first descendants keep changing. |
| `NodeState.CachedStrongStale` | core/sequentia/sequentia.go:185-213 | A cached strongly-sees answer differs from a fresh one if and only if it was asked while a comet was missing and holds now; it is never wrongly true. |
| `NodeState.StronglyIsStrongly` | core/sequentia/sequentia.go:194-213 | Comparing last ancestors with first descendants counts the participants between two comets in the graph. |
| `CometGraphs.StaleAnswer` | core/sequentia/sequentia.go:86-93 | A concrete run: a question about ancestors is asked too early, both comets are inserted, and the cached answer is wrong. |
| `NodeState.CachesGrow` | core/sequentia/sequentia.go:86-93 | No insertion makes the answer about two inserted comets stale, in any of the three caches. |
| `CometGraphs.CometGraph.AncestorOf` | core/sequentia/sequentia.go:86-93 | Cached or not, the answer is reachability unless it was asked too early, and true only if reachability holds. |
| `CometGraphs.CometGraph.LookUpAncestor` | core/sequentia/sequentia.go:86-93 | The cached answer if there is one, wrong or not; otherwise reachability, which is then cached. |
| `CometGraphs.CometGraph.OldestSelfAncestorToSee` | core/sequentia/sequentia.go:156-182 | Cached or not, the answer is the oldest self-ancestor to see the comet unless it was asked too early. |
| `CometGraphs.CometGraph.FreshStronglySee` | core/sequentia/sequentia.go:194-213 | The count over coordinates is at least 2n/3+1 exactly if that many participants have a comet on a path from x to y. |
| `CometGraphs.CometGraph.StronglySee` | core/sequentia/sequentia.go:185-192 | Cached or not, the answer is the strongly-sees relation of the graph unless it was asked too early. |
| `CometGraphs.CometGraph.InitEventCoordinates` | core/sequentia/sequentia.go:532-583 | The last ancestors merged from the parents are the last ancestors of the new comet in the graph. |
| `CometGraphs.CometGraph.MergeLastAncestors` | core/sequentia/sequentia.go:557-568 | Merging the parents' last ancestors gives the new comet's, for every participant but its creator. |
| `CometGraphs.CometGraph.UpdateAncestorFirstDescendant` | core/sequentia/sequentia.go:586-614 | The first descendants of exactly the ancestors that the creator had not reached before name the new comet. |
| `CometGraphs.CometGraph.SetWireInfo` | core/sequentia/sequentia.go:616-651 | The wire integers are the indices and creators of the parents in the graph. |
| `CometGraphs.CometGraph.CheckComet` | core/sequentia/sequentia.go:380-394 | A comet passes exactly if it is signed, new, and its parents are known, and says which of these fails otherwise; then its self-parent is the creator's last known comet. |
| `CometGraphs.CometGraph.InsertComet` | core/sequentia/sequentia.go:372-434 | Accepts exactly the signed new comets whose parents are known, names and changes nothing on an error, keeps all coordinates exact, and keeps every invariant of the node. |
| `CometGraphs.CometGraph.ParentRound` | core/sequentia/sequentia.go:217-277 | The parent round is the one the graph defines, whatever else the node holds. |
| `CometGraphs.CometGraph.RoundInc` | core/sequentia/sequentia.go:300-320 | Counting over recorded witnesses counts all witnesses there are. |
| `CometGraphs.CometGraph.Round` | core/sequentia/sequentia.go:335-354 | The round is the one the graph defines, through both caches. |
| `CometGraphs.CometGraph.Witness` | core/sequentia/sequentia.go:280-297 | The witness flag is the one the graph defines. |
| `Rounds.RecordedSeen` | core/sequentia/sequentia.go:300-320 | The recorded witnesses that a comet strongly sees are all the witnesses it strongly sees. |
| `Rounds.FirstOfRound` | core/sequentia/sequentia.go:706-736 | The first comet recorded in a round is a witness and its round is the next one. |
| `Rounds.QueueRecord` | core/sequentia/sequentia.go:719-727 | A round enters the queue of undecided rounds behind all earlier ones, so the queue stays in order. |
| `CometGraphs.HeadBeyond` | core/sequentia/sequentia.go:852-855 | In every run of a node, whenever the head of the queue is beyond round i, every recorded round up to i left the queue at some moment, for good, with every witness it had then decided; these still are, with the same fame, and a witness that is undecided now was recorded only after that moment. |
| `Chronicles.LeftAt` | core/sequentia/sequentia.go:806-831 | Every round that is no longer in the queue left it at a moment of the run when all its witnesses were decided, and never comes back. |
| `Chronicles.LeftIsSettled` | core/sequentia/sequentia.go:806-831 | A round that left the queue at any moment of a run is among those that have settled. |
| `Chronicles.LeftDecided` | core/sequentia/sequentia.go:806-831 | From that moment on its witnesses of then keep their fame, and any undecided witness is a later one. |
| `Chronicles.KeptSince` | types/round_info.go:39-63 | What is recorded or decided at one moment of a run is recorded and decided alike at every later one. |
| `Rounds.TablesAgree` | core/sequentia/sequentia.go:706-820 | Two tables of one graph agree on the round, the witness flag and the decided fame of every comet both record. |
| `CometGraphs.CometGraph.DivideRound` | core/sequentia/sequentia.go:706-736 | A comet is recorded in its true round, and a round enters the queue exactly with its first comet; so round 0, with which the queue starts, enters it a second time. |
| `CometGraphs.CometGraph.DivideRounds` | core/sequentia/sequentia.go:706-736 | Every waiting comet is put into its round; earlier entries are kept and new ones are undecided; the queue only grows at its end. |
| `CometGraphs.CometGraph.CountVotes` | core/sequentia/sequentia.go:768-776 | The tally of the votes cast by the given witnesses. |
| `CometGraphs.CometGraph.CastVote` | core/sequentia/sequentia.go:757-799 | The vote is the vote the graph defines, and it decides exactly if the graph's definition says so. |
| `CometGraphs.CometGraph.DecideWitness` | core/sequentia/sequentia.go:754-802 | Whatever the order of the witnesses within a round, the verdict is the one that any deciding witness known to the node gives. |
| `CometGraphs.CometGraph.DecideFame` | core/sequentia/sequentia.go:739-820 | Exactly the undecided witnesses of the queued rounds get their verdicts, exactly the fully decided rounds leave the queue, a witness that the next round sees with one voice is recorded as famous and one that it does not see as not, and the record of the witnesses they had then grows by exactly those. |
| `CometGraphs.CometGraph.JudgeQueue` | core/sequentia/sequentia.go:745-818 | The voting loops over the queue give exactly the verdicts of the graph, and name exactly the rounds with no witness left to decide. |
| `CometGraphs.CometGraph.UpdateUndecidedRounds` | core/sequentia/sequentia.go:823-831 | The queue without the decided rounds, in order. |
| `CometGraphs.CometGraph.MedianTimestamp` | core/sequentia/sequentia.go:970-978 | The upper median of the timestamps. |
| `Sorting.MedianIsMiddle` | core/sequentia/sequentia.go:970-978 | The median is one of the elements; at most half of them are less, and fewer than half greater. |
| `CometGraphs.CometGraph.ReceivedInRound` | core/sequentia/sequentia.go:852-877 | A round receives a comet exactly if it is decided, before the head of the queue, and more than half of its famous witnesses see the comet; at most half of the creators of those that do first saw it before its time, and fewer than half after it. |
| `NodeState.MajorityReceives` | core/sequentia/sequentia.go:852-866 | A round receives a comet if and only if all its witnesses are decided, no round up to it is in the queue, and more than half of its famous witnesses see the comet. |
| `NodeState.SeenIsReceived` | core/sequentia/sequentia.go:852-866 | A decided round before the queue receives every comet that all its famous witnesses see. |
| `NodeState.SeenTogether` | core/sequentia/sequentia.go:859-866 | Any two comets received in one round are both seen by one famous witness of it. |
| `NodeState.ReceivedFirst` | core/sequentia/sequentia.go:843-852 | A comet is received in a round above its own, the first that receives it. |
| `NodeState.TimeOfSight` | core/sequentia/sequentia.go:872-877 | The consensus time is the time at which the creator of one of the famous witnesses first saw the comet. |
| `CometGraphs.CometGraph.DecideRoundReceived` | core/sequentia/sequentia.go:843-889 | Every waiting comet gets the first round above its own that receives it, and a time in the middle of those at which the creators of the witnesses that see it first saw it; nothing else changes. |
| `Sightings.TimeIsMiddle` | core/sequentia/sequentia.go:970-978 | The consensus time of a comet is in the middle of the times at which the creators of these witnesses first saw it: at most half saw it strictly before, fewer than half strictly after. |
| `Sightings.ReceivedInTheMiddle` | core/sequentia/sequentia.go:852-877 | Where a comet is received, more than half of the famous witnesses see it, and its time is in the middle of theirs. |
| `CometGraphs.TimesAreInTheMiddle` | core/sequentia/sequentia.go:843-889 | At every moment of a run, a comet that was ever received was seen then by more than half of the famous witnesses of its round; at most half of their creators first saw it before its consensus time, and fewer than half after it. |
| `CometGraphs.LastConsensusIs` | core/sequentia/sequentia.go:806-813 | At every moment of a run the last consensus round is the greatest that has ever left the queue, and there is none exactly while none has. |
| `Order.SortedIsByRound` | core/sequentia/sorter.go:25-47 | Comets sorted by the comparison are in order of their rounds received. |
| `Order.EarlierComesFirst` | core/sequentia/sorter.go:25-47 | In the consensus order the comet of the earlier round received comes first, in one round the one of the earlier consensus time, and at one time the one of the smaller signature. |
| `Sorters.ConsensusSorter.Less` | core/sequentia/sorter.go:25-47 | With any table of rounds: fails if and only if two comets tie in round received and time and they have not been received or the round has a famous witness in the table; otherwise the answer is the order by round, time and unwhitened signature. |
| `Sorters.CompareReceived` | core/sequentia/sorter.go:15-57 | With the sorter that the consensus makes, comparing received comets never fails and whitens nothing. |
| `Sorters.ConsensusSorter.GetPseudoRandomNumber` | core/sequentia/sorter.go:48-57 | Zero, computed or cached, where the round has no famous witness in the table, a failure where it has one. |
| `Sorters.PseudoRandomNumber` | types/round_info.go:100-109 | Zero without famous witnesses; with one, its name is not a number and the mixing fails. |
| `Sorters.NamesAreNoNumbers` | types/comet.go:227-233 | The name of a comet, 0x and the digits of its hash, is never a number in base 16. |
| `Sorters.CaseDoesNotMatter` | types/round_info.go:104 | Digits in upper and in lower case write the same number. |
| `Sorters.ValueOfDigits` | types/round_info.go:104 | Without the 0x the digits would read back as the hash. |
| `Sorters.XorTwice` | core/sequentia/sorter.go:43-45 | Whitening a number twice gives it back. |
| `Order.BlocksAreWellCut` | core/sequentia/sequentia.go:922-968 | The blocks cut from sorted comets are numbered consecutively, are received in increasing rounds, and carry all their transactions in order, each those of its round; no round with transactions is without a block. |
| `Order.WellCutJoin` | core/sequentia/sequentia.go:922-968 | Blocks cut from later comets continue those of earlier ones as if all had been cut at once, if no round is shared. |
| `Order.OrderDecidesBlocks` | core/sequentia/sequentia.go:922-968 | The same comets in the same order, received in the same rounds, have the same blocks. |
| `Order.BlockOfComet` | core/sequentia/sequentia.go:922-968 | The transactions of a comet stand together, in their order, in the one block of the round that received it. |
| `CometGraphs.CometGraph.HandleNewConsensusEvents` | core/sequentia/sequentia.go:922-959 | The comets join the order, their transactions and payloads are counted, and the blocks cut are well cut. |
| `Successions.PastOn` | core/sequentia/sequentia.go:851-863 | A round below the head of the queue never receives a comet that it has passed by: a witness that comes late stays undecided and closes it, and its famous witnesses do not change. |
| `Successions.PastInsert` | core/sequentia/sequentia.go:395-425 | Nor does it receive a comet that is inserted later, which none of its famous witnesses sees. |
| `Successions.PastReceive` | core/sequentia/sequentia.go:843-887 | What is received at once is received in rounds from the last head of the queue up to the present one. |
| `CometGraphs.OneBlockPerRound` | core/sequentia/sequentia.go:843-968 | At every moment of every run rounds received never fall along the order, and the blocks are those of the whole order as if cut at once, in increasing rounds, no round in two of them. |
| `CometGraphs.BlockOfOrdered` | core/sequentia/sequentia.go:922-968 | The transactions of an ordered comet stand together in the only block that is ever cut for its round. |
| `CometGraphs.SameOrderSameBlocks` | core/sequentia/sequentia.go:922-968 | Two nodes with the same order, received in the same rounds, have the same blocks, however many calls they took. |
| `CometGraphs.CometGraph.DecideRounds` | core/core.go:309-324 | Every comet gets its round and the witnesses their fame, and all invariants of the node are kept. |
| `CometGraphs.CometGraph.FindOrder` | core/sequentia/sequentia.go:891-920 | The received comets leave the waiting list for the order, each once; their transactions are those of the new blocks, in order. |
| `CometGraphs.CometGraph.RunConsensus` | core/core.go:309-335 | A whole round of consensus keeps every invariant of the node, records fame as DecideFame does, says which rounds left the queue with which witnesses, and extends the order and the blocks as FindOrder does, or by nothing if fame could not be decided. |
| `CometGraphs.CometGraph.constructor` | core/sequentia/sequentia.go:50-79 | A new node satisfies every invariant. |
| `CometGraphs.LoadedWait` | types/comet.go:155-167 | The count of pending loaded comets is the number of waiting comets that are their creator's first or carry transactions or block signatures. |
| `CometGraphs.NodesAgree` | core/sequentia/sequentia.go:706-820 | Any two nodes of one network give a comet the same round and witness flag, and the same fame once both have decided it. |
| `CometGraphs.NodesReceiveAlike` | core/sequentia/sequentia.go:843-887 | Two nodes that have received a comet, however long ago, did so at a moment of each one's run; they gave it the same round received and consensus time, if in the earlier of the two rounds both had decided all witnesses by then and found the same ones famous. |
| `Receptions.ReceivedAlike` | core/sequentia/sequentia.go:843-887 | The same from what the two nodes held when they received the comet, over any two stores, round tables and queues. |
| `Receptions.DatedReceive` | core/sequentia/sequentia.go:843-887 | After a pass over the waiting comets, each received comet was received at some moment of the run: the round is the first after its own that received it then, and the time the median of the first sightings. |
| `Receptions.DatedInsert` | core/sequentia/sequentia.go:395-425 | What made a comet received at its moment is not changed by comets that arrive later. |
| `NodeState.SameConsensusTime` | core/sequentia/sequentia.go:872-877 | The same witnesses give a comet the same time, whatever else the nodes hold and in whatever order they list the witnesses. |
| `RoundInfos.SetFameIs` | types/round_info.go:48-61 | Fame is set for one comet only, which becomes a witness if it was not recorded before. |
| `RoundInfos.RoundInfo.WitnessesDecided` | types/round_info.go:64-71 | True exactly if no recorded witness is undecided. |
| `RoundInfos.RoundInfo.Witnesses` | types/round_info.go:74-82 | Lists each recorded witness once. |
| `RoundInfos.RoundInfo.FamousWitnesses` | types/round_info.go:85-93 | Lists each famous witness once. |
| `RollingIndexes.RollingIndex.Get` | common/rolling_index.go:26-44 | The exact rest of the log after an index, or TooLate exactly if part of it was dropped. |
| `RollingIndexes.RollingIndex.GetItem` | common/rolling_index.go:46-57 | The item of the log with the index, TooLate if it was dropped, KeyNotFound beyond the end. |
| `RollingIndexes.RollingIndex.Set` | common/rolling_index.go:59-91 | Appends to or replaces in the log, never leaves a gap, and drops exactly what a window of this size drops. |
| `RollingIndexes.RollingIndex.Roll` | common/rolling_index.go:93-97 | Drops the oldest `size` items. |
| `RollingIndexes.DroppedIs` | common/rolling_index.go:66-73 | A window has dropped nothing of a log of at most twice its size, and keeps more than its size and at most twice as many of a longer one. |
| `RollingIndexes.DroppedInSteps` | common/rolling_index.go:93-97 | What it has dropped is a multiple of its size. |
| `Gossip.SignaturesSurvive` | types/comet.go:252-262 | Block signatures survive the wire if and only if the creator of the comet made them all. |
| `Gossip.RebuiltIdentically` | core/sequentia/sequentia.go:653-704 | A node that has the parents can rebuild a comet if and only if its windows still hold them, and does so identically if and only if its block signatures are by its creator. |
| `Gossip.ReadFits` | core/sequentia/sequentia.go:653-704 | Whatever comes over the wire, a rebuilt comet that is genuine was named by the right integers. |
| `Gossip.SelfParentHeld` | core/sequentia/sequentia.go:663-668 | The self-parent of a comet that can be inserted is always in its window. |
| `Gossip.Core.ReadWire` | core/sequentia/sequentia.go:653-704 | Looking the parents up in the windows gives the body that the logs and the sizes of the windows determine, or an error exactly for an unknown creator, an unknown parent or one that was dropped. |
| `Gossip.Core.Track` | storage/memory_store.go:55-73 | A comet that is inserted enters the window of its creator, and no other. |
| `Gossip.KnownIsThere` | core/sequentia/sequentia.go:985-987 | A node holds a comet exactly if its index is at most the one the node reports for its creator. |
| `Gossip.DiffFeeds` | core/core.go:193-216 | In the sender's topological order every comet of the difference is new to the receiver and comes after its parents. |
| `Gossip.KnownAfter` | core/core.go:218-237 | With the difference inserted a node knows, for every participant, the greater of what the two knew. |
| `Gossip.Core.EventDiff` | core/core.go:193-216 | Exactly the comets with indices above the known ones, each once, in topological order, of those participants for whom an index is given; refused if and only if an index is given for someone who takes no part, a window has dropped one of the comets, or an index is below -1. |
| `Gossip.Core.InsertEvent` | core/core.go:144-153 | Accepts exactly genuine new comets with known parents, and keeps head and sequence number at the node's last own comet; a comet that is accepted waits for consensus behind all others, one that is not leaves everything as it was, and what consensus has established stays so. |
| `Gossip.Core.Take` | core/core.go:223-237 | A comet from the wire is inserted, and waits for consensus, exactly if it can be rebuilt, is genuine as rebuilt, is new and has its parents here; otherwise nothing changes. |
| `Gossip.Core.InsertAll` | core/core.go:223-237 | A delivered difference is rebuilt and inserted up to the first comet whose other-parent has left its window by then or that carries a block signature by someone else than its creator, and completely if there is none; the comets taken wait for consensus in the order they came, behind all others, and those with a load are counted. |
| `Gossip.Core.Sync` | core/core.go:218-260 | A delivered difference is taken in if and only if, when its turn comes, the other-parent of every comet is still in its window and its block signatures are by its creator; then the node has it all, and makes a comet of its own exactly if there was anything to receive or to say: behind its own last comet and the last one received, with both pools, which are emptied if it is accepted. The comets taken and then its own wait for consensus, and all else is as it was. |
| `Gossip.Core.AddOwn` | core/core.go:239-257 | The node's next comet on top of its own last and the other-head, with both pools in it; it waits for consensus, and the pools are emptied. |
| `Gossip.Exchange` | core/core.go:193-260 | One exchange: refused exactly if the sender has dropped something, broken off exactly at the first comet whose other-parent the receiver has dropped or whose block signatures are not all by its creator; otherwise everything is rebuilt identically and accepted, the node holds what either held, known indices become the pointwise maximum, plus one own comet exactly if there was anything to receive or to say; exactly what came in waits for consensus, in order, and what consensus has established stays so; where all comets carried only their creators' block signatures they still do exactly if the pool did. |
| `Turns.Run` | core/core.go:309-335 | Consensus over everything the node has leaves every comet in its round, ordered or waiting; it changes no comet but for when it was received; it fails only where there is none, and otherwise receives, orders and cuts blocks over all that waited. |
| `Turns.Turn` | core/node.go:480-500 | An exchange and the consensus after it: everything that either node had and the comet of its own are then in their rounds, each of them ordered or waiting, and the order and the blocks so far are only added to. |
| `Gossip.Relay` | core/core.go:193-260 | Two exchanges that succeed carry what one node knows, through a second, to a third. |
| `Trees.InsertCanonical` | trie/trie.go:190-257 | Insertion keeps the minimal form, and full nodes full. |
| `Trees.InsertGet` | trie/trie.go:190-257 | Insertion changes the lookup of its own key, to the new value, and of no other. |
| `Trees.InsertPresent` | trie/trie.go:203-206 | Inserting what is there leaves the tree as it is. |
| `Trees.DeleteCanonical` | trie/trie.go:281-388 | Deletion keeps the minimal form, merging short nodes and reducing full ones, and never empties a full node. |
| `Trees.DeleteGet` | trie/trie.go:281-388 | Deletion removes its own key and no other. |
| `Trees.DeleteAbsent` | trie/trie.go:295-298 | Deleting what is not there leaves the tree as it is. |
| `Trees.SameTree` | trie/trie.go:278-280 | Two trees in minimal form with the same contents are the same tree. |
| `Trees.ApplyGet` | trie/trie.go:172-188 | An update changes the lookup of its key only; an empty value deletes. |
| `Trees.RunHolds` | trie/trie.go:172-188 | After any history of updates the trie holds exactly what an ordinary map would. |
| `Trees.HistoryIndependent` | trie/trie.go:172-388 | Any two histories that leave the same map leave the same trie. |
| `KeyEncodings.ExpandCompact` | trie/encoding.go:21-48 | compactToHex undoes hexToCompact on nibble keys of either parity, with and without terminator. |
| `KeyEncodings.CompactInjective` | trie/encoding.go:21-36 | Two keys never share a compact encoding. |
| `KeyEncodings.KeybytesToHex` | trie/encoding.go:50-59 | Two nibbles for each byte, then the terminator. |
| `KeyEncodings.HexToCompact` | trie/encoding.go:21-36 | Fills the buffer with the hex prefix encoding of Appendix C of the Yellow Paper: length, flag nibble, and every other nibble in its place. |
| `KeyEncodings.CompactBytes` | trie/encoding.go:21-36 | The same of the specification, byte by byte. |
| `KeyEncodings.CompactToHex` | trie/encoding.go:38-48 | Drops flag and padding and restores the terminator. |
| `KeyEncodings.HexToKeybytes` | trie/encoding.go:63-73 | Undoes KeybytesToHex, and unpacking the result gives the nibbles back. |
| `KeyEncodings.DecodeNibbles` | trie/encoding.go:75-79 | Packs the nibbles into the rest of the buffer and leaves its front alone. |
| `KeyEncodings.PrefixLength` | trie/encoding.go:82-93 | The length of the longest common prefix. |
| `TrieNodes.ParseNode` | trie/node.go:100-118 | What the decoder computes, refusals included, is `DecodeNode`, which `DecodeEncoding` proves to read every encoding back; the source looks past the end of its input, and panics, exactly on a stated set of inputs. |
| `TrieNodes.ParseShort` | trie/node.go:120-140 | The same for short nodes: a key with a terminator takes a value, any other a child; an empty key makes the source panic. |
| `TrieNodes.ParseFull` | trie/node.go:142-159 | The same for full nodes, the loop over sixteen children and the value after it. |
| `TrieNodes.ParseRef` | trie/node.go:163-186 | The same for child references. |
| `TrieNodes.NodesOverread` | trie/node.go:100-140 | Inputs of each kind that the decoder looks past the end of: 0x81 alone, in a list or in an embedded child, and an empty key. |
| `TrieNodes.NodeReadOrOver` | trie/node.go:100-118 | What decodes was not looked past. |
| `TrieNodes.NodesOverreadOnly` | trie/node.go:100-193 | However malformed the input is, it is looked past only if it holds a byte 0x80 or 0x81. |
| `TrieNodes.DecodeEncoding` | trie/node.go:100-159 | Decoding a node's encoding gives the node with its children embedded or by hash, whatever follows it. |
| `TrieNodes.DecodeReference` | trie/node.go:163-186 | A child reference, empty, embedded or a hash, is read back as the child with the rest left over. |
| `TrieNodes.ChildValues` | trie/node.go:163-186 | A child is the empty string, a string of 32 bytes, or a list of at most 32 bytes that decodes to a node; nothing else is accepted. |
| `TrieNodes.NodeValues` | trie/node.go:100-118 | A node is a list of two or of seventeen values. |
| `TrieNodes.DecodeShortEncoding` | trie/node.go:120-140 | The encoding of a short node, leaf or extension, is read back. |
| `TrieNodes.DecodeFullEncoding` | trie/node.go:142-159 | The encoding of a full node is read back, all sixteen children and the value. |
| `TrieViews.OpenedRepresents` | trie/node.go:91-97 | What the database hands out stands for the tree it was written from. |
| `TrieViews.FoundIsEncoding` | trie/trie.go:404-411 | If the database answers for a hash, the answer is the encoding of the tree the hash stands for. |
| `TrieViews.RepresentsGrown` | trie/hasher.go:150-152 | Writing more into the database changes nothing about what the nodes stand for. |
| `Tries.Trie.ResolveHash` | trie/trie.go:404-411 | Loads a node that stands for the same tree, and fails exactly if the database does not have it. |
| `Tries.Trie.GetNode` | trie/trie.go:114-150 | The value the tree holds, with every path index in bounds; nodes loaded on the way stand for the same tree. |
| `Tries.Trie.TryGet` | trie/trie.go:105-112 | The value under a byte key; the tree does not change; only an incomplete database can make it fail. |
| `Tries.Trie.InsertNode` | trie/trie.go:190-257 | The new nodes stand for the tree with the key set; dirty exactly if something changed. |
| `Tries.Trie.LoneChild` | trie/trie.go:330-340 | The index of the only child, -1 for none, -2 for more. |
| `Tries.Trie.ReduceNode` | trie/trie.go:341-363 | A full node with one child left stands for the short node that replaces it. |
| `Tries.Trie.DeleteNode` | trie/trie.go:281-388 | The new nodes stand for the tree without the key; dirty exactly if the key was there. |
| `Tries.Trie.TryUpdate` | trie/trie.go:172-188 | The tree becomes the updated tree, or nothing changes and a node was missing. |
| `Tries.Trie.TryDelete` | trie/trie.go:268-276 | The tree loses the key, or nothing changes and a node was missing. |
| `Tries.Trie.Store` | trie/hasher.go:129-154 | A node below 32 bytes that is not the root stays whole; any other is written under its hash, which disturbs no other entry. |
| `Tries.Trie.Collapse` | trie/hasher.go:38-77 | The reference to the tree as its parent encodes it, through cached hashes and unloading; in commit mode everything below is stored, and a clean node is replaced by its hash exactly if it is old enough. |
| `Tries.Trie.CollapseChildren` | trie/hasher.go:82-127 | The value tree the node is encoded as, and the node with its children collapsed. |
| `Tries.Trie.CollapseFull` | trie/hasher.go:103-121 | References to all sixteen children and the value, with empty strings for missing children. |
| `Tries.Trie.Hash` | trie/trie.go:419-423 | The root hash of the tree, without a write. |
| `Tries.Trie.Commit` | trie/trie.go:430-452 | The root hash of the tree; nothing stored before is lost, and the whole tree can be loaded from the hash afterwards, unless some of it was missing before. |
| `Tries.Trie.Open` | trie/trie.go:71-84 | Opens the tree with the given root hash, or an empty one at the zero hash, and fails exactly if it is not empty and its root is not in the database. |
| `Tries.CommitThenReopen` | trie/trie.go:430-461 | After a commit, a trie opened at the returned root gives the same value for every key. |
| `Tries.Replay` | trie/trie.go:172-188 | Updates with commits after any of them: the trie holds the map, and its root hash is the one that the Yellow Paper defines for the map, and a commit after the last update has stored the whole tree. |
| `Tries.SameRootHash` | trie/trie.go:454-461 | Two tries have the same root hash if and only if they are the same tree, with no collisions among the encodings that occur. |
| `Tries.RootHashIsContents` | trie/trie.go:454-461 | Two histories have the same root hash if and only if they leave the same map. |
| `Tries.RootIsYellowPaper` | trie/trie.go:454-461 | The root hash of a tree is the Yellow Paper's function TRIE of the pairs that the tree holds. |
| `YellowPaper.TreeIsStructure` | trie/hasher.go:82-127 | The encoding of every canonical tree is the Yellow Paper's structural composition of the pairs it holds, which knows no tree: leaf, extension or branch by what the keys share. |
| `YellowPaper.TreeIsReferred` | trie/hasher.go:129-154 | A child is referred to as the Yellow Paper says: by its structure if that is shorter than 32 bytes, else by its hash. |
| `YellowPaper.CompactIsHexPrefix` | trie/encoding.go:21-36 | The compact encoding is the Yellow Paper's hex prefix encoding. |
| `YellowPaper.SharedIs` | trie/trie.go:190-235 | The key of a short node over a full one is the longest prefix that the keys below it share. |
| `YellowPaper.HoldsFilled` | trie/encoding.go:50-59 | A tree that holds a map of byte keys holds the pairs with the keys as nibbles. |
| `Rlp.ReadKindSound` | common/rlp/raw.go:71-107 | An accepted header is the one an encoder writes and its content lies in the input. |
| `Rlp.ReadKindOverreads` | common/rlp/raw.go:70-109 | The header reader looks past the end of its input if and only if that is the lone byte 0x81. |
| `Rlp.ReadKindComplete` | common/rlp/raw.go:71-107 | Every header an encoder writes is accepted and read as it was meant. |
| `Rlp.SplitExact` | common/rlp/raw.go:22-28 | Split cuts off a value if and only if the input starts with the header and content an encoder writes, in both directions. |
| `Rlp.SplitStringEncoded` | common/rlp/raw.go:32-41 | SplitString cuts an encoded string off at its end. |
| `Rlp.SplitListEncoded` | common/rlp/raw.go:45-54 | SplitList cuts an encoded list off at its end. |
| `Rlp.SplitOverreads` | common/rlp/raw.go:23-55 | Split, SplitString and SplitList look past the end if and only if the input is the lone byte 0x81. |
| `Rlp.CountValues` | common/rlp/raw.go:57-69 | The number of values, or the error of the first that is malformed; it looks past the end exactly of whole values followed by the lone byte 0x81. |
| `Rlp.ValuesOverread` | common/rlp/raw.go:57-69 | Counting meets this if and only if the input is a run of whole values with the byte 0x81 behind it. |
| `Rlp.Overreads` | common/rlp/raw.go:83-88 | Such inputs, for the reader, the splitters and the counter. |
| `Rlp.ValuesOfEncoded` | common/rlp/raw.go:57-69 | A list's content counts as many values as the list has items. |
| `Rlp.DecodeItemSound` | common/rlp/decode.go:479-501 | Accepted input is the encoding of what it decodes to: one encoding for each value. |
| `Rlp.DecodeItemComplete` | common/rlp/decode.go:479-501 | What an item encodes to decodes to that item, whatever follows. |
| `Rlp.EncodeInjective` | common/rlp/encode.go:186-194 | Two values never share an encoding. |
| `Rlp.StringLayout` | common/rlp/encode.go:134-194 | Strings as in Appendix B of the Yellow Paper: a byte below 128 as it is, up to 55 bytes behind 128 and their number, longer ones behind 183 and the number of digits of their size, and the size without leading zeros. |
| `Rlp.ListLayout` | common/rlp/encode.go:119-146 | Lists: up to 55 bytes of content behind 192 and their number, longer ones behind 247 and the digits of the size. |
| `Rlp.ContentLayout` | common/rlp/encode.go:196-232 | The content of a list is the encodings of its items one after the other. |
| `Rlp.ReadKindErrors` | common/rlp/raw.go:70-140 | Which error the header reader reports, for every input: input that ends before the size, a size that is padded, or content that is not there. |
| `Rlp.SplitExpects` | common/rlp/raw.go:33-55 | Each of the two splitters refuses exactly what the other takes; a list is what starts with 192 or more. |
| `EncodeBuffers.IntSize` | common/rlp/encode.go:630-636 | The number of base-256 digits of a size; zero has one. |
| `EncodeBuffers.PutInt` | common/rlp/encode.go:572-627 | The shortest big-endian digits of a number, and at least one. |
| `EncodeBuffers.InterleavedIsEncoded` | common/rlp/encode.go:215-231 | Placing the deferred headers into the string data gives the recursive encoding. |
| `EncodeBuffers.EncodeBuffer.EncodeStringHeader` | common/rlp/encode.go:175-184 | Appends the header of a string of that size. |
| `EncodeBuffers.EncodeBuffer.WriteString` | common/rlp/encode.go:186-194 | Appends the encoding of the string. |
| `EncodeBuffers.EncodeBuffer.CloseList` | common/rlp/encode.go:202-209 | The size of a list is what was written since it was opened, headers included. |
| `EncodeBuffers.EncodeBuffer.Write` | common/rlp/encode.go:498-529 | Writes string data and closed headers of a nested value behind what is there, and leaves open headers alone. |
| `EncodeBuffers.EncodeBuffer.ToBytes` | common/rlp/encode.go:215-231 | The output buffer is filled exactly, with every header in its place. |
| `EncodeBuffers.EncodeToBytes` | common/rlp/encode.go:81-89 | The two-pass encoder writes the recursive encoding. |
| `EncodeBuffers.EncodeReader.Next` | common/rlp/encode.go:291-323 | The next piece is never empty, and there is none exactly at the end. |
| `EncodeBuffers.EncodeReader.Step` | common/rlp/encode.go:266-287 | One piece is copied as far as it goes; what was read before and what is left make up the encoding all the time. |
| `EncodeBuffers.EncodeReader.Read` | common/rlp/encode.go:266-287 | Reads hand out the encoding in order, fill the buffer unless the end is reached, and report the end exactly then. |
| `DecodeStreams.DecodeAnnounced` | common/rlp/decode.go:893-953 | Decoding one announcement at a time is what the recursive decoder does. |
| `DecodeStreams.NestedPop` | common/rlp/decode.go:764-779 | Closing a list that was read to its end credits its whole content to the list around it, so no list position passes its size. |
| `DecodeStreams.Stream.WillRead` | common/rlp/decode.go:1007-1025 | Accounts for bytes exactly if the innermost list and the input have them; otherwise says whether a list or the input is too short. |
| `DecodeStreams.Stream.ReadUint` | common/rlp/decode.go:955-979 | A big-endian number; more than one digit must not start with zero. |
| `DecodeStreams.Stream.ReadHeader` | common/rlp/decode.go:893-953 | The kind and size announced by the bytes ahead, or which error they are. |
| `DecodeStreams.Stream.Kind` | common/rlp/decode.go:860-891 | Announces the value ahead, once, and rejects it exactly if it is malformed or does not fit, with the error that is due; EOL exactly at the end of a list. |
| `DecodeStreams.Stream.Bytes` | common/rlp/decode.go:639-660 | Takes the string ahead exactly if it is one an encoder writes, and says which error it is otherwise. |
| `DecodeStreams.Stream.List` | common/rlp/decode.go:748-760 | Enters the list ahead; the new list ends within the one around it. |
| `DecodeStreams.Stream.ListEnd` | common/rlp/decode.go:764-779 | Leaves a list exactly at its end. |
| `DecodeStreams.FaultIsFailure` | common/rlp/decode.go:479-501 | There is an error to report exactly where the recursive decoder gives up; it is EOL only at the end of a list. |
| `DecodeStreams.FaultsOutside` | common/rlp/decode.go:860-891 | At the start of the input EOF means that there is nothing, and a value that is too large is the first one; an element that is too large is in a list. |
| `DecodeStreams.FaultsInside` | common/rlp/decode.go:860-891 | Inside a list the errors are an element that is too large and one that is not canonical, and the end of the list. |
| `DecodeFaults.FaultIs` | common/rlp/decode.go:860-988 | Which error is reported, told from the bytes: for some input it is about a header reached by going into lists past complete values; a padded size and a byte below 128 behind a header are not canonical, and a value that is cut short is too large for the list, or at the start for the input. |
| `DecodeFaults.HeadFaults` | common/rlp/decode.go:893-988 | From its bytes, when a header is not canonical, when it is cut short, and that otherwise only the content of a list can go wrong. |
| `DecodeFaults.FaultFound` | common/rlp/decode.go:860-988 | Every error is that of a faulty header, with complete values in front of it in each list around it. |
| `DecodeFaults.FaultReported` | common/rlp/decode.go:860-988 | A faulty header behind complete values, however deep, is what is reported. |
| `DecodeStreams.Stream.DecodeInterface` | common/rlp/decode.go:479-501 | Succeeds exactly if the recursive decoder does on the bytes ahead, with its value, and consumes as much; otherwise reports the first error in the value, seen from inside a list or outside. |
| `DecodeStreams.Stream.DecodeListSlice` | common/rlp/decode.go:291-304 | The items of the list ahead, and the list is left; or the first error in it. |
| `DecodeStreams.Stream.DecodeSliceElems` | common/rlp/decode.go:306-333 | Items until the list ends, or the error of the first one that does not decode, which is never EOL. |
| `DecodeStreams.DecodeBytes` | common/rlp/decode.go:103-113 | Returns a value if and only if the input is that value's encoding: every accepted input re-encodes to itself. Otherwise the first error in the input, or that more follows the value. |
| `Mailboxes.InvKept` | network/actor/mailbox/mailbox.go:52-152 | Every atomic step of every goroutine keeps one processor, right counters, finished or pending pushes, and someone who notices each message. |
| `Mailboxes.OneProcessor` | network/actor/mailbox/mailbox.go:76-152 | In every interleaving at most one goroutine is inside run, and the mailbox is marked as running then. |
| `Mailboxes.NothingLeftBehind` | network/actor/mailbox/mailbox.go:76-96 | In every interleaving, nil messages included, whenever no goroutine is mid-step the mailbox is idle, the system queue is empty and its counter zero, the user queue is empty or the mailbox suspended, and no nil message was lost, except user messages while suspended. |
| `Deliveries.HandledInOrder` | network/actor/mailbox/mailbox.go:52-152 | In every run, at every moment, the messages handled from either queue are the beginning of the non-nil messages posted to it: in order, none twice, none left out. |
| `Deliveries.AllHandled` | network/actor/mailbox/mailbox.go:76-96 | Whenever no goroutine is mid-step all non-nil messages have been handled, except user messages while the mailbox is suspended. |
| `Deliveries.LastOneDecides` | network/actor/mailbox/mailbox.go:118-134 | At every moment of every run the mailbox is suspended if and only if it has handled a Suspend and no Resume since. |
| `Deliveries.SuspendedWaits` | network/actor/mailbox/mailbox.go:136-139 | No step from a suspended mailbox takes or handles a user message. |
| `Deliveries.SuspendedUntilResumed` | network/actor/mailbox/mailbox.go:118-139 | From a Suspend that is handled until a Resume that is handled, however many steps of however many goroutines, no user message is taken or handled. |
| `Deliveries.SystemGoesFirst` | network/actor/mailbox/mailbox.go:118-150 | A goroutine gets to the user messages only after it found no system message and no suspension, takes one at a time, and leaves if there is none. |
| `Deliveries.PanicEndsRun` | network/actor/mailbox/mailbox.go:98-108 | A panic while a message is handled ends the run, and the mailbox is given back. |
| `Rests.NilNeverRests` | network/actor/mailbox/mailbox.go:76-96 | Once a nil system message has been posted, some goroutine is busy at every later moment of every run. |
| `Stalls.EveryRunEnds` | network/actor/mailbox/mailbox.go:54-152 | From any moment of any run, posts under way included, the lengths of all further runs of steps are bounded, however the goroutines interleave, whatever panics and whoever is not scheduled again, if and only if no nil system message was posted, whoever pushes a system message pushes the last, and the same holds of user messages unless the mailbox is sure to be suspended; a run that can take no further step has no goroutine left. |
| `Stalls.RunsOn` | network/actor/mailbox/mailbox.go:76-96 | Otherwise one or two goroutines can be named, each in the middle of a push, without whom the others run for ever. |
| `Stalls.AlertKept` | network/actor/mailbox/mailbox.go:76-96 | While the mailbox is idle and a counter is above zero, someone who is done with counting is about to see it. |
| `Rests.SureWhenFinished` | network/actor/mailbox/mailbox.go:54-152 | Once all posts are finished, only nil messages can be in the way. |
| `Rests.RunsAreBounded` | network/actor/mailbox/mailbox.go:54-152 | The bound: what posters have left to do, what waits, what is held, and the stages of all goroutines. |
| `Rests.ComesToRest` | network/actor/mailbox/mailbox.go:54-152 | From any moment of any run the goroutines can come to rest without another post if and only if no nil system message was posted, and no nil user message unless the posted messages leave the mailbox suspended. |
| `Rests.RestIsEnd` | network/actor/mailbox/mailbox.go:54-152 | At rest the mailbox is suspended exactly if the last suspend or resume message posted was a suspend message, and no nil message is in the way. |
| `Rests.CanRest` | network/actor/mailbox/mailbox.go:54-152 | While no nil message stands in the way, one more suspend or resume message brings the mailbox to rest, suspended or awake, whatever all goroutines were doing. |
| `Rests.CanComeToRest` | network/actor/mailbox/mailbox.go:54-152 | With further posts it can come to rest if and only if no nil system message has been posted. |
| `Rests.ComesToRestAwake` | network/actor/mailbox/mailbox.go:54-152 | With further posts it can come to rest without being suspended if and only if no nil message has been posted to either queue. |
| `Rests.SpinsWhileStalled` | network/actor/mailbox/mailbox.go:76-96 | A run with a half finished post, from which the processor can go round to the same moment again. |
| `Mailboxes.NilIsLost` | network/actor/mailbox/mailbox.go:118-121 | A run in which a nil message is taken for an empty queue and stays counted. |
| `Mailboxes.CountedKept` | network/actor/mailbox/mailbox.go:56-68 | A counter is off by exactly the messages on their way in and out. |
| `Mailboxes.AwakeLooking` | network/actor/mailbox/mailbox.go:81-91 | A goroutine that looks at the counters and leaves never leaves work behind without someone about to notice. |
| `Mailboxes.CounterBelowZero` | network/actor/mailbox/mailbox.go:120-121 | There is a run in which a counter falls below zero. |
| `Mpsc.Queue.Swap` | network/actor/internal/queue/mpsc/mpsc.go:35-38 | The item gets its place in the order; its link is outstanding. |
| `Mpsc.Queue.Link` | network/actor/internal/queue/mpsc/mpsc.go:40-42 | The item becomes visible, wherever other pushes and pops are. |
| `Mpsc.Queue.Pop` | network/actor/internal/queue/mpsc/mpsc.go:47-57 | Returns the oldest item exactly if its own push is finished, and nothing otherwise. |
| `Mpsc.Queue.IsEmpty` | network/actor/internal/queue/mpsc/mpsc.go:62-66 | True exactly if a pop would return nothing. |
| `Mpsc.PopsAreSwaps` | network/actor/internal/queue/mpsc/mpsc.go:35-57 | What any interleaving of swaps, links and pops returns is a prefix of the swap order. |
| `Mpsc.PopsAll` | network/actor/internal/queue/mpsc/mpsc.go:35-57 | Once all pushes are finished, as many pops as there are items return them all. |
| `Rings.Ring.constructor` | network/actor/internal/queue/goring/queue.go:21-31 | A new ring is empty. |
| `Rings.Ring.Push` | network/actor/internal/queue/goring/queue.go:33-60 | Appends to the sequence, through wrap-around and doubling. |
| `Rings.Ring.Resize` | network/actor/internal/queue/goring/queue.go:37-56 | The doubled buffer holds the same items in the same order. |
| `Rings.Ring.Pop` | network/actor/internal/queue/goring/queue.go:71-86 | Takes the first item of the sequence, and nothing exactly if it is empty. |
| `Rings.Ring.PopMany` | network/actor/internal/queue/goring/queue.go:88-112 | Takes up to count items from the front, in order. |
| `StateDBs.StateDB.GetStateObject` | state/statedb.go:335-359 | The live object, or the one from the trie; none exactly if the live one is deleted, or there is neither; loading does not show. |
| `StateDBs.StateDB.constructor` | state/statedb.go:66-82 | A new state shows the accounts of the trie, with their code and storage, and nothing else. |
| `StateDBs.StateDB.CreateObject` | state/statedb.go:382-393 | A new object, with an entry that brings back what was there. |
| `StateDBs.StateDB.GetState` | state/state_object.go:158-180 | The cached or stored entry, zero if there is none; caching does not show. |
| `StateDBs.StateDB.GetCode` | state/state_object.go:305-318 | The code of the account; loading it does not show. |
| `StateDBs.StateDB.SetBalance` | state/state_object.go:262-277 | Only the balance of this account changes, and every snapshot stays within reach; an object that was marked dirty once is not marked again. |
| `StateDBs.StateDB.AddBalance` | state/state_object.go:240-251 | Only the balance of this account changes; adding nothing to an empty account leaves a touch entry that does not show. The account becomes dirty exactly if it is new, its balance changes or it is empty, and has not asked for its mark already. |
| `StateDBs.StateDB.SubBalance` | state/state_object.go:255-260 | Only the balance of this account changes; subtracting nothing only creates the account; says exactly when it becomes dirty. |
| `StateDBs.StateDB.SetNonce` | state/state_object.go:340-354 | Only the nonce of this account changes, it is marked dirty if it asks for it, and every snapshot stays within reach. |
| `StateDBs.StateDB.SetCode` | state/state_object.go:320-338 | Only code and code hash of this account change, it is marked dirty if it asks for it, and every snapshot stays within reach. |
| `StateDBs.StateDB.SetState` | state/state_object.go:183-200 | Only one storage entry of this account changes: it reads as the new value, all others as before; the account is marked dirty if it asks for it, and every snapshot stays within reach. |
| `StateDBs.StateDB.Suicide` | state/statedb.go:297-311 | Marks an existing account as suicided and dirty and takes its balance, and every snapshot stays within reach. |
| `StateDBs.StateDB.CreateAccount` | state/statedb.go:405-410 | A fresh account that keeps the balance of the one it replaces, and is dirty. |
| `StateDBs.StateDB.AddRefund` | state/statedb.go:150-153 | Only the refund counter changes. |
| `StateDBs.StateDB.AddLog` | state/statedb.go:112-121 | One more log of the current transaction. |
| `StateDBs.StateDB.AddPreimage` | state/statedb.go:136-143 | Keeps the first preimage of a hash. |
| `StateDBs.StateDB.Snapshot` | state/statedb.go:466-471 | A new id, above all others, that stands for what is seen now. |
| `StateDBs.StateDB.Search` | state/statedb.go:475-478 | Binary search finds the least revision not below an id. |
| `StateDBs.StateDB.UndoEntry` | state/journal.go:64-124 | Each entry undone on the objects shows as the entry undone on what is seen; creations and first touches lose their mark, all others keep it. |
| `StateDBs.StateDB.RevertToSnapshot` | state/statedb.go:474-492 | Whatever happened since, nested snapshots included, existence, balance, nonce, code, storage, suicide flag, refund, logs and preimages of every account are again what they were at the snapshot. If all changed objects were in the dirty set, they still are if and only if no undone entry is the touch that first marked its object, the account 3 aside. |
| `StateDBs.TouchAndRevert` | state/journal.go:81-90 | A touch of an empty account and its revert: all shows as before, but a changed object is missing from the dirty set, if and only if the account is not the one at address 3. |
| `StateDBs.StateDB.UndoTouch` | state/journal.go:83-90 | Undoing a touch does not show; it takes the mark away if the touch made it, without letting the object ask for a new one. |
| `StateDBs.StateDB.UndoObject` | state/journal.go:73-106 | Writing an old value back shows as the entry undone, and keeps the mark of the object. |
| `Journals.MarkedUndo` | state/journal.go:64-106 | Undoing the last entry keeps all marks unless it is a first touch; after one, some object is unmarked and no earlier entry can mark it. |
| `Journals.TrackedUndo` | state/state_object.go:132-143 | Undoing keeps it so that all accounts with entries have been marked, and that the entry that marked an account is the first about it. |
| `Journals.TrackedAppend` | state/state_object.go:132-143 | So does a new entry. |
| `StateDBs.StateDB.ClearJournalAndRefund` | state/statedb.go:554-558 | Nothing can be reverted any more, and only the refund counter changes. |
| `StateDBs.StateDB.Finalise` | state/statedb.go:503-516 | Exactly the accounts in the dirty set that were suicided, or have nonce 0, balance 0 and the Keccak hash of no code, are gone; all others show what they showed, logs and preimages stay, nothing can be reverted, and changed objects that were all in the dirty set still are. |
| `StateDBs.StateDB.Commit` | state/statedb.go:561-592 | Exactly the suicided accounts, and those in the dirty set with nonce 0, balance 0 and the Keccak hash of no code, are gone, and all others show what they showed; a state opened on the written trie and codes shows the same if and only if every live object outside the dirty set that does not ask for its mark any more already read so from the trie, which it does if all changed objects were in the dirty set; the dirty set is empty afterwards and no object asks for its mark again. |
| `StateDBs.CommitThenReopen` | state/statedb.go:435-454 | The same for the second state itself, which is what a copy of the committed state is: which accounts it lacks is said on their fields before the commit. |
| `StateDBs.ChangeAfterCommit` | state/statedb.go:561-592 | A commit, one balance set, and another commit: the second writes the balance if and only if the object had not been marked before the first, or was deleted by it; otherwise a state opened afterwards shows what the first wrote. |
| `StateDBs.LostAfterCommit` | state/statedb.go:587 | A run in which the state shows the second balance and the trie has the first. |
| `StateDBs.LostBalance` | state/journal.go:81-90 | A run in which an account is touched, the touch reverted, and a balance set, which shows, and is lost in the state opened after the commit if and only if the account is not the one at address 3. |
| `StateDBs.StateDB.VisitAll` | state/statedb.go:504-512 | Objects are written or deleted in whatever order the map gives them, with one result: which are gone is said on nonce, balance, code hash and flags. |
| `Filings.FiledShows` | state/statedb.go:503-592 | With all these objects visited, exactly the accounts that were suicided, or are dirty with nonce 0, balance 0 and the hash of no code, are gone, and all others show what they showed. |
| `Filings.FiledIs` | state/statedb.go:503-592 | What a visit leaves of one object, on its fields: deleted and out of the trie, or written with its storage, or untouched. |
| `Filings.SurvivorsAre` | state/statedb.go:503-592 | Who survives, on the fields of the accounts, and that survivors are unchanged. |
| `Filings.ReopenedShows` | state/statedb.go:561-592 | The trie as written shows what the state shows if and only if the accounts outside the dirty set did so before. |
| `Filings.OnlyDisarmed` | state/statedb.go:561-592 | Only live objects that do not ask for their marks any more can fail to; if every changed object is in the dirty set, none does. |
| `Journals.FlushedShows` | state/state_object.go:203-221 | What an object shows of its storage is what its storage trie shows once the dirty entries are in it, zero values deleted. |
| `Journals.EntryKeeps` | state/journal.go:9-62 | An entry that takes a change back leaves every revision within reach. |
| `Journals.UndoKeeps` | state/statedb.go:484-488 | Undoing the last entry leaves every earlier revision within reach. |
| `Journals.UndoAllRefund` | state/journal.go:108-110 | A refund counter overwritten past the journal is brought back by undoing entries if and only if one of them is about the counter; nothing else changes. |
| `StateDBs.StateDB.OverwriteRefund` | proxy/proxy_processor.go:154-158 | Changing the counter itself shows in the state and in exactly those snapshots since which the journal has no entry about the counter. |
| `StateDBs.OverwrittenForGood` | proxy/proxy_processor.go:154-158 | A run in which the counter is overwritten after a snapshot and reverting does not bring it back. |
| `Journals.StorageRead` | state/state_object.go:183-190 | Writing the old entry back restores the storage, whether or not the entry existed. |
| `GasAccounting.GasPool.SubGas` | proxy/gaspool.go:17-26 | Takes the gas exactly if it is there. |
| `GasAccounting.StateTransition.BuyGas` | proxy/proxy_processor.go:72-92 | Pays for all the gas from the sender and the pool, or changes neither; each refusal under its own condition. |
| `GasAccounting.StateTransition.PreCheck` | proxy/proxy_processor.go:94-109 | Refuses a wrong nonce before anything is paid. |
| `GasAccounting.StateTransition.RefundGas` | proxy/proxy_processor.go:146-163 | Pays back unused gas and a refund of at most half of the gas used; the pool gets the same gas back; the refund counter itself is multiplied by the gas price where it is less than half of the gas used. |
| `GasAccounting.CounterKept` | proxy/proxy_processor.go:154-158 | The refund counter keeps its value if and only if it is at least half of the gas used, or zero, or the gas price is one. |
| `GasAccounting.MultipliedCounter` | proxy/proxy_processor.go:154-158 | A concrete transaction that changes the refund counter from 10 to 20. |
| `GasAccounting.StateTransition.Transfer` | proxy/proxy_processor.go:176-179 | Value moves from sender to recipient, who may be the same, and the total stays. |
| `GasAccounting.StateTransition.TransitionOnNative` | proxy/proxy_processor.go:111-144 | Succeeds exactly under a condition on balance, nonce, gas and pool; then the recipient that the message names gets exactly the value, the sender pays it and the gas used, every other balance stays, the sender's nonce counts, all balances together fall by the price of the gas used and the pool by that gas; sender and recipient have accounts from then on and nobody else comes to one; no code, storage, suicide flag, log or preimage changes, and new accounts have neither code nor storage; the sender becomes dirty, the recipient exactly if it is new or empty or the value is not zero, and nobody else; an error after gas was bought keeps the payment, any other changes no balance; says what the refund counter is afterwards, what it may be in open snapshots, and a solvent state stays solvent. |
| `GasAccounting.OutcomeIs` | proxy/proxy_processor.go:62-131 | Each error, and success, if and only if its condition on nonce, balance, gas and pool holds, in this order; the gas used is 100 less the refund counter, at least 50. |
| `GasAccounting.SettlesReceives` | proxy/proxy_processor.go:133-138 | The recipient named by the message, or the zero address, gets the value; the sender pays it and the gas; nobody else pays or gets anything. |
| `GasAccounting.FailedPays` | proxy/proxy_processor.go:111-131 | A transaction that fails costs the sender the gas it had bought, and changes nothing else. |
| `GasAccounting.KeepsSolvent` | proxy/proxy_processor.go:111-144 | No balance goes below zero, on success or failure. |
| `Blocks.ProcessBlock` | proxy/proxy_state.go:79-121 | The pool falls by the total gas used, and all balances by what it cost and by what finalising burned; every address that was not suicided before holds what it held and the sum of what the transactions moved to it, less values and fees it sent, and its nonce counts what it sent; codes and storage stay, and new accounts have none; a transaction that fails ends the block and takes the gas it had bought, if it got that far, from its sender alone; no balance goes below zero; if no account was suicided at the start, nothing is burned. |
| `Blocks.CommitBlock` | proxy/proxy_state.go:79-155 | A block without a failure, committed: a state opened on what was written shows at every address that was not suicided before what it held and the sum of what the transactions moved, and the nonce with those it sent. |
| `Blocks.Apply` | proxy/proxy_state.go:91-121 | One transaction of the block and the state finalised after it: the gas used and the pool; at every address the balance, nonce, code, storage and flag, where dirty accounts that are empty or were suicided are gone, and which addresses became dirty; all balances together, and what is burned. |
| `Blocks.SettledAndFinished` | proxy/proxy_state.go:91-121 | What a transfer leaves and finalising then keeps, at every address. |
| `Blocks.BurnedIs` | state/statedb.go:503-516 | Finalising a solvent state burns nothing if and only if no suicided account in the dirty set holds anything. |
| `Blocks.FinalisedKeeps` | state/statedb.go:503-516 | Finalising takes no balance below zero, and burns nothing where nobody was suicided. |

## Left out

- Cryptography: ECDSA, Keccak and SHA-256 are parameters or flags, with the assumptions stated above.
- CometGraphs.NodesReceiveAlike: nodes agree on the round received of a comet where they agreed on the famous witnesses of the round; a witness that arrives late can keep them from it, and block contents with it.
- Sorters.ConsensusSorter.Less: signatures are numbers; the source splits them from text. The library sort that calls it stands for any that returns a sorted permutation.
- Reset, GetFrame, Bootstrap and roots other than the base root: fast-sync is unfinished in the source.
- Recording of block signatures on insertion, and sending of blocks to the commit channel.
- RoundInfo is a value that replaces the one in the table; the source changes it through a pointer that the store also holds.
- Eviction from the stores of comets and rounds, and the Badger store, which reads older comets from disk: the stores here keep everything but the rolling windows of indices.
- CometGraphs.CometGraph.Round: asks only for comets whose parents are in rounds already, which is how DivideRounds uses it.
- Gossip.Core.Sync: the timestamp and the signature of the node's own comet are parameters.
- OverSyncLimit, AddSelfEvent and the fast-forward messages: nothing hard in them beyond Sync.
- Tries.Trie.Commit: one database for reading and writing; the source can be given another for writing.
- Errors of the database other than a missing key; a stored node that does not decode makes the source panic and cannot occur here.
- The trie's iterators, the secure trie, and the paths kept for error messages.
- Reflection: the encoder and decoder work on byte strings and lists, not on Go types; Uint, Bool and Raw of the stream are left out.
- The types and positions that the decoder adds to the text of its errors.
- Streams without an input limit: the input is a byte slice, as in DecodeBytes.
- Lengths of encoded values are at most 2^64 - 1, as in the source.
- Mailboxes.NothingLeftBehind: counters are unbounded integers; the source's wrap around at 32 bits.
- A goroutine that wins the mailbox goes on as the processor; the dispatcher that would start another is not modelled.
- Bounded mailboxes, statistics, dispatchers, supervision and remote actors.
- The lock of the ring queue: its operations are modelled as they run, one at a time, inside the lock.
- StateDBs.StateDB.Finalise: deletes empty accounts, as the block processor asks it to; the source can be told not to.
- StateDBs.StateDB.Commit: the account trie and the storage tries are maps, as the trie models prove them to be; a failing database is left out. One code hash must stand for one code.
- DeleteSuicides of the state, Copy of a state with dirty objects, and the database iterators.
- StateDBs.StateDB.RevertToSnapshot: for ids of valid revisions; the source panics on others.
- Blocks.ProcessBlock: receipts are left out, and the logs of a block are those of the state.
- GasAccounting.StateTransition.TransitionOnNative: the refund counter is not negative; the 64-bit value that the source takes of a negative one is undefined.
