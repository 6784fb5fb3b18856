# Verification of the election, sharding and checking code

This project models the parts of the repository that hold logic of their own and proves what they are for.

- **Raft leader election** (`Raft.dfy`, `Cluster.dfy`, `Election.dfy`, `Timing.dfy`). `Raft.Raft` is the peer object with one method per critical section; each method equals a function on peer values. `Cluster` runs any number of peers over a network that loses, delays and reorders calls: a call is sent, executed at most once, and answered at most once. Election safety rests on an inductive invariant over this state machine and on the fact that two majorities share a voter. `Election` adds what `checkOneLeader` can observe, and that an election can succeed at all; `Timing` says when elections start.
- **Shard allocation** (`ShardSpec.dfy`, `ShardConfig.dfy`, `ConfigRuns.dfy`). `ShardConfig.Config` is the `ShardConfig` object. Its `Rebalance` equals a function of the shard table and the set of group ids; that function balances, moves as few shards as any balanced table could, and disturbs neither joins nor leaves more than it must.
- **Linearizability by key** (`KvModel.dfy`, `KvServer.dfy`, `Locality.dfy`). The sequential specification `Step`, what it accepts of a correct server, the splitting of histories by key, and the theorem that the splitting is sound: a history of many keys is linearizable exactly when every class of the partition is.
- **Client protocols** (`PutClients.dfy`, `AppendClients.dfy`). Any number of optimistic clients interleave against a server that answers as `Step` allows, `ErrMaybe` included; what `CheckPutConcurrent` and `CheckAppends` demand holds of every interleaving.
- **Log checks** (`Applier.dfy`, `LogAgreement.dfy`). The readers of the apply channels, their checks, and what a run in which no check complains guarantees.
- **Tester plumbing** (`Group.dfy`, `Persister.dfy`). Partitioning a server group, and persisted state over server generations.
- **Sequential MapReduce** (`MapReduce.dfy`), with word count.
- **Support** (`Counting.dfy`, `Strings.dfy`, `Sorting.dfy`, `ClientResults.dfy`): sums and sizes of finite sets, the order of strings, sorting by its contract, and the counts clients hand back.

Where the code and what is said about it differ, the model follows the code:

- `AppendEntries` compares the fresh, zeroed `reply.Term` instead of the request's term and indexes an empty `Entries`. So no heartbeat is ever accepted: a peer past term 0 refuses it and a peer in term 0 panics, which the model treats as that peer halting (`Election.AcceptIsUnreachable`).
- `RequestVote` sets the reply's term only when it grants. So the step-down branch of the vote-reply goroutine is never taken (`Cluster.VoteReplyKeepsPeer`).
- Votes are counted only when an answer arrives, so a cluster of one peer never elects a leader (`Election.LonePeerNeverLeads`).
- `MakePartition` leaves a slot at zero when the number of servers is even, so its sides overlap except in two special cases (`Group.SplitDisjoint`), and with two servers and leader 1 the first side is no majority (`Group.SplitMajority`).
- `applierSnap` lets a server ingest a snapshot from behind, and if that leaves a later snapshot beyond every server, a different command at its index passes all checks (`LogAgreement.SafeToIngest`).
- `CheckPutConcurrent` compares totals as 64-bit versions, so from 2^64 on the check for unreliable servers can fail a correct server (`PutClients.UnreliableCheckIsSafe`).
- `OnePut` joins its two tests for a wrong value with `&&`, so it would accept another client's entry; that one can only be there once all 2^64 versions have been used (`PutClients.OwnCellIsRead`).
- `nCommitted` looks at a recorded apply error, but one is recorded only after `log.Fatalf` has ended the program.
- `Step` wants ErrVersion for a put to a missing key with a version other than 0, while the comments at src/kvsrv1/server.go:40-43 ask the server for ErrNoKey (`KvServer.ServedIsLegal`).
- `IsMember` agrees with the group map only while there are between 1 and `NShards` groups (`ConfigRuns.MembershipAgrees`).

Clocks, timeouts, random choices and the order of map iteration are parameters or nondeterministic choices; `log.Fatalf` and failing test checks are outcomes.

## Model

| member | source | states |
|---|---|---|
| Raft.VoteRule | src/raft1/raft.go:144-167 | A vote is granted exactly for a later term, or in the same term when no other candidate has it; a refusal changes nothing and answers term 0; a grant answers the request's own term and restarts the timer |
| Raft.StaleLeaderStepsDown | src/raft1/raft.go:363-424 | A leader whose heartbeat reaches a peer of a later term becomes a follower of that term with no vote |
| Raft.SameStepDown | src/raft1/raft.go:294-299 | A later term in a vote reply and in a heartbeat reply have the same effect: a follower of that term with no vote, and nothing else changed |
| Raft.RefusalChangesNothing | src/raft1/raft.go:363-369 | A heartbeat that reaches a peer past term 0 changes nothing there, the timer included, and is answered with the peer's term |
| Raft.AcceptanceForgetsVote | src/raft1/raft.go:370-381 | The accepting branch follows the sender's term and forgets the vote, so that any candidate of that term would be granted another |
| Raft.Raft.RequestVote | src/raft1/raft.go:144-167 | The handler's state change and reply are those VoteRule speaks of |
| Raft.Raft.Tick | src/raft1/raft.go:261-311 | An election starts only when due, restarts the timer, and asks every other peer once; Timing says when over whole runs |
| Raft.Raft.VoteReplied | src/raft1/raft.go:284-309 | The reply goroutine's change to the peer and to its election's count |
| Raft.Raft.AppendEntries | src/raft1/raft.go:363-382 | The handler as written, with the fresh reply term and the unchecked index |
| Raft.Raft.MakeHeartbeat | src/raft1/raft.go:395-410 | A heartbeat is made only while leading, with the current term and an empty entry list |
| Raft.Raft.AppendReplied | src/raft1/raft.go:412-423 | A reply of a later term makes the peer a follower of that term |
| Raft.Raft.GetState | src/raft1/raft.go:57-69 | Reports the current term and whether the peer leads |
| Cluster.InitInv | src/raft1/raft.go:330-347 | The cluster of new peers satisfies the election invariant |
| Cluster.TickKeeps | src/raft1/raft.go:261-311 | Starting an election keeps the invariant: every peer is asked once per election |
| Cluster.DeliverVoteKeeps | src/raft1/raft.go:144-167 | Executing a vote request keeps the invariant: one vote per voter and term |
| Cluster.CountDelivered | src/raft1/raft.go:301-306 | Counting an answered grant adds a voter that was not counted before |
| Cluster.VoteReplyKeepsPeer | src/raft1/raft.go:290-307 | The vote-reply goroutine changes neither term nor vote: it never steps down |
| Cluster.VoteRepliedKeeps | src/raft1/raft.go:284-309 | Counting a vote keeps the invariant |
| Cluster.HeartbeatsAreNeverAccepted | src/raft1/raft.go:363-382 | A heartbeat is refused past term 0 and panics its receiver in term 0 |
| Cluster.AppendReplyKeepsPeer | src/raft1/raft.go:417-422 | Stepping down forgets a vote only together with a strictly later term |
| Cluster.StepKeeps | src/raft1/raft.go:144-425 | Every step of the cluster keeps the invariant; terms never fall, votes stand within their term, and leaders lead until their term passes |
| Cluster.RunInv | src/raft1/raft.go:242-425 | The invariant holds at every moment of every run without restarts |
| Cluster.RunGrows | src/raft1/raft.go:242-425 | Between any two moments of a run terms never fall, votes are permanent within a term and counts only grow |
| Election.WinnerHasMajority | src/raft1/raft.go:301-305 | A leader's term was granted by a majority of distinct peers, itself included |
| Election.LeadsWithMajority | src/raft1/raft.go:301-306 | At every moment a peer leads its current term if and only if it stands in it and the grants that have come back, with its own vote, make a majority |
| Election.OneVotePerTerm | src/raft1/raft.go:158-163 | A peer gives its vote to at most one candidate of a term |
| Election.OneWinner | src/raft1/raft.go:301-305 | Two peers with a majority of the same term are one peer |
| Election.ElectionSafety | src/raft1/raft.go:144-310 | At most one peer ever leads in a term, over whole runs with any number of peers and any loss, delay or reordering (Raft paper, section 5.2 and Figure 3) |
| Election.LeadershipLasts | src/raft1/raft.go:242-310 | A leader of a term keeps leading exactly until its own term exceeds it |
| Election.VotesArePermanent | src/raft1/raft.go:144-167 | A vote never changes within its term |
| Election.HeartbeatsAgree | src/raft1/raft.go:395-410 | All heartbeats of one term name the same leader |
| Election.HeartbeatsComeFromLeaders | src/raft1/raft.go:395-410 | Every heartbeat carries the term in which its sender led when it sent it |
| Election.AcceptIsUnreachable | src/raft1/raft.go:367-381 | No reachable delivery takes the accepting branch, and exactly the deliveries to a peer in term 0 panic |
| Election.StoodMeansOpened | src/raft1/raft.go:261-277 | A peer has a vote count for a term if and only if exactly such an election was started earlier in the run |
| Election.ElectionsOpenOnce | src/raft1/raft.go:261-311 | Over a whole run a peer starts at most one election in a term and asks each other peer in it exactly once |
| Election.LonePeerNeverLeads | src/raft1/raft.go:279-305 | A cluster of one never elects a leader |
| Election.ElectionCanSucceed | src/raft1/raft.go:261-310 | Any peer of a cluster of two or more can become leader |
| Timing.TimerIsSince | src/raft1/raft.go:144-425 | A peer's timer stands at the last time it stood or granted a vote, and nothing else moves it |
| Timing.StandsWhenDue | src/raft1/raft.go:250-277 | A tick starts an election if and only if the peer does not lead and has neither stood nor granted a vote within the timeout |
| Timing.ElectionsAreSpaced | src/raft1/raft.go:250-277 | After standing or granting a vote a peer does not stand again before its timeout has passed |
| Election.CheckOneLeader | src/raft1/test.go:70-96 | One pass complains exactly when two seen peers lead one term, and otherwise returns the seen leader of the latest term |
| Election.SightingsAreSafe | src/raft1/test.go:70-85 | Asking the peers at different moments of a run never shows two leaders of one term |
| ShardSpec.ExtremesAreUnique | src/shardkv1/shardcfg/shardcfg.go:90-110 | Which groups are most and least loaded depends on the table and the ids alone |
| ShardSpec.MoveFinds | src/shardkv1/shardcfg/shardcfg.go:146-152 | The scan for a shard to move always finds one, and source and target differ |
| ShardSpec.MoveLowersEnergy | src/shardkv1/shardcfg/shardcfg.go:140-153 | Every move lowers the sum of the squared shard counts, so Rebalance ends |
| ShardSpec.AssignFair | src/shardkv1/shardcfg/shardcfg.go:131-138 | Assigning the unassigned shards leaves assigned shards in place and every receiving group within one of the least loaded |
| ShardSpec.MoveKeepsFair | src/shardkv1/shardcfg/shardcfg.go:140-153 | A group only gains or only loses shards, and the shard a move takes is still where it started, so no shard moves twice |
| ShardSpec.RebalanceBalances | src/shardkv1/shardcfg/shardcfg.go:122-154 | Afterwards every shard belongs to a group and group sizes differ by at most one |
| ShardSpec.SameLevels | src/shardkv1/shardcfg/shardcfg.go:261-278 | Two balanced tables over the same groups have group sizes within one of each other |
| ShardSpec.MinimalMovement | src/shardkv1/shardcfg/shardcfg.go:131-153 | No balanced table over the same groups is reached by moving fewer shards, from any starting table |
| ShardSpec.AssignInOrder | src/shardkv1/shardcfg/shardcfg.go:131-138 | Each unassigned shard, in index order, gets the smallest least loaded id of the table at that point, and assigned shards keep theirs |
| ShardSpec.LowestMoveFirst | src/shardkv1/shardcfg/shardcfg.go:140-153 | A group that gives up shards gives up its lowest-numbered ones |
| ShardSpec.RebalanceIsGreedy | src/shardkv1/shardcfg/shardcfg.go:122-154 | The result is the balanced table that greedy steps lead to, first unassigned shard first, then first shard of the most loaded to the least loaded group, and greedy steps lead to no other |
| ShardSpec.MoveIsJustified | src/shardkv1/shardcfg/shardcfg.go:140-153 | A shard is taken from a present group only for one that started at least two shards behind |
| ShardSpec.JoinStability | src/shardkv1/shardcfg/shardcfg.go:207-213 | From a balanced table, shards move only onto joining groups |
| ShardSpec.LeaveStability | src/shardkv1/shardcfg/shardcfg.go:215-221 | From a balanced table, exactly the shards of leaving groups move while a group remains |
| ShardSpec.AllGroupsServe | src/shardkv1/shardcfg/shardcfg.go:229-236 | In a balanced table every group owns a shard if and only if there are no more groups than shards |
| ShardConfig.Config.constructor | src/shardkv1/shardcfg/shardcfg.go:44-49 | A new configuration has number 0, no groups and no assigned shard |
| ShardConfig.Config.Copy | src/shardkv1/shardcfg/shardcfg.go:67-77 | The copy is equal and shares no storage |
| ShardConfig.Config.Analyze | src/shardkv1/shardcfg/shardcfg.go:80-111 | In any map order it returns the smallest id among the most loaded and among the least loaded groups with their counts |
| ShardConfig.Config.Rebalance | src/shardkv1/shardcfg/shardcfg.go:122-154 | The new table is a function of the old table and the set of ids; with no groups all shards are 0 |
| ShardConfig.Config.MoveShards | src/shardkv1/shardcfg/shardcfg.go:140-153 | The second loop ends with the levelled table |
| ShardConfig.Config.Join | src/shardkv1/shardcfg/shardcfg.go:156-183 | It succeeds exactly for a non-empty set of new groups that share no server with others or each other, is refused only over a present group, and is fatal only for an empty set or for new groups that share a server; a call that fails may have added some fitting groups |
| ShardConfig.Config.Leave | src/shardkv1/shardcfg/shardcfg.go:185-205 | It succeeds exactly for a non-empty list of distinct present groups; a refused call has removed those before the first missing one |
| ShardConfig.Config.JoinBalance | src/shardkv1/shardcfg/shardcfg.go:207-213 | Join, then Rebalance if it succeeded |
| ShardConfig.Config.LeaveBalance | src/shardkv1/shardcfg/shardcfg.go:215-221 | Leave, then Rebalance if it succeeded |
| ShardConfig.Config.IsMember | src/shardkv1/shardcfg/shardcfg.go:229-236 | Tells whether the group owns a shard |
| ShardConfig.Config.CheckConfig | src/shardkv1/shardcfg/shardcfg.go:238-279 | Accepts exactly the right number of groups, all present, every shard served and sizes within one |
| ShardConfig.RebalanceCopy | src/shardkv1/shardcfg/shardcfg.go:67-77 | Calls on a copy leave the original as it was |
| ConfigRuns.CallKeeps | src/shardkv1/shardcfg/shardcfg.go:156-221 | Any call keeps groups free of shared servers, counts its own success and settles the table when it succeeds |
| ConfigRuns.RunsAreSound | src/shardkv1/shardcfg/shardcfg.go:156-221 | After any sequence of calls, failed ones included, Num is the number of successes and groups share no server |
| ConfigRuns.AcceptedMeansBalanced | src/shardkv1/shardcfg/shardcfg.go:238-279 | Against its own groups CheckConfig accepts a configuration if and only if its table is balanced or it has no groups |
| ConfigRuns.SettledIsAccepted | src/shardkv1/shardcfg/shardcfg.go:238-279 | After a success CheckConfig accepts any listing of the configuration's own groups |
| ConfigRuns.MembershipAgrees | src/shardkv1/shardcfg/shardcfg.go:229-236 | After a success IsMember agrees with the group map if and only if there are 1 to NShards groups |
| ConfigRuns.JoinMovesOntoJoiners | src/shardkv1/shardcfg/shardcfg.go:207-213 | A successful JoinBalance on a balanced table moves shards only onto joiners |
| ConfigRuns.LeaveMovesLeaversOnly | src/shardkv1/shardcfg/shardcfg.go:215-221 | A successful LeaveBalance that keeps a group moves exactly the leavers' shards |
| ConfigRuns.CallsMoveLeast | src/shardkv1/shardcfg/shardcfg.go:122-221 | No successful call moves more shards than balance requires |
| KvModel.Partition | src/models1/kv.go:27-43 | One class per key in ascending key order, each the history's operations on that key in order |
| KvServer.ServedIsLegal | src/models1/kv.go:49-64 | Of a correct server's lists of gets and puts, with any replies to puts lost, Step accepts exactly those in which no put was answered ErrNoKey |
| KvServer.LegalMeansServed | src/models1/kv.go:49-64 | Step accepts a list if and only if it shows what a correct server, with replies lost, answers, except that it wants ErrVersion for a put to a missing key |
| Locality.LegalByKey | src/models1/kv.go:44-67 | An order is legal for all keys if and only if its restriction to each key is legal by Step |
| Locality.OneHeadMayLead | src/models1/kv.go:27-43 | Of two real-time orders, at least one head is preceded by nothing in the other |
| Locality.MapGivesKeys | src/models1/kv.go:27-67 | A linearizable history is linearizable on each key |
| Locality.KeysGiveMap | src/models1/kv.go:27-67 | Linearizations of the keys merge into one of the whole history |
| Locality.PartitionIsSound | src/models1/kv.go:27-67 | A history is linearizable against the map of keys if and only if every class of its partition is linearizable by Step from Init |
| PutClients.OnePut | src/kvtest1/kvtest.go:208-227 | It retries after ErrVersion only, ends at the first put that is OK or maybe with the version the get returned, fails exactly on a bad round, and every put names and carries the version read last |
| PutClients.OneClientPut | src/kvtest1/kvtest.go:259-284 | After any script of answers without a bad round the client has counted exactly the OK and the maybe answers and holds the version read last |
| PutClients.PutAnswers | src/models1/kv.go:57-64 | In every world a put is carried out if and only if it names the server's version, and is answered so or ErrMaybe |
| PutClients.GetAnswers | src/kvtest1/kvtest.go:214-225 | After its get a client holds the server's version, and puts again exactly after ErrVersion |
| PutClients.CountsAreAnswers | src/kvtest1/kvtest.go:276-281 | Over every run a client's counts are the numbers of its puts answered OK and answered ErrMaybe |
| PutClients.MaybesMayApply | src/kvtest1/kvtest.go:126-140 | Any number of puts answered ErrMaybe may all have been carried out |
| PutClients.NoWrongValue | src/kvtest1/kvtest.go:210-225 | In every reachable state the get of OnePut meets none of its fatal errors, the wrong-value check included |
| PutClients.OwnCellIsRead | src/kvtest1/kvtest.go:215-220 | In every run with a given number of applied puts a client told OK that reads the next version finds its own entry there, if and only if that number is at most 2^64: each version then has one writer |
| PutClients.StepKeeps | src/kvtest1/kvtest.go:208-227 | Every step keeps: the version counts applied puts, which lie between the OK answers and the OK and maybe answers together |
| PutClients.NoClientFails | src/kvtest1/kvtest.go:208-227 | No client of any interleaving stops with an error |
| PutClients.CheckPutConcurrent | src/kvtest1/kvtest.go:126-140 | The check compares the version with the totals as 64-bit numbers |
| PutClients.CheckReadsAValue | src/kvtest1/kvtest.go:127-128 | The get that opens the check finds a value unless no put was completed |
| PutClients.PutsAddUp | src/kvtest1/kvtest.go:126-140 | After all clients returned the version equals the OK puts modulo 2^64 if none was maybe, and is never above OK and maybe puts together |
| PutClients.UnreliableCheckIsSafe | src/kvtest1/kvtest.go:134-140 | The check for unreliable servers passes in every run with a given total of OK and maybe puts if and only if the total is below 2^64 or one below a multiple of it |
| AppendClients.OneClientAppend | src/kvtest1/kvtest.go:327-352 | It counts exactly the OK and the maybe answers, and each put is the list its get returned with an entry numbered by the appends that were over, at the version got |
| AppendClients.PutAnswers | src/models1/kv.go:57-64 | In every world an append is carried out if and only if it names the server's version, and is answered so or ErrMaybe; the client tries again exactly after ErrVersion |
| AppendClients.CountsAreAnswers | src/kvtest1/kvtest.go:340-347 | Over every run a client's counts are the numbers of its puts answered OK and answered ErrMaybe |
| AppendClients.StepKeeps | src/kvtest1/kvtest.go:327-352 | The list only grows, its length is one below the version and at most the number of attempts, and each client's entries climb and number at least its OK answers |
| AppendClients.CheckAppends | src/kvtest1/kvtest.go:361-390 | Accepts exactly lists whose entries climb per client, with length one below the version as ints, skips within the maybes and numbers within OK and maybes |
| AppendClients.CheckMeans | src/kvtest1/kvtest.go:361-390 | Said entry by entry: numbers count up per client, no more of them are missing than puts were answered maybe, and none is beyond the OK and maybe answers |
| AppendClients.LengthIsCompared | src/kvtest1/kvtest.go:379-381 | For every list a program can hold, the comparison of the ints is the comparison of length and version |
| AppendClients.AppendsAreAccepted | src/kvtest1/kvtest.go:327-390 | In every interleaving CheckAppends accepts the list once all clients have returned |
| Applier.Rfsrv.IngestSnap | src/raft1/server.go:175-205 | A snapshot whose index fits replaces the log and the position, any other changes nothing |
| Applier.Rfsrv.MakeSnap | src/raft1/server.go:149-153 | The snapshot holds the log up to the position, nil where nothing is logged |
| Applier.Tester.CheckLogs | src/raft1/test.go:125-146 | Reports a clash exactly if some server holds a different command at the index, and logs the command in any case |
| Applier.Tester.Apply | src/raft1/server.go:100-118 | One message of applier: fails exactly on a clash or a missing predecessor |
| Applier.Tester.ApplySnap | src/raft1/server.go:121-172 | One message of applierSnap: its failures, its new state and the snapshot it takes |
| Applier.Tester.NCommitted | src/raft1/test.go:180-206 | Counts the servers holding an index, and ends the test exactly if two hold different commands or some server has recorded an apply error |
| LogAgreement.PlainRunsAgree | src/raft1/server.go:100-118 | While no error is reported, all logs agree and none has a gap |
| LogAgreement.AgreedCommandPasses | src/raft1/server.go:100-118 | applier reports no error while servers log entries of one common log in order |
| LogAgreement.NoFalseAlarms | src/raft1/server.go:121-206 | While Raft delivers one agreed log, commands in order or snapshots of any prefix, applierSnap never reports an error and hands over prefixes of it at every tenth index |
| LogAgreement.SnapshotKeeps | src/raft1/server.go:175-205 | Ingesting a produced snapshot keeps every snapshot covered by some log if and only if each one is within its index or another server's position |
| LogAgreement.SnapRunsAgree | src/raft1/server.go:121-172 | While no error is reported and no ingested snapshot leaves another beyond every server, all logs and all snapshots agree and every log is gap-free |
| LogAgreement.SnapshotsAgree | src/raft1/server.go:145-155 | Two produced snapshots agree wherever both reach |
| LogAgreement.PreviousIsPresent | src/raft1/server.go:131-140 | The predecessor check never decides after the order check |
| LogAgreement.SafeToIngest | src/raft1/server.go:121-206 | A produced snapshot can be ingested so that everything stays in agreement however the servers go on, as long as later ingests keep to the same rule, if and only if it leaves no produced snapshot beyond every server |
| LogAgreement.UnreachedIsContradicted | src/raft1/server.go:121-172 | If a snapshot is beyond every server, the furthest server can log a command that no check reports and that contradicts the snapshot |
| LogAgreement.StaleSnapshotBreaksAgreement | src/raft1/server.go:121-206 | A run of one server from an empty log, with no reported error, in which a command logged after going back to its snapshot at a differs from its snapshot at b |
| Group.ServerGrp.Connect | src/tester1/group.go:155-171 | Exactly the links between the server and the listed connected servers are enabled, both ways |
| Group.ServerGrp.Disconnect | src/tester1/group.go:175-194 | Exactly the links between the server and the listed servers are disabled, both ways |
| Group.ServerGrp.Partition | src/tester1/group.go:302-312 | From any state, two listed servers are linked afterwards if and only if they are on one side, and nothing else changes |
| Group.MakePartition | src/tester1/group.go:283-300 | What each slot of the two arrays holds |
| Group.SplitCovers | src/tester1/group.go:283-300 | Every server is on a side, the first side's list is longer than half and the leader is on the second |
| Group.SplitDisjoint | src/tester1/group.go:283-300 | The sides are disjoint if and only if the number of servers is odd, or one of two exceptional leaders is given |
| Group.SplitMajority | src/tester1/group.go:283-300 | The first side names a strict majority of the servers, each once, if and only if there are not two servers or the leader is 0 |
| Group.SplitAscends | src/tester1/group.go:283-300 | The sides take the servers other than the leader in ascending order, the first side first |
| Group.CutOffLeader | src/tester1/group.go:282-312 | For an odd group, the two calls leave the leader able to call only a minority of the servers, and every server on the other side a majority |
| Group.Side | src/kvtest1/kvtest.go:242-250 | The splitting loop lists exactly the servers with the given coin |
| Group.RandomPartition | src/kvtest1/kvtest.go:238-251 | After a round all servers are connected and linked exactly when their coins agree |
| Persister.Persister.Copy | src/tester1/persister.go:30-37 | The copy reads the same and shares the buffers |
| Persister.Persister.Save | src/tester1/persister.go:53-58 | Save installs fresh copies and writes into no existing buffer |
| Persister.Persister.ReadRaftState | src/tester1/persister.go:39-43 | A read returns a fresh copy |
| Persister.Slot.StartServer | src/tester1/srv.go:34-47 | A new generation's persister is fresh and reads the durable state |
| Persister.Slot.ShutdownServer | src/tester1/srv.go:75-94 | Shutting down keeps the durable state, also through the killed service's last save |
| Persister.Slot.InstanceSave | src/tester1/persister.go:53-58 | A save changes the durable state exactly if the saving generation is live |
| Persister.RunScript | src/tester1/srv.go:34-94 | Over any script of starts, stops and saves by any generation, the slot keeps what is promised |
| Persister.DurableIsLastLiveSave | src/tester1/srv.go:34-94 | What is promised is what the last save by a then live generation wrote |
| Persister.StaleSavesChangeNothing | src/tester1/srv.go:34-94 | After a shutdown and a restart the new generation's persister reads what was last saved before, whatever old generations save in between and afterwards |
| MapReduce.BlockStandsAlone | src/main/mrsequential.go:69-73 | In sorted order equal keys are adjacent |
| MapReduce.ReduceGroups | src/main/mrsequential.go:68-84 | Each key is reduced exactly once, in increasing order, on all its values |
| MapReduce.Run | src/main/mrsequential.go:38-84 | Each emitted key is reduced exactly once, in increasing order, on an ordering of exactly its values |
| MapReduce.WcMapCounts | src/mrapps/wc.go:19-32 | Map emits a "1" per occurrence of a word and nothing else |
| MapReduce.EmittedCounts | src/mrapps/wc.go:19-32 | Over all files one value is emitted per occurrence of a word |
| MapReduce.ItoaReads | src/mrapps/wc.go:39 | The decimal digits written for a number, without leading zeros, read back as that number |
| MapReduce.WordCount | src/mrapps/wc.go:19-40 | The line of a word shows its number of occurrences over all files, and exactly the occurring words have a line |

## Left out

- AppendClients.AppendsAreAccepted: covers runs with fewer than 2^63 OK and maybe answers, because the clients count them in Go ints, which are unbounded here.
- AppendClients.CheckAppends: entry numbers and counts are unbounded; only the comparison of the length with the version is on 64-bit ints.
- LogAgreement.SnapRunsAgree: ingested snapshots must have been produced by some server and leave none beyond every server; SafeToIngest shows that the second part cannot be relaxed.
- KvServer.LegalMeansServed: the repository's key/value server is a stub, so the server meant is the one its comments describe, for one key.
- MapReduce.WordCount: the splitting of file contents into words is a parameter, so `strings.FieldsFunc` and `unicode.IsLetter` are not modelled.
- PutClients.OneClientPut: puts to a single key, which is the case CheckPutConcurrent checks.
- Integer width of Raft terms, votes and configuration numbers: they are unbounded here.
- Crash and restart of Raft peers: `persist` and `readPersist` are empty, so runs have no restart step.
- Log replication, `Start`, `Snapshot` and the key/value, shard and lock services: the repository has only stubs for them.
- labrpc's goroutines, delays and reply channels: they appear only as the rule that a call is executed and answered at most once.
- Liveness and timing: which elections happen and when.
- The linearizability search, hashing of keys to shards, JSON and gob encodings, annotations, plugin loading and files.
- `GidServers`, `SrvNames`, `PutAtLeastOnce` and other small helpers.
