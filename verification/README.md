# A verified model of the distributed DNS service

The service answers DNS queries in two planes. A Java control plane parses UDP and TCP queries, limits the
rate per client, and looks names up through two cache tiers. A Python data plane of several nodes owns the
records, sharded by first letter; the nodes elect a leader by highest address, forward and fan out reads, and
replicate writes. This project models that logic in Dafny and proves what holds over whole runs and over all
inputs. Nothing here was executed; every statement below is a contract that Dafny's verifier accepts.

| file | what it holds |
|---|---|
| `Text.dfy` | `strip`, `split`, lower and upper case, printing and parsing of numbers |
| `Records.dfy` | lines of a shard file, loading them, rewriting them, and when the two commute |
| `Storage.dfy` | a node's files and dictionary over any sequence of commits and a restart |
| `Replication.dfy` | log numbering, the type-2 line, followers' logs and tables over any run |
| `Shards.dfy` | the alphabet slices |
| `Membership.dfy` | one node as a value, and the effect of every handler on it |
| `Cluster.dfy` | the cluster as a step system, with its invariants and bounds |
| `Timers.dfy` | when a leader beats and when a follower gives it up |
| `Lookup.dfy` | local lookup, fan-out, forwarding, and the one map they refine |
| `DataPlane.dfy` | the classes `States`, `Raft`, `Reader`, `Writer`, proved against the functions above |
| `Lru.dfy`, `CacheTiers.dfy` | the LRU cache, the two cache servers, leases over any run |
| `CacheClient.dfy`, `CacheRuns.dfy` | one resolve call as a machine, any number of them interleaved, and what a run owes its callers |
| `RateLimiter.dfy` | the sliding window, with and without clock skew |
| `DnsWire.dfy` | the packet walks, the response, and an RFC 1035 decoder |
| `EndToEnd.dfy` | resolve calls over a whole cluster; a live resolution written back |

How the model is built:

- A handler call and a send are one atomic step each. A sent message may be delivered never, once or many
  times, in any order; a cache request may fail before or after it took effect.
- Runs are sequences of events applied by total functions, so every theorem about `Run` ranges over all
  schedules. An event that is not enabled changes nothing.
- Objects that the source updates in place are classes whose methods are proved equal, field by field, to the
  functions the theorems are about. Clocks, the order in which a set is iterated, the outcome of file writes
  and of live name resolution are parameters.
- Addresses are natural numbers; the text of an address field that is no IPv4 address is kept as text. Numbers
  are unbounded, except that the server hash wraps at 64 bits.

Where the code does not do what it appears to promise, the model keeps the code and states when the property
holds:

- Rewriting a shard file loses a new domain when the file does not end in a newline, and drops records of
  another type. `Records.CommitThenReload` gives the exact condition under which a commit survives a reload,
  and `Records.CommitIdempotent` the one under which committing twice is committing once.
- A replicated update loses trailing blanks and everything from its first semicolon on (`Replication.WireExact`),
  and a follower ignores updates of more than three fields that the leader commits (`Replication.EntriesAgree`).
- A repeated IP file leaves letters without an owner (`Cluster.OwnershipPartition`). A timeout moves the node to the
  slice it would have without its leader, which breaks the ownership unless that slice is the same one;
  `Cluster.TimeoutPartition` says exactly for which ranks it is. With two nodes it never is.
- With timestamps that step back by d in lock order, the rate limit holds for windows shorter by d
  (`RateLimiter.BoundUnderSkew`). For a limit of two or more it holds for no longer window
  (`RateLimiter.SkewBoundTight`); for a limit of one it holds for the full window whatever the skew
  (`RateLimiter.SingleQueryBound`).
- Replicated writes reach a follower's memory only, so a follower that restarts forgets them (`Replication.FollowerForgets`).
- A name like `a;b` is stored under `a`, so a later lookup of `a` can be served the wrong text. `CacheClient.ResolveExact`
  shows that this clash is the only way a resolve call goes wrong, and `CacheClient.ClashExact` which names clash.
- The flag words carry no AA bit although the comment beside them says so (`DnsWire.FlagBits`).
- A live resolution written back is found again only if it was asked for in lower case
  (`EndToEnd.WriteBackVisible`, `EndToEnd.WriteBackServed`), and never for a first character outside a-z (`Lookup.ClusterReads`).

## Model

| member | source | states |
|---|---|---|
| Cluster.LeadershipCoherent | data_plane/raft/_raft.py:33-93 | in every state of every run, under lost, repeated, reordered, malformed or made-up heartbeats and any timeouts, each node follows an address at least its own and leads exactly when it follows itself |
| Cluster.OwnershipPartition | data_plane/state.py:27-58 | for any list of IP files and any run without a timeout, every letter has exactly one owner in every reachable state, if and only if no file among the first 26 is repeated later or all name one node |
| Cluster.TimeoutPartition | data_plane/raft/_raft.py:82-93 | after any run without a timeout over a complete IP list, a timeout of a node keeps every letter with exactly one owner, if and only if the node leads or its slice survives its leader's removal, a condition on its place, its leader's place and the number of members |
| Cluster.DistinctOwnership | data_plane/raft/_raft.py:82-93 | the same for distinct IPs in terms of the node's rank, its leader's rank and the number of nodes; without a timeout such a list always keeps the ownership |
| Cluster.TimeoutStep | data_plane/raft/_raft.py:86-90 | in any cluster whose letters all have one owner, a timeout keeps that, if and only if it leaves the node's own letters as they were |
| Cluster.TimeoutOfTwo | data_plane/raft/_raft.py:82-93 | in a two-node cluster every timeout of a follower breaks the ownership |
| Cluster.TimeoutBreaksPartition | data_plane/raft/_raft.py:82-93 | a concrete run of any two nodes in which that happens |
| Shards.KeepsExactly | data_plane/state.py:86-120 | the slice of a rank among n nodes and its slice after the leader has left and the ranks are renumbered hold the same positions, if and only if the stated arithmetic condition on the two ranks and n holds |
| Membership.TimeoutShards | data_plane/raft/_raft.py:86-90 | a promoted node owns the slice of its place in the list without its leader |
| Cluster.PromotionRestores | data_plane/raft/_raft.py:66-102 | after any run without a timeout and the timeout of a follower, once the promoted node's heartbeats have reached every other survivor, each letter has exactly one owner among the survivors |
| Cluster.ShardsFollowRanks | data_plane/raft/_raft.py:66-68 | in every state of every run, made-up heartbeats and timeouts included, each node owns the slice of the rank and last rank it was told |
| Membership.BeatAssigns | data_plane/raft/_raft.py:55-68 | a heartbeat of an IPv4 sender gives its recipient the rank it carries, so that in a cluster of several nodes it owns a letter if and only if the letter lies in that rank's slice, and the higher of the two leaders |
| Membership.BeatRegisters | data_plane/raft/_raft.py:38-59 | an unknown sender is listed last with the next rank, a known one changes nothing, the other members are counted afresh, and a malformed heartbeat or a sender that is no address decides nothing else |
| Cluster.StrangerJoinsLast | data_plane/raft/_raft.py:49-53 | after any run without a timeout a stranger's first heartbeat makes it the last member, ranked behind all IP files |
| Membership.TimeoutForgets | data_plane/raft/_raft.py:82-93 | a leader does not time out; a follower that does follows itself, no longer lists its leader, and keeps its count of followers and its next rank |
| Membership.LoneNode | data_plane/state.py:51-58 | a node that finds no IP file leads alone and owns every letter |
| Timers.LiveLeaderKept | data_plane/raft/_raft.py:70-93 | a follower that gets each beat of a live leader within a delay never times out, if the delay and the gap between the leader's turns stay within 200 seconds |
| Timers.LateBeatExpires | data_plane/raft/_raft.py:70-93 | one second more, and a follower can time out although its leader beats on schedule |
| Cluster.CalmSettled | data_plane/raft/_raft.py:95-102 | without a timeout no heartbeat ever changes membership, ranks or shards, because every recipient is told the rank it already has |
| Cluster.FollowsHighest | data_plane/raft/_raft.py:55-64 | once a node has processed a heartbeat of the highest node it follows it in every later state of the run |
| Cluster.OnlyHighestLeads | data_plane/raft/_raft.py:61-64 | the highest node never loses leadership, and is the only leader once every other node has processed one of its heartbeats |
| Cluster.LeadershipChangesBounded | data_plane/raft/_raft.py:61-64 | in every run without a timeout of n distinct nodes, leadership changes at most n(n-1)/2 times |
| Shards.Tiling | data_plane/state.py:115-120 | for any alphabet size and any number of ranks, every position lies in the slice of exactly one rank, and slice sizes differ by at most one |
| Shards.OwnsLetter | data_plane/state.py:102-120 | a node owns a letter exactly when the letter's position lies in the slice of its rank |
| Shards.NoShards | data_plane/state.py:102-120 | in a cluster of several nodes rank 0, last rank 0 and ranks behind the last own nothing |
| Shards.PythonDivision | data_plane/state.py:115-116 | for the counts a heartbeat may carry, negative ones included, the quotient rounds down and the remainder takes the sign of the count |
| Shards.PythonSlices | data_plane/state.py:120-120 | negative bounds of the slice count from the end, and bounds outside the alphabet are cut off |
| Membership.RemovedRanks | data_plane/state.py:86-95 | removing a listed node leaves the others in order with ranks 1, 2, 3, ..., one fewer in all, and the node's own rank and shards read off the new list |
| Membership.BeatsReach | data_plane/raft/_raft.py:95-102 | a heartbeat round reaches every other member with that member's own rank, and nobody else |
| Membership.Registered | data_plane/state.py:33-58 | the members are exactly the listed IPs, each ranked by its last file |
| Lookup.ForwardingClimbs | data_plane/server.py:109-122 | however the cluster changes between hops, a forwarded read visits strictly higher addresses, so it never cycles and takes at most one hop per node |
| Lookup.SendRead | data_plane/raft/_raft.py:120-142 | the fan-out loop returns the first useful answer in member order, and N/A on a follower |
| Lookup.PeerDecision | data_plane/server.py:68-76 | asked with the PEER prefix, a node answers from its own shard only, for any text after the prefix |
| Lookup.OwnerLookup | data_plane/server.py:84-89 | an owner with a clean table answers with the stored address, and N/A if and only if it stores none |
| Lookup.BlankLine | data_plane/server.py:63-66 | a blank line is answered N/A |
| Lookup.FanOutAnswer | data_plane/raft/_raft.py:120-142 | fan-out returns the owner's answer whenever the owner is listed and reachable, and otherwise that answer or N/A, never a non-owner's copy |
| Lookup.ReadNeverStale | data_plane/server.py:84-122 | whoever is down, a read through any node returns the owner's value, a miss, or a freshly resolved address |
| Lookup.ReadRefinesMap | data_plane/server.py:91-107 | with all nodes reachable, a read through any node refines a lookup in the one map formed by the owners, and falls back to live resolution exactly when the owner lacks the name |
| Lookup.ClusterReads | data_plane/server.py:55-107 | the same in every reachable state of a run without a timeout over a complete IP list, with the owner exhibited; names outside a-z have no owner and are always resolved live |
| Records.CommitThenReload | data_plane/write/_writer.py:76-114 | loading a shard file after the rewrite equals loading it before and setting the update's key, if and only if the update has three fields and is no comment, no record of another type exists for the domain, and the domain has a line or the unterminated tail is blank |
| Records.CommitIdempotent | data_plane/write/_writer.py:92-110 | committing the same update twice leaves the file as after once, if and only if the domain had a line or the file ended in a newline |
| Records.RewriteLoad | data_plane/write/_writer.py:93-107 | for every list of lines, duplicates and malformed ones included, the rewritten lines load other domains as before and of the domain only the update's entry |
| Records.GluedLoad | data_plane/write/_writer.py:106-110 | a new domain appended to a file with a non-blank unterminated last line is not found by the next load |
| Records.UnterminatedFileLosesUpdate | data_plane/write/_writer.py:96-110 | a concrete file and update for which the reload loses the commit |
| Records.MoreFields | data_plane/write/_writer.py:82-87 | fields behind the third change neither key nor address and are committed all the same |
| Records.LaterLineWins | data_plane/read/_read.py:8-16 | where lines of a file disagree on a key, the last one wins |
| Storage.LaterFileWins | data_plane/read/_read.py:4-19 | where files disagree on a key, the one loaded last wins |
| Storage.RestartAgrees | data_plane/read/_read.py:2-27 | after any sequence of commits, some failing to open their file, every query is answered from memory as after a restart, in whatever order either load visits the shard files |
| Storage.CommitAllInSync | data_plane/write/_writer.py:76-117 | every sequence of commits keeps memory and files equal on all keys of the node's own shards, and keeps the files well filed |
| Storage.LoadAllLookup | data_plane/read/_read.py:4-19 | loading the shard files in any order gives each key what its own file holds |
| Replication.FollowersMirror | data_plane/write/_writer.py:27-69 | with one leader receiving all writes, log numbers are 1, 2, 3, ... without gap, and under any loss, repetition and reordering every follower's log is the leader's, entry by entry, as the wire carries it |
| Replication.LogGrows | data_plane/write/_writer.py:37-39 | no log number is ever reused: an entry once logged stays in every later state |
| Replication.FollowersSubMap | data_plane/write/_writer.py:41-46 | when every client write has two parts and every live name and address has no semicolon or trailing blank, each follower's log is a sub-map of the leader's |
| Replication.LogIsWrites | data_plane/write/_writer.py:32-39 | the n-th write of a run has log number n, and nothing else is ever logged |
| Replication.LineParts | data_plane/raft/_raft.py:104-112 | the type-2 line of any update splits back into its type, its number and the update without trailing blanks |
| Replication.WireExact | data_plane/write/_writer.py:45-45 | an update survives encoding and splitting if and only if it has no semicolon and no trailing blank |
| Replication.EntriesAgree | data_plane/write/_writer.py:47-52 | leader and follower store the same entry for an update of the follower's shards, if and only if it has exactly three fields |
| Replication.ReplicaFolds | data_plane/write/_writer.py:41-53 | in every run whose lines reach a follower in order and without loss, its table is its starting table folded with the delivered prefix of the leader's log, restricted to its shards |
| Replication.LeaderFolds | data_plane/write/_writer.py:65-69 | the leader's table is its starting table folded with all writes of the run whose file could be written |
| Replication.OwnerAndLeaderAgree | data_plane/write/_writer.py:41-114 | once every line is delivered in order, owner and leader both hold the address of the last write of a key of the owner's shards, if that write has three fields, no semicolon and a writable file; earlier and other writes may be anything, and so may the starting tables |
| Replication.LeaderStore | data_plane/write/_writer.py:65-114 | in every run the leader's files and table are its starting ones after all its commits in order, those of its writes and those that type-4 lines repeat |
| Replication.LeaderRestarts | data_plane/write/_writer.py:65-117 | so after any run, with any file writes failing, the leader answers every query as after a restart that reloads its files in any order |
| Replication.LastWriteSurvives | data_plane/write/_writer.py:65-117 | and the last write of a key of its own shards is what it answers after the restart |
| Replication.FollowerFrame | data_plane/write/_writer.py:41-53 | replication never touches a follower's files, acks or numbering |
| Replication.FollowerForgets | data_plane/write/_writer.py:41-53 | so a follower that restarts has forgotten every replicated write and answers from the files it had at first |
| Replication.ForeignKeysUntouched | data_plane/write/_writer.py:50-52 | whatever lines reach it, a follower's table never changes on keys of other nodes' shards |
| Replication.LongUpdateSplits | data_plane/write/_writer.py:47-52 | an update of four or more fields is committed by the leader and ignored by every follower |
| Replication.AcksCounted | data_plane/write/_writer.py:71-74 | the leader's ack count of an entry is the number of ack lines for it |
| Replication.ReplicaSets | data_plane/write/_writer.py:45-52 | whatever key a follower sets for an update of any form, the leader's commit sets too |
| DataPlane.States.constructor | data_plane/state.py:12-58 | the booted node, from IP files in order, blank and unreadable ones skipped, repeated ones re-ranked in place |
| DataPlane.States.UpdateRecordSet | data_plane/state.py:102-120 | the shards are the slice of the node's rank, for any rank and count, negative ones included |
| DataPlane.States.RemoveNode | data_plane/state.py:86-95 | the node is gone, the others are renumbered in insertion order, and rank, count and shards follow |
| DataPlane.Raft.BeatHandler | data_plane/raft/_raft.py:33-68 | the whole new state after a heartbeat of any kind: timer, registration, leader and shards |
| DataPlane.Raft.Heartbeat | data_plane/raft/_raft.py:70-93 | one turn of the timer loop: when a leader beats, that the next beat is due 100 seconds later, that a follower promotes itself after 300 seconds of silence, and the state it then has |
| DataPlane.Raft.SendBeat | data_plane/raft/_raft.py:95-102 | one heartbeat per other member, carrying that member's own rank |
| DataPlane.FollowersReached | data_plane/raft/_raft.py:144-149 | a broadcast line goes to exactly the listed nodes other than the sender |
| DataPlane.FollowersOnce | data_plane/raft/_raft.py:144-149 | each of them is sent it exactly once |
| DataPlane.FollowersInOrder | data_plane/raft/_raft.py:144-149 | in the order of the list |
| DataPlane.ReadableInOrder | data_plane/state.py:41-49 | the IP files are taken in order, blank and unreadable ones left out |
| DataPlane.ReadableCount | data_plane/state.py:41-49 | and all the others count |
| DataPlane.Reader.constructor | data_plane/read/_read.py:2-19 | the nested load loops leave the table in which later lines and later files win |
| DataPlane.Reader.AddFile | data_plane/read/_read.py:8-16 | the loop over one file overlays the table that file loads, skipping blank, comment and malformed lines |
| DataPlane.Reader.RecordResponse | data_plane/read/_read.py:22-27 | the table's answer for the normalised key, N/A for a missing key or a foreign first letter |
| DataPlane.Writer.RewriteFile | data_plane/write/_writer.py:92-110 | the rewriting loop produces the file that the reload theorems are about |
| DataPlane.Writer.CommitHandler | data_plane/write/_writer.py:76-117 | files and table after a commit, and nothing changed for an unknown, malformed or unwritable entry |
| DataPlane.Writer.WriteHandler | data_plane/write/_writer.py:27-63 | the whole new write-side state for every message type, and exactly what is sent to whom |
| DataPlane.Writer.NewRecord | data_plane/write/_writer.py:119-130 | a resolved miss takes the next log number, is broadcast and committed, and its address returned; a failed resolution, or one before the first write message, changes nothing and gives N/A; a name with an empty first field is logged and gives N/A |
| Lru.Residency | caches/l2_cache.py:35-46 | after any trace a key is present if and only if fewer than capacity distinct other keys were set or hit since its own last set or hit |
| Lru.HoldsNewest | caches/l2_cache.py:35-46 | the cache is always the capacity most recently used keys in order of use |
| Lru.ReturnsLastSet | caches/l1_cache.py:30-41 | a present key returns the value it was last set to |
| Lru.Inclusion | caches/l1_cache.py:23-44 | for any trace the smaller of two caches is the larger restricted to the keys it still has, same order and values, although a missed get inserts nothing |
| Lru.LRUCache.Get | caches/l1_cache.py:30-34 | a hit returns the value and becomes most recent, a miss changes nothing |
| Lru.LRUCache.Set | caches/l1_cache.py:36-41 | the entry becomes most recent and the oldest leaves if there are too many |
| CacheTiers.LeaseExclusive | caches/l2_cache.py:56-85 | with a non-decreasing clock, two grants for one key with no SET of it between are more than five seconds apart |
| CacheTiers.WaitingJustified | caches/l2_cache.py:69-76 | a client is told to wait only while an unanswered grant at most five seconds old exists, and that grant is exhibited |
| CacheTiers.LeasesDisjoint | caches/l2_cache.py:62-85 | in every run leased keys and cached keys are disjoint |
| CacheTiers.HitPopsNothing | caches/l2_cache.py:65-67 | so removing the lease on a hit never removes anything |
| CacheTiers.L1Answers | caches/l1_cache.py:77-102 | after any commands a GET answers with the value last SET if and only if the key is resident, and N/A otherwise |
| CacheTiers.L2Answers | caches/l2_cache.py:56-85 | after any requests a GET answers with the value last SET if and only if the key is resident, and with a lease reply otherwise |
| CacheTiers.LeaseExact | caches/l2_cache.py:56-87 | the text sent back for a GET of any name, in any run with a non-decreasing clock: the value last SET while it is cached, else LEASE;WAITING if and only if a lease of at most five seconds is out and unanswered, else LEASE;GRANTED |
| CacheTiers.L1Text | caches/l1_cache.py:77-102 | the text sent back for a GET of any name: the value last SET while it is resident, else N/A |
| CacheTiers.ReadExact | caches/l2_cache.py:60-82 | which lines are commands: GET; and SET; in any case, the latter with another semicolon |
| Text.SpaceCodes | caches/l2_cache.py:63-63 | which characters strip removes |
| CacheTiers.FixedReplies | caches/l2_cache.py:84-87 | SET is answered OK, and a line that is no command ERROR without any effect, on both servers |
| CacheTiers.SetStores | caches/l2_cache.py:78-83 | what a SET line stores for any name and value: the key ends at the first semicolon of the name |
| CacheTiers.SetLine | caches/l2_cache.py:78-83 | so it is read as the key and value the client wrote, if and only if the key has no semicolon and neither has blank margins |
| CacheTiers.L1Server.ProcessCommand | caches/l1_cache.py:77-102 | the new cache and the reply for every line |
| CacheTiers.L2Server.ProcessCommand | caches/l2_cache.py:56-87 | the new cache, the new lease table and the reply for every line and clock reading |
| CacheClient.CachesTellTheTruth | dns-control-plane/src/main/java/com/dns/cache/CacheClient.java:49-120 | for any names that do not clash, under any interleaving of any number of calls, evictions, lease expiries, lost sends, lost replies and interrupts, every cached entry was stored from the data plane's answer for a requested name of that server, and every call holds its own answer |
| CacheClient.ResolveAnswers | dns-control-plane/src/main/java/com/dns/cache/CacheClient.java:49-120 | no call, whatever its name, fetches more than once or polls more than thirty times, and without clashes every finished call returned the data plane's answer or the empty string |
| CacheClient.ResolveExact | dns-control-plane/src/main/java/com/dns/cache/CacheClient.java:49-120 | over any set of names, all calls of all runs return the data plane's answer or the empty string, if and only if no two of the names clash |
| CacheClient.ClashExact | dns-control-plane/src/main/java/com/dns/cache/CacheClient.java:62-62 | which names clash: exactly `a;b` with a reader of `a` on a shared server, when the text stored for it is taken for a hit and is not the reader's answer |
| CacheClient.SemicolonClashes | caches/l2_cache.py:78-83 | two concrete names and addresses that clash |
| CacheClient.CachedAnswers | dns-control-plane/src/main/java/com/dns/cache/CacheClient.java:49-120 | for trimmed names without semicolons every cached value is the data plane's answer for its key, in every run |
| CacheClient.CallEnds | dns-control-plane/src/main/java/com/dns/cache/CacheClient.java:49-111 | whatever its sends give back, a call is finished after at most 35 of them |
| CacheClient.CallHistory | dns-control-plane/src/main/java/com/dns/cache/CacheClient.java:49-111 | the next send of a call is read off the replies it has had and the other way round: L1, L2, up to thirty polls while it is told to wait, a fetch to keep the value exactly after a grant or without a lease, and a fetch to return it exactly after a failed, foreign, interrupted or thirtieth poll |
| CacheClient.KeptValueIsStored | dns-control-plane/src/main/java/com/dns/cache/CacheClient.java:66-73 | a value fetched to be kept goes to L2, then to L1, and is then returned |
| CacheRuns.ResultOrigin | dns-control-plane/src/main/java/com/dns/cache/CacheClient.java:49-120 | in every run, what a call returns it got at one of its own steps: without a fetch, a hit that a cache sent it, and otherwise the data plane's reply to its one fetch, empty if that was lost, blank or N/A |
| CacheRuns.EmptyAnswer | dns-control-plane/src/main/java/com/dns/cache/CacheClient.java:49-120 | a finished call returned the empty string only if its fetch was lost or the data plane's reply was blank or N/A |
| CacheRuns.CompleteAnswer | dns-control-plane/src/main/java/com/dns/cache/CacheClient.java:49-120 | a finished call whose fetch was not lost returned exactly the data plane's answer, for names that do not clash |
| CacheRuns.PutTakesEffect | dns-control-plane/src/main/java/com/dns/cache/CacheClient.java:69-70 | a SET that reaches its server leaves the entry there, whatever the server held and whoever else is at work |
| CacheRuns.CachedIsServed | dns-control-plane/src/main/java/com/dns/cache/CacheClient.java:51-64 | a value held by L1 ends the next call for the name, and one held by L2 goes to L1 and then ends it, also for a call that polls |
| CacheRuns.HitExact | dns-control-plane/src/main/java/com/dns/cache/CacheClient.java:147-149 | every text but a blank one, N/A and a lease is a hit |
| CacheRuns.ColdThenWarm | dns-control-plane/src/main/java/com/dns/cache/CacheClient.java:49-74 | on cold caches a lone call fetches once and returns the data plane's reply, and the next call for the name is answered by L1 alone |
| CacheRuns.GrantFetches | dns-control-plane/src/main/java/com/dns/cache/CacheClient.java:66-73 | a call that is sent LEASE;GRANTED fetches next, and to keep the value |
| CacheRuns.GrantedFetchesApart | caches/l2_cache.py:69-76 | in any run of any number of calls with a non-decreasing clock, two calls granted the lease of one key by one server, with no SET of it reaching the server between, are more than five seconds apart |
| CacheRuns.ServerIsTrace | caches/l2_cache.py:56-87 | an L2 server of such a run is the one of the lease laws, fed with the requests that reach it |
| CacheClient.Resolve | dns-control-plane/src/main/java/com/dns/cache/CacheClient.java:49-86 | the code of resolve, fed with the outcomes of its sends, takes exactly the machine's steps and returns its result |
| CacheClient.WaitForLease | dns-control-plane/src/main/java/com/dns/cache/CacheClient.java:88-111 | so does the polling loop |
| CacheClient.SelectServer | dns-control-plane/src/main/java/com/dns/cache/CacheClient.java:122-131 | a key always goes to the same listed server, picked by the 64-bit FNV-1a fold, and to the leader for an empty list |
| CacheClient.FnvValues | dns-control-plane/src/main/java/com/dns/cache/CacheClient.java:122-131 | the published FNV-1a values of the empty string and of "a", and the servers they select out of three |
| CacheClient.FnvApart | dns-control-plane/src/main/java/com/dns/cache/CacheClient.java:124-128 | keys that differ in one character hash apart |
| RateLimiter.BoundUnderSkew | dns-control-plane/src/main/java/com/dns/dns/RateLimiter.java:45-65 | if lock-order timestamps never fall more than d behind, every closed window of length window - d holds at most maxQueries admitted requests |
| RateLimiter.SkewBoundTight | dns-control-plane/src/main/java/com/dns/dns/RateLimiter.java:46-62 | for every window, every limit from two and every skew from one, some run admits one request too many in an interval one longer, or at a single instant when the skew exceeds the window |
| RateLimiter.SingleQueryBound | dns-control-plane/src/main/java/com/dns/dns/RateLimiter.java:49-63 | with a limit of one every closed window of full length holds at most one admitted request, whatever the timestamps do |
| RateLimiter.ExactWithoutSkew | dns-control-plane/src/main/java/com/dns/dns/RateLimiter.java:49-63 | with non-decreasing timestamps the deque is the admitted history of the window, and a request is refused if and only if maxQueries were admitted in it |
| RateLimiter.LimiterBound | dns-control-plane/src/main/java/com/dns/dns/RateLimiter.java:39-65 | the bound holds for each client of the shared limiter, whatever the others send |
| RateLimiter.ClientsIndependent | dns-control-plane/src/main/java/com/dns/dns/RateLimiter.java:47-49 | a client's deque depends on its own requests only |
| RateLimiter.RateLimiter.IsRateLimited | dns-control-plane/src/main/java/com/dns/dns/RateLimiter.java:45-65 | the new deques and the verdict of one call |
| DnsWire.WalksAgree | dns-control-plane/src/main/java/com/dns/dns/DnsRequestParser.java:36-92 | on every packet with labels of 1 to 191 bytes both label walks find the same end of the name, and the zero-byte scan finds it too if and only if no label contains a zero byte |
| DnsWire.Echo | dns-control-plane/src/main/java/com/dns/dns/DnsResponseBuilder.java:35-103 | the response to every such query parses back to the domain spelled by its labels, the query type after the terminator, and the same id |
| DnsWire.NameSpelled | dns-control-plane/src/main/java/com/dns/dns/DnsRequestParser.java:60-68 | the parsed name, split at its dots, has one part per label, and each character is the packet's byte at that place of that label in lower case |
| DnsWire.DomainExact | dns-control-plane/src/main/java/com/dns/dns/DnsRequestParser.java:36-71 | for every packet, malformed ones included: the labels up to the first byte that is none, dotted and in lower case, and nothing for a short packet, a packet without labels or a label that overflows it |
| DnsWire.QTypeExact | dns-control-plane/src/main/java/com/dns/dns/DnsRequestParser.java:78-92 | the query type is the two bytes behind the name, high byte first, and -1 when the packet ends before them |
| DnsWire.ResponseDecodes | dns-control-plane/src/main/java/com/dns/dns/DnsResponseBuilder.java:47-103 | an RFC 1035 decoder reads the response as the query's id and question and, through the compression pointer, one A record for the queried name with the four octets, or NXDOMAIN without records |
| DnsWire.ResponseBytes | dns-control-plane/src/main/java/com/dns/dns/DnsResponseBuilder.java:47-103 | the response byte by byte, with 60 seconds to live |
| DnsWire.NoResponse | dns-control-plane/src/main/java/com/dns/dns/DnsResponseBuilder.java:35-103 | there is none if and only if the query holds no complete question or the address does not resolve |
| DnsWire.FlagBits | dns-control-plane/src/main/java/com/dns/dns/DnsResponseBuilder.java:53-56 | in the flag word of every response QR, RD and RA are set, AA is clear, and the response code is 0 with an address and 3 without |
| DnsWire.ParseDomain | dns-control-plane/src/main/java/com/dns/dns/DnsRequestParser.java:36-71 | the loop computes the dotted lower-case name, and nothing for short, overflowing or empty names |
| DnsWire.ParseQType | dns-control-plane/src/main/java/com/dns/dns/DnsRequestParser.java:78-92 | the loop computes the word after the name, and -1 when it is not there |
| DnsWire.BuildResponse | dns-control-plane/src/main/java/com/dns/dns/DnsResponseBuilder.java:35-109 | the loop and the appends produce the response the decoding theorem is about, and nothing for short or unterminated queries or unresolvable addresses |
| EndToEnd.FrontEndAnswers | dns-control-plane/src/main/java/com/dns/cache/CacheClient.java:49-120 | over any reachable cluster without timeouts, every finished resolve call returned the record of the one owner, or where there is no record the live address, or the empty string, and never N/A; the empty string only if its fetch was lost or there is neither record nor live address |
| EndToEnd.SemicolonFreeNames | data_plane/server.py:59-78 | such a data plane strips its requests and replies, so names without semicolons never clash over it |
| EndToEnd.ReadsReturnLastWrite | data_plane/server.py:84-122 | after any writes to the leader, all delivered in order, a read through any node of any reachable cluster without timeouts returns the address of the last write of the name's key, whatever the tables held before |
| EndToEnd.WriteBackServed | data_plane/write/_writer.py:119-127 | so a live resolution of a lower-case name, once delivered, is what every node answers until the key is written again |
| EndToEnd.WriteBackVisible | data_plane/write/_writer.py:119-127 | a live resolution is stored alike by the leader and by the owner that receives it, and right after it the owner answers with it, if and only if the name was asked for in lower case |
| EndToEnd.ParsedNamesLower | dns-control-plane/src/main/java/com/dns/dns/DnsRequestParser.java:68-70 | the DNS front end only asks in lower case |

## Left out

- Sockets, threads, event loops, Spring wiring, logging and the JSON state file: plumbing around the steps modelled here.
- Failover after the leader dies, nodes that join through heartbeats, and `addNodes`: ranks and counts are not kept in step there, so no clean invariant holds; leadership coherence is proved for those runs too.
- Ack counting as a commit gate: the leader commits before any ack, so acks decide nothing; they are counted in the state and no more.
- The text of a heartbeat: it is taken as parsed, malformed or as its three fields, and sent as such.
- Text outside ASCII: `strip` and case changes follow the ASCII rules, and packet bytes become characters one by one.
- Carriage returns inside record files, which Python's text mode turns into newlines, and a write that fails half way.
- IPv6 addresses and host names given to the response builder: an address is four octets, blank, or unresolvable.
- Batch refresh, crawling, the access list, zone files and `state_dynamic.py`: external lookups, configuration, or the same shard code again.
- EndToEnd.ReadsReturnLastWrite: assumes that written addresses are neither empty nor N/A, because readers take those for a miss, and that updates carry no semicolon.
- Storage.RestartAgrees: assumes that every shard file ends in a newline or blanks and that each domain has one record type, because Records.CommitThenReload shows that the statement fails without either.
- Replication.OwnerAndLeaderAgree: assumes that no type-4 line re-commits an old entry on the leader, because no code of the repository sends one.
- Names with a line break in them, which the client would send to the caches and the data plane as several lines: a request is one line here.
- Cluster.LeadershipChangesBounded: holds without timeouts; each promotion opens a new round of changes.
