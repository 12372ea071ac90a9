# TTObserverV1: what the observer keeps

TTObserverV1 crawls a torrent tracker by ascending numeric ids. Several processes may run it; they elect
one master over NATS, and only the master crawls. The master reads the next id to try from a shared
database (Redis or SQL), looks at a window of ids, records every torrent it finds with its files, metadata
and poster, announces it, and stores the id after the last hit. Producers keep side indexes from info hash
to torrent name. A migration tool copies one database into another.

The project models these parts and proves what they are for. It is laid out as the program is:

- `Election`, `ClusterNode` (cluster.go). The election is a step model of any number of processes around
  one broker, with every interleaving of their broker calls, crashes, detachments and reconnections. `ClusterNode.Cluster`
  is the object with its subscription fields and its loop; every step it takes is a step of the model.
- `Store` says what a database promises, without layout. `RedisServer` is the handful of Redis commands,
  with their type errors; `RedisStore` and `RedisDatabase` are shared/redis/db.go over a flat keyspace;
  `SqlStore` and `SqlDatabase` are shared/sqldb/db.go over tables. Both are proved to implement `Store`,
  `RedisRuns` and `StoreEquivalence` carry that to whole runs and to each other, and `RedisRace`
  interleaves calls of AddTorrent command by command.
- `Observer`, `ObserverRuns` (observer.go). The tick, the check of one id and the notification, over a
  database that keeps the promise of `Store`; `CrawlOnStores` puts the same check on either real database,
  and `Failover` composes the tick with the election.
- `HashIndex`, `RedisSink`, `RedisIndex`, `SqlSink`, `LmdbSink`, `SinkAgreement`: the three hash producers.
- `Migration`, `MigrateRedis`, `MigrateSql` (cmd/migrate.go), `Poster` (shared/torrent.go), `Announce`
  (producer/shared.go), and `Decimal` for strconv.

## Main results

- At most one process that was neither stopped nor cut off from the broker is between winning its proposal
  and giving up the mastership, in every state of every run, **if and only if** node ids are pairwise
  distinct, no request times out while a live peer still owes an answer, and no process that was cut off
  reconnects between its request and the end of its mastership, or there is one node
  (`Election.ExclusionExactly`).
- The stored crawl offset never goes back in any multi-node run **if and only if** all this holds up to the
  end of StartFn, and a master that was stopped or cut off leaves StartFn before the next one enters it, or
  there is one node (`Failover.OffsetExactly`). Under the same condition an announced id is checked again only after the tick
  that announced it failed (`Failover.AnnouncementsAdvance`). Runs without stops and cuts meet the third
  part by themselves (`Failover.UndetachedRuns`).
- Redis serves a torrent name as promised in every run **if and only if** the name is not `f_` or `m_`
  followed by an int64 (`RedisRuns.UsableExactly`): the key families otherwise run into each other.
- The two databases cannot be told apart by a client, up to a one-to-one renaming of ids
  (`StoreEquivalence.ObservationallyEqual`).
- Interleaved and cut-off calls of AddTorrent never bind an id to two names (`RedisRace.IdsNeverShared`).
  A name has one id, the same in both directions of the index, at the end of a run without cut-offs **if
  and only if** no call missed it while another was between its own miss and its idx write
  (`RedisRace.RaceExactly`); otherwise it has two, from an empty database too (`RedisRace.DoubledFromStart`).
  Whatever was cut off, at rest the two directions agree **if and only if** of the ids whose idx was written
  the last one alone got its reverse entry (`RedisRace.RestOneToOneExactly`).
- Over any run of the crawler on either database, reading a torrent's files gives exactly those ever seen
  (`CrawlOnStores.RedisHoldsUnion`, `CrawlOnStores.SqlHoldsUnion`), and each file is announced as new in
  exactly one notification (`ObserverRuns.FlaggedOnce`). Any number of ticks, whatever fails in them, is one
  long window over the ids they checked (`ObserverRuns.TicksAreOneWindow`), and without faults such a run
  (`ObserverRuns.CrawlIsRun`).
- Stored posters match their URLs after every check **if and only if** no check disturbs one, whatever calls
  failed and however much of the metadata got through (`ObserverRuns.ThroughoutExactly`).
- Redis and SQL hash producers hold the same pairs after every send of a run **if and only if** every send
  finds the previous hashes of its name and touches none of another's (`SinkAgreement.AgreeExactly`); LMDB
  contains them (`SinkAgreement.IndexContains`).
- Migration brings over exactly the record with the greatest id of each name, from any listing with distinct
  ids and whatever the sort and the order a map was walked in: into SQL always (`MigrateSql.MigrationExactly`),
  into Redis **if and only if** no such record is named like the files key of a copied id, or like the metadata
  key of one whose metadata does not repeat the record (`MigrateRedis.MigrationExactly`).
  From a database without doubled names SQL gets the very same store (`MigrateSql.RedisToSql`); Redis loses
  the lookup by name (`MigrateRedis.MigratedReads`).

## Where the code falls short of what one might expect

Each of these is a lemma about the code as it is.

- A master that is stopped, or cut off from the broker, is told nothing: Stop drops its subscriptions, and
  SuspendFn is only reached once StartFn has returned. It goes on crawling beside its successor and can store
  a smaller offset over a greater one, however sound the election (`Failover.DetachedGoesOn`,
  `Failover.StrayRegresses`).
- The client reconnects for ever and restores its subscriptions. A process that was cut off after its request
  and reconnects in time ends up as master beside its successor, although nobody entered beside a detached
  master, and they store smaller offsets over greater ones (`Election.ComesBack`, `Failover.ComebackRegresses`).
- A Redis target of a migration finds no copied torrent by name, takes the first one that is added again
  for a new one, and draws its id from the last torrent copied rather than the greatest, so whether an
  existing id is overwritten depends on the order a Go map was walked in (`MigrateRedis.AddedAgain`,
  `MigrateRedis.NextIdExactly`).
- Without a stored offset Redis answers 0 and SQL fails, which ends the crawl
  (`StoreEquivalence.OffsetAgreesExactly`).
- SQL AddTorrent overwrites the error of each file insert by the next, so lost files go unreported
  (`SqlDatabase.Database.AddTorrent`); the SQL producer reports a failed transaction as a success whenever
  it could be rolled back (`SqlSink.DB.ExecDB`).
- A poster whose URL was recorded while its image was not stored stays wrong for as long as the tracker keeps
  naming that URL and the recorded one can be read (`ObserverRuns.CoherentExactly`, `ObserverRuns.RepairedExactly`,
  `ObserverRuns.StaleStays`).
- A hash record that sits on the hash map's own key pollutes it (`RedisIndex.PollutedExactly`). A Redis send
  whose question for the previous hashes is lost strands them (`RedisIndex.LostQuestionStrands`), and no
  later send takes a stranded hash out unless it carries that hash itself (`RedisIndex.StrandedForGood`).

## Assumptions

The broker handles subscriptions and publications one at a time and drops a subscription together with its
queued messages; a process that crashed does not come back under its old number, one that was stopped or cut
off goes on where it stands, and where it may stand when it reconnects is a parameter. What is sent to it
meanwhile is lost. Redis runs one command at a time. SQL tables have the keys that the ON CONFLICT clauses and the conf/example.db schema
name, and draw a new id per inserted row. A call that fails has no effect, except where partial effects are
the subject (`RedisRace`, `SqlDatabase`, `MigrateSql`, `RedisSink`, and the metadata and torrent writes of
`Observer`). Bencode, the digests, image decoding, HTML extraction
and templates are function parameters; clocks, jitter and the network become the order of steps or
outcome parameters. Node numbers are the model's own names for processes; the random ids are data.

## Model

| member | source | states |
|---|---|---|
| Election.ExclusionExactly | cluster.go:117-134 | in every run at most one live node is between winning and giving up the mastership, iff ids are distinct, requests wait for every live peer and nobody cut off reconnects between its request and the end of its mastership; or there is one node |
| Election.MutualExclusion | cluster.go:117-134 | the sufficient half: subscribing before asking, and staying subscribed throughout, excludes a second live master in every reachable state |
| Election.InvStep | cluster.go:117-159 | every step keeps: the broker's tables match where each process stands, and of two nodes that asked the later one reached the earlier one's subscription |
| Election.StaysBlocked | cluster.go:120-124 | a node that cannot win before it hears from a peer still cannot after any step, unless one of the two left |
| Election.PingExactly | cluster.go:90-99 | a connected idle process can have its ping answered iff a subscribed master carries another id, and can miss it iff none does or requests do not wait |
| Election.ProposalExactly | cluster.go:121-131 | a connected process that waits loses iff an answer came, and can win iff none came and none is owed by a peer with another id or requests do not wait |
| Election.DeliveryAnswers | cluster.go:140-147 | a peer that handles a proposal answers it iff the two ids differ |
| Election.TwoMasters | cluster.go:140-147 | for any two nodes with the same id, or requests that give up early, a concrete run ends with both as master |
| Election.ComesBack | cluster.go:78-82 | for any two nodes, however sound the election otherwise: if a process may reconnect after its request and before the end of StartFn, a run ends with two connected masters, although nobody entered while a detached one was in StartFn |
| Election.ComesBackLeaving | cluster.go:78-82 | one that reconnects after StartFn, but before it unsubscribed, stands beside its successor |
| Election.DetachedBesideMaster | cluster.go:161-170 | for any two nodes, however sound the election, a run ends with both in StartFn, the first detached |
| Election.BecomesMaster | cluster.go:68-134 | a node whom no subscriber would answer can always become master without anyone else moving |
| Election.ErrorCount | cluster.go:90-106 | errorCount is the number of missed pings since the last answered one, modulo 2^32; other errors neither count nor reset |
| Election.ProposesExactly | cluster.go:95-99 | a missed ping leads to a proposal iff the wrapped count reaches MasterRetryCount, and never before max(1, MasterRetryCount) misses |
| Election.LiveMasterBlocksProposals | cluster.go:90-99 | while a live master stays subscribed no other idle node misses a ping or subscribes to propose, over any run |
| ClusterNode.RunsFollowProgramOrder | cluster.go:68-134 | in every cluster run each node's own steps are a run of the program order and lead where the model says it stands |
| ClusterNode.StepsObey | cluster.go:117-134 | every outcome of asMaster is a path of the election model back to idle, and StartFn runs iff it subscribed, heard nobody and announced itself |
| ClusterNode.TurnObeys | cluster.go:87-111 | one turn of the loop is a path of the model with the error count it leaves |
| ClusterNode.Cluster.AsMaster | cluster.go:117-134 | whatever happens, both subscriptions are gone at the end; the error is that of the last thing done; the steps taken are those of the model, a request that errs having been sent or not |
| ClusterNode.Cluster.Turn | cluster.go:87-111 | count, proposal and suspension of one turn; a ping counts as missed iff nobody responds, or it times out on a live connection |
| ClusterNode.Cluster.Start | cluster.go:68-115 | over any rounds: a round proposes iff its ping was missed and the wrapped count reached the limit, the trace is a run of the election model, and SuspendFn ran once per failed proposal and once at the stop |
| ClusterNode.Cluster.Stop | cluster.go:161-170 | drops both subscriptions at once, and leaves the process where it stands: a StartFn at work goes on |
| Failover.OffsetExactly | observer.go:135-166 | the stored offset never decreases in any multi-node run iff ids are distinct, requests wait for live peers, nobody cut off reconnects between its request and the end of StartFn, and a detached master leaves StartFn before the next enters; or there is one node |
| Failover.StrayRegresses | cluster.go:161-170 | whenever a detached master may stay in StartFn, a run with its detachment ends by storing a smaller offset over a greater one |
| Failover.ComebackRegresses | cluster.go:78-82 | wherever a process may reconnect after its request and before the end of StartFn, a run stores a smaller offset over a greater one, although nobody entered beside a detached master |
| Failover.DetachedGoesOn | cluster.go:161-170 | a detachment leaves a master in its tick, and whatever it could do with the database it still can |
| Failover.UndetachedRuns | cluster.go:117-134 | a run without detachments is a run in which detached masters leave first |
| Failover.OneMasterStep | cluster.go:125-130 | every step keeps at most one node in StartFn, detached ones included |
| Failover.InvStep | observer.go:143-160 | under that condition every step of votes and ticks keeps: one node in StartFn, one tick at a time on the offset it read, all ids below the offset checked, announcements in order |
| Failover.AnnouncementsAdvance | observer.go:150-160 | under that condition, over any run: an announced id is followed by greater ids only, unless its tick failed; every id from the first to the stored offset was checked |
| Failover.NoFailureNoReplay | observer.go:150-160 | under that condition, without failed ticks the announced ids of the whole multi-node run are strictly increasing, so none is announced or celebrated twice |
| Failover.NothingBelowOffset | observer.go:143-151 | under that condition an id below a stored offset is never checked again, by any node, at any later point |
| Failover.WindowExactly | observer.go:143-160 | in any run at all a tick begins at the offset stored then, checks only ids of its window, and ends only when it has checked exactly the whole of it |
| Failover.TickAsSteps | observer.go:143-160 | left alone, the steps of a tick check the window in order and store what the loop of Observer.Tick stores |
| Failover.Regress | observer.go:143-160 | with equal ids or impatient requests a concrete run of two live masters stores a smaller offset over a greater one |
| Basics.TopBounds | observer.go:149-155 | the new offset lies in the window, moves iff there was a hit, stands right after the last hit and above every hit |
| Store.StepValid | shared/database.go:62-84 | a call keeps ids one-to-one and never takes an id away or gives it to another torrent |
| Store.TorrentReadBack | shared/database.go:62-84 | after AddTorrent the name is found under the id answered, with its data, the files given and those it had; other names are found as before |
| Store.ImageReadBack | shared/database.go:62-84 | an image stored is read back, metadata and files unchanged |
| Store.MetaReadBack | shared/database.go:62-84 | metadata stored is read back over what was there, image and files unchanged |
| Store.MembersReadBack | shared/database.go:62-84 | a chat or admin is there once added and gone once deleted, all others as before |
| Store.OffsetReadBack | shared/database.go:62-84 | the offset stored is the one read, and nothing else changes |
| Decimal.FormatNatExactly | shared/redis/db.go:173 | the form of ten times n and a digit is that of n and the digit; a minus sign for what is negative |
| Decimal.FormatIntRoundTrip | shared/redis/db.go:173 | parsing gives back every int64 that was formatted |
| Decimal.FormatIntInjective | shared/redis/db.go:173 | different integers have different decimal forms |
| Decimal.FormatUintRoundTrip | shared/redis/db.go:251-254 | the same for the stored offset |
| RedisStore.FamiliesDisjoint | shared/redis/db.go:48-63 | torrent, files, metadata and fixed keys never meet, and each belongs to one name or id, for every name that is not f_ or m_ and an int64 |
| RedisStore.CallRefines | shared/redis/db.go:104-294 | each of the fifteen calls answers as the store does and leaves a keyspace that lays out the store's new state: families disjoint, both index directions inverse, counter bounding every id |
| RedisStore.AddNewRefines | shared/redis/db.go:156-191 | a new name gets the next id, in both directions of the index, with its files |
| RedisStore.AddKnownRefines | shared/redis/db.go:156-191 | a known name keeps its id; its data is replaced and its files are added |
| RedisStore.ListingRefines | shared/redis/db.go:296-316 | the listing read through the index is the store's |
| RedisStore.ListRefines | shared/redis/db.go:221-239 | the chats or admins read back are exactly those stored |
| RedisRuns.RunRefines | shared/redis/db.go:104-316 | from any laid-out state, every run without MPutTorrent answers as the store does, call by call |
| RedisRuns.EmptyRepresents | shared/redis/db.go:48-63 | an empty keyspace lays out the empty store, so runs have somewhere to start |
| RedisRuns.UsableExactly | shared/redis/db.go:48-63 | a name is served as promised in every run iff it is not f_ or m_ followed by the decimal form of an int64 |
| RedisRuns.DoubtfulNameBreaks | shared/redis/db.go:256-279 | for every such name two calls suffice to see a wrong answer |
| RedisDatabase.Database.AddTorrent | shared/redis/db.go:156-191 | the commands issued one by one have the effect and answer of the specification, which CallRefines ties to the store; a failure keeps what came before and returns the invalid id |
| RedisDatabase.Database.AddTorrentImage | shared/redis/db.go:112-125 | likewise; no image is no change, an unknown id is an error |
| RedisDatabase.Database.AddTorrentMeta | shared/redis/db.go:127-137 | likewise; no metadata is no change |
| RedisDatabase.Database.GetTorrent | shared/redis/db.go:281-290 | the id, the invalid id, or an error, as specified |
| RedisDatabase.Database.GetIntList | shared/redis/db.go:221-239 | in whatever order the reply comes, the list holds the parsed members and nothing else |
| RedisDatabase.Database.MGetTorrents | shared/redis/db.go:296-316 | in whatever order the index comes, the records it leads to, or an error iff one cannot be read |
| RedisDatabase.Database.MPutTorrent | shared/redis/db.go:318-340 | record, files and reverse entry, without idx, and the counter set to this id |
| RedisStore.OffsetRefines | shared/redis/db.go:292-294 | storing the offset is the store's UpdateCrawlOffset: everything else is left alone and the next read returns it |
| RedisRace.InvStep | shared/redis/db.go:156-191 | every single command, arrival or cut-off of any number of calls keeps: counter equals ids drawn, both directions respect what each id was drawn for |
| RedisRace.IdsNeverShared | shared/redis/db.go:156-191 | in every interleaving no two records carry the same id |
| RedisRace.IdsCounted | shared/redis/db.go:156-191 | every id in either direction lies between 1 and the counter |
| RedisRace.NeverRebound | shared/redis/db.go:156-191 | a reverse entry never changes in any later state |
| RedisRace.RestExactly | shared/redis/db.go:156-191 | with no call in flight, the idx of a record leads back to it iff its call was not cut off between the two index writes |
| RedisRace.QuietResolves | shared/redis/db.go:156-191 | so with no call in flight and none cut off there, every idx leads back to its own record |
| RedisRace.RaceExactly | shared/redis/db.go:156-191 | in any interleaving without cut-offs that came to rest, idx and reverse entries of a name are exact inverses iff no call missed the idx while another was between its own miss and its idx write |
| RedisRace.RestOneToOneExactly | shared/redis/db.go:156-191 | in any interleaving that came to rest, cut-offs included, idx and reverse entries of a name are exact inverses iff of the ids whose idx was written for it exactly the last was not cut off before its reverse entry |
| RedisRace.ApartIsOneToOne | shared/redis/db.go:156-191 | in particular if calls for one name do not overlap and none is cut off |
| RedisRace.OverlapDoubles | shared/redis/db.go:156-191 | two calls that both missed the idx of one name end with two ids leading to it, each going on with its own |
| RedisRace.DoubledFromStart | shared/redis/db.go:156-191 | from an empty database, for every name, data and files, a run of two calls leaves the name under the ids 1 and 2 |
| RedisRace.SoloIsAddTorrent | shared/redis/db.go:156-191 | a call left alone for six commands is AddTorrent |
| SqlStore.CallRefines | shared/sqldb/db.go:140-374 | each call answers as the store does, with whatever new id the database draws, and leaves tables that lay out the store's new state |
| SqlStore.AddKnownRefines | shared/sqldb/db.go:236-247 | the upsert keeps id, image, files and metadata of a known name and replaces its data |
| SqlStore.AddNewRefines | shared/sqldb/db.go:236-247 | a new name is one new row with its files |
| SqlDatabase.Database.UpsertTorrent | shared/sqldb/db.go:237 | unique names stay unique; one row changes or one is added |
| SqlDatabase.Database.AddTorrent | shared/sqldb/db.go:236-247 | exactly the files whose insert worked are added, and only the last insert's error is reported; if the id cannot be read back the row stays without files |
| SqlDatabase.Database.AddTorrentMeta | shared/sqldb/db.go:336-344 | stops at the first failure, keeps what was written before, fails iff some upsert fails |
| SqlDatabase.Database.GetTorrent | shared/sqldb/db.go:218-234 | the id of the one row of that name, or the invalid id |
| SqlDatabase.Database.MPutTorrent | shared/sqldb/db.go:403-414 | the row under its own id with all files; no change if id or name is taken or the row fails; the row with the files before the first that fails, reported |
| SqlDatabase.Database.AddMember | shared/sqldb/db.go:180-187 | the member is in the roster afterwards, the others unchanged |
| SqlDatabase.SomeDone | shared/sqldb/db.go:336-344 | the upserts that got through are together the merge of just those names |
| SqlDatabase.AllDone | shared/sqldb/db.go:336-344 | all upserts together are the merge the store promises |
| StoreEquivalence.ObservationallyEqual | shared/database.go:62-84 | two empty databases answer every sequence of allowed calls alike, up to a one-to-one pairing of ids built from the answers alone |
| StoreEquivalence.TurnAgrees | shared/database.go:62-84 | one call to both keeps them layouts of one store under two numberings |
| StoreEquivalence.OffsetAgreesExactly | shared/sqldb/db.go:297-305 | reading the offset agrees iff one was stored |
| StoreEquivalence.ImageReadAgreesExactly | shared/redis/db.go:261-274 | reading an image agrees iff the id is known; otherwise Redis reports that there is no such torrent and SQL answers an empty image |
| StoreEquivalence.ImageAgreesExactly | shared/redis/db.go:112-125 | storing an image is answered alike iff the id is known or the image empty, and leaves the same image iff it is not an empty one over another |
| Observer.Observer.Tick | observer.go:143-160 | the ids asked for are the next threshold ones from the stored offset on, or from 0 where the database answers 0 for a missing one, and otherwise the crawl ends; if the offset can be stored it ends up right after the last torrent found with any content, and else it stays; but for it the store is that of the window's checks in order, each notice carries the flags of the store it met, and exactly the hits whose id is a positive multiple of Anniversary are celebrated |
| Observer.Observer.CheckTorrent | observer.go:180-227 | a torrent found with any content, and nothing else, is a hit: it becomes known as far as AddTorrent got, and is announced with exactly the files not stored before, and with metadata and poster as specified; isNew iff the name is unknown or the lookup failed with the invalid id; otherwise nothing changes |
| Observer.WorkedExactly | observer.go:190-292 | what a check makes of the store, by what was found: the name's entry alone is replaced, with the new data, the files it had and those that got through, metadata merged as far as it got through, and the poster if it was wanted, fetched and stored |
| Observer.WindowKnows | observer.go:146-152 | a window makes known exactly the names found with any content that AddTorrent stored |
| Observer.WindowTells | observer.go:146-152 | and announces exactly the names found with any content |
| Observer.MilestonesExactly | observer.go:215-217 | celebrated are, in order, exactly the ids found with any content that are positive multiples of Anniversary |
| Observer.UpstreamExactly | observer.go:246-256 | upstream metadata is every named field, cleaned; of it that is recorded which got through |
| Observer.WantedExactly | observer.go:273-280 | the poster is fetched iff the image could be read, upstream names a URL, and there is no image or the URL recorded differs |
| Observer.ShownExactly | observer.go:264-291 | a notice shows the upstream metadata, or if there is none the recorded; and the poster fetched, nothing if fetching failed, or the one stored |
| Observer.Observer.Record | observer.go:210-212 | adding only the unseen files records the whole sighting minus what was lost; an error gives no id whether or not the torrent was stored |
| Observer.Observer.Notify | observer.go:229-292 | the metadata that got through is merged and the poster refreshed as specified, and one notification goes out, with the upstream metadata or else the recorded one, and, when nothing fails, the image that is now stored |
| Observer.Observer.RefreshMeta | observer.go:260-272 | the upstream metadata that got through, all, some or none of it, is merged into the recorded one; what is announced is upstream, or the recorded if upstream is empty |
| Observer.Observer.RefreshImage | observer.go:273-286 | the poster is fetched iff there is a URL and either no image or another URL recorded; a failed fetch or write keeps the stored image |
| Observer.NotedInSteps | observer.go:260-286 | the two writes of a notification, in their order, have the combined effect, the poster decided by what was recorded before the first |
| ObserverRuns.StoredIsUnion | observer.go:190-214 | over any run the stored files of every torrent are those it had and all that were ever seen for it |
| ObserverRuns.FlagsExactly | observer.go:193-209 | a visit flags exactly the files nobody saw before it; isNew exactly if nobody saw its name before |
| ObserverRuns.NewOnce | observer.go:209 | a visit announces its name as new iff it was not stored before the run and this is the first visit to see it |
| ObserverRuns.TickIsRun | observer.go:143-160 | a window without database faults leaves the store, apart from the offset, and makes the announcements of its hits as a run of visits |
| ObserverRuns.TicksAreOneWindow | observer.go:135-160 | any number of ticks, whatever failed in them or in saving the offset, leave the store and make the announcements of one window over all the ids they checked, and the offset never goes back |
| ObserverRuns.CrawlIsRun | observer.go:135-160 | so ticks without database faults are one run of visits, whichever offsets were saved |
| ObserverRuns.TagsCarryFlags | observer.go:193-214 | each notice of a run carries exactly these flags |
| ObserverRuns.FlaggedOnce | shared/torrent.go:63-71 | every file not stored before the run is flagged new in exactly one notification |
| ObserverRuns.CoherentExactly | observer.go:257-286 | whatever failed, a notification keeps stored image and recorded URL in step iff it does not store a poster over one whose different URL stays recorded, or record a URL without its poster, where what is recorded is the part of the metadata that got through |
| ObserverRuns.RepairedExactly | observer.go:257-286 | and it brings them into step iff it stores a poster whose URL gets recorded or is so already, or records a URL that the image fits |
| ObserverRuns.CheckCoherentExactly | observer.go:180-286 | a check, with any faults in lookup, file list and AddTorrent, keeps all posters matching iff it does not announce an entry and spoil it |
| ObserverRuns.ThroughoutExactly | observer.go:180-286 | after every check of a run, whatever failed, every torrent's image matches its URL iff no check disturbs one |
| ObserverRuns.PostersCoherent | observer.go:257-286 | while fetches and writes succeed, after any run every stored image is the poster of the recorded URL |
| ObserverRuns.StaleStays | observer.go:275 | a wrong poster is not repaired while upstream names the recorded URL |
| CrawlOnStores.AddIsRecorded | observer.go:193-212 | adding only the files not stored yet records the whole sighting |
| CrawlOnStores.CheckOnRedis | observer.go:190-292 | the calls of one check over a Redis database leave a keyspace that lays out the checked store |
| CrawlOnStores.CheckOnSql | observer.go:190-292 | the same over an SQL database |
| CrawlOnStores.RedisHoldsUnion | observer.go:190-214 | after any run over Redis, a torrent's files read back as those it had and all ever seen, and its id is valid iff it was stored or seen |
| CrawlOnStores.SqlHoldsUnion | observer.go:190-214 | the same over SQL |
| HashIndex.SameHashesExactly | shared/torrent.go:222-236 | only what does not decode has no hashes, and two files have the same ones iff their info sections agree, unless the digests collide |
| HashIndex.KeysOf | shared/torrent.go:222-236 | a torrent's keys are the SHA-1 of its info section and, with v2, the SHA-256 of that section, whole and cut to 20 bytes |
| RedisSink.Notifier.Rewrite | producer/redis/redis.go:128-132 | the argument array is rewritten in place from hash-name pairs to field-hash pairs, no value lost |
| RedisSink.Notifier.Collect | producer/redis/redis.go:101-110 | exactly the non-nil answers |
| RedisSink.Notifier.Forget | producer/redis/redis.go:96-118 | the hashes the record lists are taken out of the hash map, if both commands got through |
| RedisSink.Notifier.Remember | producer/redis/redis.go:119-135 | every hash is mapped to the name and then listed in its record, as far as the commands got through |
| RedisSink.Notifier.Send | producer/redis/redis.go:94-139 | the two halves, the first only for torrents that are not new |
| RedisSink.ArgumentLists | producer/redis/redis.go:123-133 | read as fields and values, the array before the rewrite maps each hash to the name and after it each record field to its hash |
| RedisIndex.SendEffect | producer/redis/redis.go:94-139 | the whole effect of a send on the hash map and on every name's record, whichever commands failed |
| RedisIndex.KeepsListedExactly | producer/redis/redis.go:94-139 | every mapped hash stays listed in its name's record iff the send does not strand one |
| RedisIndex.MappedExactly | producer/redis/redis.go:94-139 | after a send that got through, the hashes mapped to its name are exactly the current ones iff it was not flagged new or none other was mapped |
| RedisIndex.KeysExactly | producer/redis/redis.go:94-139 | after a send that got through, its name's keys in the hash map are exactly those, unless it was flagged new, and the record holds them under v1, v2 and v2to1 |
| RedisIndex.OthersExactly | producer/redis/redis.go:94-139 | another name loses exactly the hashes the send removed or claimed |
| RedisIndex.PollutedExactly | producer/redis/redis.go:95-133 | record fields show up as hashes iff the name key is the hash key |
| RedisIndex.LostQuestionStrands | producer/redis/redis.go:96-118 | a send whose question for the previous hashes fails leaves the previous one mapped and in no record |
| RedisIndex.StrandedForGood | producer/redis/redis.go:94-139 | such a hash stays mapped over any later sends, whichever commands get through, until one carries it again |
| SqlSink.DB.ExecDB | producer/sqldb/db.go:91-117 | the rows of the name are replaced, or nothing changes; success is reported iff it committed, or failed and was rolled back |
| SqlSink.DB.Send | producer/sqldb/db.go:76-117 | the rows of the name become exactly the SHA-1 of the info section and, with v2, the SHA-256, whole and cut, if the torrent decodes and every step works; and nothing changes otherwise |
| LmdbSink.Mdb.Append | producer/lmdb/db.go:130-137 | appending to the shared buffer keeps the prefix and yields prefix and hash, in place iff the capacity allows |
| LmdbSink.Mdb.Send | producer/lmdb/db.go:126-147 | the SHA-1 of the info section and, with v2, the SHA-256, whole and cut, are filed behind the prefix although all keys share one buffer, if the torrent decodes and every step works; and nothing changes otherwise |
| SinkAgreement.SendAgreesExactly | producer/redis/redis.go:94-139 | agreeing Redis and SQL stores agree after the same send iff it finds all previous hashes of its name and touches none of another's |
| SinkAgreement.AgreeExactly | producer/redis/redis.go:94-139 | over any run of sends to names whose keys do not coincide with the hash key, the Redis map and the SQL table hold the same pairs after every send iff every send meets that condition |
| SinkAgreement.SinksAgree | producer/sqldb/db.go:91-117 | after any tidy run from empty stores the Redis map and the SQL table hold the same pairs |
| SinkAgreement.TableIsLatest | producer/sqldb/db.go:91-117 | the table holds exactly the hashes of the last send of every name |
| SinkAgreement.IndexHasAll | producer/lmdb/db.go:126-147 | the LMDB index holds every hash ever sent, with the name it belongs to |
| SinkAgreement.IndexHasOnly | producer/lmdb/db.go:126-147 | every key is the prefix followed by a hash that was sent |
| SinkAgreement.IndexContains | producer/lmdb/db.go:126-147 | the index contains the relation of the other two |
| Migration.Deduplicate | cmd/migrate.go:89-95 | after sort and last-wins the map holds, for each name of the listing, a record with the greatest id |
| Migration.OneOutcome | cmd/migrate.go:89-95 | with distinct ids every sort gives the same map |
| Migration.WalkIsWinners | cmd/migrate.go:96-107 | any walk of the map copies exactly the winners, each once, with distinct names and ids |
| MigrateRedis.Migrate | cmd/migrate.go:96-107 | the loop copies in order and stops at the first failure, keeping what came before |
| MigrateRedis.MigrationExactly | cmd/migrate.go:85-107 | from any listing with distinct ids, whatever the names, the sort and walk order: the copy goes through and the new Redis database holds exactly the greatest record of each name, with its files, metadata and image, iff no such record is named f_ and the id of one, or m_ and the id of one whose metadata does not repeat the record |
| MigrateRedis.InvAll | shared/redis/db.go:318-340 | where names keep clear of copied ids, copying never fails, keeps every earlier torrent, and leaves offset, chats and admins alone |
| MigrateRedis.MigratedReads | shared/redis/db.go:318-340 | there, each copied torrent reads back by id and is not found by name, unless its record is also metadata |
| MigrateRedis.OwnFilesKey | shared/redis/db.go:318-340 | a torrent with files named like its own files key is not copied at all |
| MigrateRedis.NextIdExactly | shared/redis/db.go:318-340 | the first torrent added afterwards leaves all copied ones under their ids iff the id after the last one copied is free or its own |
| MigrateRedis.AddedAgain | shared/redis/db.go:156-191 | a copied name that is added again gets the id after the last one copied, beside its own; it keeps its id iff the two are the same |
| MigrateSql.MigrateOne | cmd/migrate.go:97-105 | one torrent is copied whole, or reported and left with nothing, some first files, or some metadata |
| MigrateSql.Migrate | cmd/migrate.go:96-107 | the loop copies in order; it succeeds iff no id or name is taken and every statement gets through, and otherwise stops with one torrent partly there |
| MigrateSql.MigrationExactly | cmd/migrate.go:85-107 | from any listing with distinct ids, doubled names included, and any sort and walk order, the new tables hold exactly the greatest record of each name, found by name, with its files, metadata and image |
| MigrateSql.MigrationPreserves | cmd/migrate.go:85-107 | from an old database that answers like a store, the new tables lay out that very store |
| MigrateSql.RedisToSql | cmd/migrate.go:85-107 | a Redis database that lays out a store is migrated into an SQL database that lays out the same store |
| Poster.Fit | shared/torrent.go:149-169 | both sides in 1..max, never larger than the original, unchanged iff it fits, one side equal to max whenever scaled; the other side is the proportional one rounded down, or 1 iff that is 0; if both are brought down the width is that or one pixel more, and which of the two is exact |
| Poster.Proportions | shared/torrent.go:149-169 | the proportions as products, for use beside the code |
| Poster.ExtraPixelExactly | shared/torrent.go:155-168 | the width of a picture brought down on both sides is one pixel too large iff it was clamped or the height's remainder, in proportion, makes up for what the width lacks |
| Poster.FitsAndTouches | shared/torrent.go:149-169 | the same of the specification, for use beside the code |
| Poster.Idempotent | shared/torrent.go:149-169 | scaling a scaled picture changes nothing |
| Poster.TwoTruncations | shared/torrent.go:155-168 | two successive truncations give the width of the exact proportion or one pixel more |
| Poster.OneMorePixelExactly | shared/torrent.go:155-168 | it is one pixel more iff the remainder of the first division, in proportion, makes up for what the second lacks |
| Announce.FormatFileSize | producer/shared.go:71-90 | the divisor is a power of 1024 with d <= size < 1024 d, it fits 64 bits, the letter of each range is the one written there, and the ? suffix is unreachable |
| Announce.OneUnit | producer/shared.go:77-82 | only one unit fits a size |
| Announce.GetNewFilesIndexes | producer/shared.go:92-107 | strictly increasing, and holds exactly the ranks of the new files among all paths |
| Announce.BeforeExactly | producer/shared.go:98 | the order of the paths: a proper beginning first, or the smaller byte where they first differ |
| Announce.StandsAtRank | producer/shared.go:98-106 | in any sorted arrangement a path stands at its rank |
| Announce.OneIncreasing | producer/shared.go:92-107 | so the result does not depend on the order the map was walked in |
| Announce.FormatIndexesMessage | producer/shared.go:109-133 | no index gives an empty message, one index the single template, several the other, over the joined text |
| Announce.IndexesRoundTrip | producer/shared.go:119-127 | cutting the joined text at the separator and parsing gives the indexes back |

## Left out

- Liveness of the election: simultaneous proposers can all back off, so only safety is claimed.
- Reconnecting clients: a call made while disconnected, which the client buffers, is taken as made after the reconnection; a reply on its way when the connection breaks is lost.
- Election.LiveMasterBlocksProposals: a ping is one step, so one that was sent before the master subscribed and times out afterwards is not covered.
- What ends a stopped process: main returns after Stop and the process exits some time later; the model only knows that it may still be in StartFn.
- NATS, Redis, SQL, LMDB, HTTP and Telegram/VK clients; timers, jitter, logging, configuration, signals.
- Bencode decoding, SHA digests, image decoding and JPEG encoding, HTML extraction, templates: function parameters.
- The two-decimal float text of a file size: only divisor and suffix are modelled.
- Poster.Fit: a limit of 0 stores the picture as fetched, and a decoded picture has two positive sides; both are outside the scaling.
- Machine overflow of offset plus threshold, of image width times the limit, and of a limit that does not fit an int; a zero Anniversary is excluded by a precondition.
- Foreign keys of the SQL schema, and a Postgres sequence that does not know the ids migration inserts.
- Rows for ids that name no torrent: AddTorrentMeta writes them on both databases, and a check whose AddTorrent failed goes on to use the invalid id; StoreEquivalence excludes such writes and Observer takes them to change nothing.
- Observer.Observer.CheckTorrent: a Redis record that a broken AddTorrent leaves without an id is not part of the store it talks about; RedisRace has it.
- Observer.Observer.Notify: the metadata extractor's retry is one outcome parameter; the torrent's own URL and size are not in the notice.
- RedisStore.CallRefines: a command that fails midway is covered by RedisRace for AddTorrent only; image and metadata calls are single writes. The gap in the ids, or the record without an id, that a cut-off AddTorrent leaves makes a keyspace no layout.
- SinkAgreement.SinksAgree: InsertQuery and DeleteQuery are configuration, taken to insert a (hash, name) row and to delete by name; a table that keeps duplicate rows counts as the set of its rows.
- Migration.Deduplicate: sort.Slice is any sorted arrangement of the listing, because it is a library; the same holds for sort.Strings in Announce.GetNewFilesIndexes.
- MigrateRedis.MigrationExactly: the target holds no torrents before; copying over an older database is not modelled.
- MigrateSql.MigrationExactly: likewise; ids are positive, as both databases draw them.
- MigrateRedis.Migrate: a copy that breaks off between two commands of one torrent is not modelled; what one command leaves is.
- Chats, admins and the offset are copied by plain calls of the store; MigrateSql starts where they have been copied.
- The order of lists: both databases answer in no particular order, so lists are compared as sets.
- producer.New, Announcer and the nats, stan, tg, vk and file producers: thin wrappers whose claims are easy.
