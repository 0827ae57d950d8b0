# Viewer presence, stage auto-scaling and the media server's connection table

This project models, in Dafny, the state-keeping core of a live-streaming backend on Amazon IVS real-time stages.

The API server keeps viewer presence in Redis. Each stage has a viewer set `stage:{arn}:viewers`, and each viewer has a session `viewer:{user}:{arn}`:

- the session is written on join and refreshed by heartbeats;
- a periodic sweep evicts viewers whose heartbeat is more than 60 s old.

An auto-scaler lists the stages and sums their viewer counts. From that it either:

- stops on an implausible total;
- creates one more stage, replicating the publisher into it; or
- deletes idle auto-scaled stages once their warm-up is over.

The HTTP routes guard viewer admission, viewer join/heartbeat/leave and stage create/delete. The media server keeps one WHIP connection per active stage. A migration script removes the old per-stage counters.

The model is built as follows:

- **Redis key space** (`redis_service.dfy`). The key space is a value: string keys with an optional expiry instant, and set keys. Every Redis command is one atomic step at an instant `now` in milliseconds. The services hold it in a class field and replace it command by command.
- **IVS control plane** (`ivs_cloud.dfy`). This is a class holding the stage list and the running replications. Each call may fail, and a failed call changes nothing there. A ghost log records every state-changing request sent, whether or not it succeeded, so the scaler's contracts can say which stages it asked to create and delete.
- **Service objects.** The services, routes, stage manager and WHIP client are classes whose methods are proved against specification functions, for example `JoinStore`, `StageSwept`, `Decide`, `Listing` and `AfterCleanup`. Lemmas about those functions state what the system promises.
- **Replies and request fields.** Replies are datatypes. A missing request field is `None`. "Falsy" text is covered by `Present`, which also treats `""` as missing.

## Model

| member | source | states |
|---|---|---|
| RedisService.KeySpace.LiveKeys | api-server/src/services/RedisService.ts:376 | KEYS lists exactly the keys whose TYPE is not none at that instant |
| RedisService.KeySpace.SetText | api-server/src/services/RedisService.ts:89-96 | SET/SETEX: the key then reads back the written value as a string; every other key reads and holds the same as before; validity is kept |
| RedisService.KeySpace.Del | api-server/src/services/RedisService.ts:98-101 | DEL: the key is gone at every instant and every other key is unchanged |
| RedisService.KeySpace.SAdd | api-server/src/services/RedisService.ts:165-168 | SADD: WRONGTYPE exactly when a live string sits at the key; otherwise the members gain the user, the key is a set, and no other key changes |
| RedisService.KeySpace.SRem | api-server/src/services/RedisService.ts:170-173 | SREM: WRONGTYPE exactly on a live string; otherwise the members lose the user and no other key changes |
| RedisService.KeySpace.SCard | api-server/src/services/RedisService.ts:185-188 | SCARD is the number of members, WRONGTYPE exactly on a live string |
| RedisService.KeySpace.SMembers | api-server/src/services/RedisService.ts:175-178 | SMEMBERS is the member set, WRONGTYPE exactly on a live string |
| RedisService.KeySpace.DelAll | api-server/src/services/RedisService.ts:549-570 | deleting a batch of keys keeps the store valid |
| RedisService.Prefixed | api-server/src/services/RedisService.ts:485-488 | the prefixed key starts with the prefix and the rest is the key |
| RedisService.PrefixedInjective | api-server/src/services/RedisService.ts:485-488 | distinct keys get distinct prefixed keys |
| RedisService.ViewerCountIsCardinality | api-server/src/services/RedisService.ts:285-297 | a stage's count is the cardinality of its viewer set, and 0 when SCARD fails |
| RedisService.StagesFromKeys | api-server/src/services/RedisService.ts:378-394 | the stages listed are exactly the non-empty suffixes of the matched keys, without duplicates |
| RedisService.SumCountsZero | api-server/src/services/RedisService.ts:302-319 | the total is 0 when every listed stage counts 0 |
| RedisService.SumCountsBound | api-server/src/services/RedisService.ts:302-319 | the total is at least each listed stage's count |
| RedisService.CounterKeyShape | api-server/src/services/RedisService.ts:375 | an old counter key `viewers:{id}` is what the active-stage scan looks for |
| RedisService.NoCountersNoActiveStages | api-server/src/services/RedisService.ts:372-399 | with no `viewers:` key left, the active-stage list is empty and the total is 0, whatever the viewer sets hold |
| RedisService.CleanupRule | api-server/src/services/RedisService.ts:530-575 | the cleanup rules, each characterised on its own: a string counter is deprecated, a `:viewers` key that is not a set has the wrong type, an empty `:viewers` set is deleted |
| RedisService.CleanupPass | api-server/src/services/RedisService.ts:518-590 | the loop over the scanned keys leaves the store that the rules prescribe and counts each deleted key once under its reason |
| RedisService.CleanupStart | api-server/src/services/RedisService.ts:520-528 | before the first key nothing is deleted and every counter is 0 |
| RedisService.AfterCleanup | api-server/src/services/RedisService.ts:518-590 | a cleanup pass keeps the store valid |
| RedisService.Tally | api-server/src/services/RedisService.ts:520-575 | the cleaned count is the sum of the per-reason counts |
| RedisService.CleanupKeepsViewerSets | api-server/src/services/RedisService.ts:565-572 | a non-empty viewer set survives a cleanup with all its members |
| RedisService.CleanupLeavesNoCounters | api-server/src/services/RedisService.ts:530-575 | after a cleanup no string under the prefix is an old counter or a `:viewers` key |
| RedisService.CleanupIdempotent | api-server/src/services/RedisService.ts:518-590 | a second pass finds nothing to delete |
| RedisService.NoEmptySetsCleaned | api-server/src/services/RedisService.ts:565-572 | on a store that keeps no empty sets the empty-set rule never fires |
| RedisService.RedisService.Key | api-server/src/services/RedisService.ts:485-488 | `getPrefixedKey` puts the service's prefix in front |
| RedisService.RedisService.Get | api-server/src/services/RedisService.ts:84-87 | `get` returns GET of the prefixed key |
| RedisService.RedisService.Set | api-server/src/services/RedisService.ts:89-96 | `set` is SETEX with a TTL, SET without |
| RedisService.RedisService.Del | api-server/src/services/RedisService.ts:98-101 | `del` deletes the prefixed key |
| RedisService.RedisService.SAdd | api-server/src/services/RedisService.ts:165-168 | `sadd` fails exactly on a string key and then changes nothing |
| RedisService.RedisService.SRem | api-server/src/services/RedisService.ts:170-173 | `srem` fails exactly on a string key and then changes nothing |
| RedisService.RedisService.SMembers | api-server/src/services/RedisService.ts:175-178 | `smembers` lists each member exactly once |
| RedisService.RedisService.AddViewerToStage | api-server/src/services/RedisService.ts:212-238 | isNew exactly when the user was not a member; the count is the set's size afterwards; a WRONGTYPE changes nothing |
| RedisService.RedisService.RemoveViewerFromStage | api-server/src/services/RedisService.ts:245-270 | removed exactly when the user was a member; the count is the set's size afterwards |
| RedisService.RedisService.GetStageViewerCount | api-server/src/services/RedisService.ts:285-297 | the set's cardinality, 0 on error |
| RedisService.RedisService.DeprecatedCounterCall | api-server/src/services/RedisService.ts:336-357 | the old increment/decrement change nothing and report the current count, 0 without a stage id |
| RedisService.RedisService.GetActiveStages | api-server/src/services/RedisService.ts:372-399 | the non-empty suffixes of the `{prefix}viewers:` keys, once each, in key order |
| RedisService.RedisService.GetTotalViewerCount | api-server/src/services/RedisService.ts:302-319 | the sum of the per-stage counts over the active-stage list |
| RedisService.RedisService.SetStageInfo | api-server/src/services/RedisService.ts:360-362 | the stage record is written with a one-hour TTL |
| RedisService.RedisService.GetStageInfo | api-server/src/services/RedisService.ts:365-368 | null when absent, the record when it parses, a throw otherwise |
| RedisService.RedisService.SetPublisherStatus | api-server/src/services/RedisService.ts:402-404 | "live" or "offline" with a one-day TTL |
| RedisService.RedisService.GetPublisherStatus | api-server/src/services/RedisService.ts:407-410 | live exactly when the text is "live" |
| RedisService.RedisService.SetPublisherInfo | api-server/src/services/RedisService.ts:413-426 | the publisher record with joinedAt = now and a one-day TTL |
| RedisService.RedisService.GetPublisherInfo | api-server/src/services/RedisService.ts:429-440 | null on missing or unparseable data |
| RedisService.RedisService.ClearPublisherInfo | api-server/src/services/RedisService.ts:443-446 | the publisher record is deleted |
| RedisService.RedisService.SetReplicationStatus | api-server/src/services/RedisService.ts:449-463 | the replication record is keyed by the destination stage, with a one-day TTL |
| RedisService.RedisService.GetReplicationStatus | api-server/src/services/RedisService.ts:466-470 | the record under the destination key, null when absent |
| RedisService.RedisService.ClearReplicationStatus | api-server/src/services/RedisService.ts:473-479 | the destination's record is deleted |
| RedisService.RedisService.CleanupInvalidKeys | api-server/src/services/RedisService.ts:518-590 | the store becomes the cleaned store; each counter is the number of scanned keys under its rule; cleaned is their sum |
| RedisService.AddTwice | api-server/src/services/RedisService.ts:218-222 | a second add of the same user succeeds and changes nothing |
| RedisService.AddThenRemoveRestores | api-server/src/services/RedisService.ts:212-270 | adding a new user then removing it gives back the original store |
| RedisService.StageInfoExpires | api-server/src/services/RedisService.ts:360-368 | a stage record reads back through the end of its hour (Redis expires a key only once its instant has passed) and as null after it |
| RedisService.ReplicationRoundTrip | api-server/src/services/RedisService.ts:449-479 | set-then-get gives back source, destination and participant; clear-then-get gives null |
| RedisService.ReplicationKeysDistinct | api-server/src/services/RedisService.ts:449-463 | records of different destinations use different keys |
| RedisService.PublisherInfoRead | api-server/src/services/RedisService.ts:429-440 | the read throws only on WRONGTYPE, and yields a record exactly when a publisher record is stored |
| RedisService.PublisherStatusRoundTrip | api-server/src/services/RedisService.ts:402-410 | a status set then read within a day gives back the same flag |
| ViewerHeartbeat.SessionKeyInjective | api-server/src/services/ViewerHeartbeatService.ts:279-281 | distinct users on a stage have distinct session keys |
| ViewerHeartbeat.SessionKeyNotSetKey | api-server/src/services/ViewerHeartbeatService.ts:279-281 | a session key is never a viewer-set key |
| ViewerHeartbeat.SetKeyInjective | api-server/src/services/RedisService.ts:213 | different stages have different viewer sets |
| ViewerHeartbeat.JoinRecordsSession | api-server/src/services/ViewerHeartbeatService.ts:77-105 | a join writes a session with joinedAt = lastHeartbeat = now that reads back for 120 s, through the expiry instant itself, and adds the user to the set |
| ViewerHeartbeat.RejoinResetsJoinedAt | api-server/src/services/ViewerHeartbeatService.ts:83-95 | a second join overwrites the session, restarting joinedAt, and leaves the set as it was |
| ViewerHeartbeat.BeatKeepsSession | api-server/src/services/ViewerHeartbeatService.ts:110-135 | a heartbeat fails exactly without a readable session; otherwise only lastHeartbeat moves to now and no set changes |
| ViewerHeartbeat.LeaveRemoves | api-server/src/services/ViewerHeartbeatService.ts:140-168 | after a leave the session is gone and the user is not a member |
| ViewerHeartbeat.JoinThenLeave | api-server/src/services/ViewerHeartbeatService.ts:77-168 | a join then a leave: no session, and the set without the user |
| ViewerHeartbeat.StaleAfterSixtySeconds | api-server/src/services/ViewerHeartbeatService.ts:219-232 | a viewer seen at t stays through t + 60 s inclusive and is evicted after |
| ViewerHeartbeat.BeatKeepsViewer | api-server/src/services/ViewerHeartbeatService.ts:110-135 | a viewer who has just beaten is kept by a sweep within 60 s |
| ViewerHeartbeat.Swept | api-server/src/services/ViewerHeartbeatService.ts:208-232 | removing evicted members and their sessions touches only that set and those sessions |
| ViewerHeartbeat.PassCovers | api-server/src/services/ViewerHeartbeatService.ts:204-233 | a pass that read every member evicted exactly the stale ones |
| ViewerHeartbeat.SweptStep | api-server/src/services/ViewerHeartbeatService.ts:208-214 | one eviction, DEL of the session then SREM, extends the removed set by that member |
| ViewerHeartbeat.StageSweptMembers | api-server/src/services/ViewerHeartbeatService.ts:204-233 | a member survives a pass exactly when its session is present and fresh; an evicted member's session is gone |
| ViewerHeartbeat.StageSweptIdempotent | api-server/src/services/ViewerHeartbeatService.ts:204-233 | a second pass at the same instant evicts nobody |
| ViewerHeartbeat.SetKeyMatchesPattern | api-server/src/services/ViewerHeartbeatService.ts:178-179 | every viewer-set key matches the glob the sweep scans |
| ViewerHeartbeat.ArnFromStageKey | api-server/src/services/ViewerHeartbeatService.ts:186-199 | a parsed ARN always starts with the IVS ARN prefix |
| ViewerHeartbeat.StageKeyRoundTrip | api-server/src/services/ViewerHeartbeatService.ts:186-199 | `{prefix}stage:{arn}:viewers` parses back to the ARN when no bare "stage"/"viewers" segment gets in the way |
| ViewerHeartbeat.SweepAllOnlyRemoves | api-server/src/services/ViewerHeartbeatService.ts:175-242 | the sweep never adds a member and never writes a string |
| ViewerHeartbeat.SweepSparesForeignSets | api-server/src/services/ViewerHeartbeatService.ts:195-199 | sets of stages whose ARN is not an IVS ARN are never touched |
| ViewerHeartbeat.ViewerHeartbeatService.StartMonitoring | api-server/src/services/ViewerHeartbeatService.ts:44-60 | a start while running changes nothing; otherwise running with a timer |
| ViewerHeartbeat.ViewerHeartbeatService.StopMonitoring | api-server/src/services/ViewerHeartbeatService.ts:65-72 | clears the running flag only when a timer is set |
| ViewerHeartbeat.ViewerHeartbeatService.RecordViewerJoin | api-server/src/services/ViewerHeartbeatService.ts:77-105 | the store becomes the join's store |
| ViewerHeartbeat.ViewerHeartbeatService.UpdateViewerHeartbeat | api-server/src/services/ViewerHeartbeatService.ts:110-135 | false and nothing written without a session; otherwise the refreshed session |
| ViewerHeartbeat.ViewerHeartbeatService.RecordViewerLeave | api-server/src/services/ViewerHeartbeatService.ts:140-168 | the store becomes the leave's store; the old decrement changes nothing |
| ViewerHeartbeat.ViewerHeartbeatService.SweepMember | api-server/src/services/ViewerHeartbeatService.ts:205-232 | one member: abort exactly when the session read throws; otherwise evicted exactly when missing or stale |
| ViewerHeartbeat.ViewerHeartbeatService.SweepStage | api-server/src/services/ViewerHeartbeatService.ts:200-234 | ok exactly when the stage's pass cannot throw, and then the store is the swept store |
| ViewerHeartbeat.ViewerHeartbeatService.CleanupInactiveViewers | api-server/src/services/ViewerHeartbeatService.ts:175-242 | the scanned keys are exactly the live keys matching the glob; when no pass throws the store is the fold of the stage passes |
| ViewerHeartbeat.ViewerHeartbeatService.SweepKey | api-server/src/services/ViewerHeartbeatService.ts:186-199 | one scanned key: the stage pass for its ARN when it parses, nothing otherwise |
| ViewerHeartbeat.ViewerHeartbeatService.GetActiveViewers | api-server/src/services/ViewerHeartbeatService.ts:247-254 | the set's members once each, [] on error |
| ViewerHeartbeat.ViewerHeartbeatService.GetViewerWatchDuration | api-server/src/services/ViewerHeartbeatService.ts:259-274 | whole seconds since joinedAt, rounded down; 0 without a session |
| StageAutoScaling.Usable | api-server/src/services/StageAutoScalingService.ts:402-418 | the listing keeps exactly the ARNs the page has and is no longer than the page |
| StageAutoScaling.UsableKeepsAll | api-server/src/services/StageAutoScalingService.ts:401-418 | with every ARN present nothing is dropped and the order is kept |
| StageAutoScaling.Counts | api-server/src/services/StageAutoScalingService.ts:101-111 | one viewer count per listed stage, in order |
| StageAutoScaling.OverThreshold | api-server/src/services/StageAutoScalingService.ts:114-115 | utilization is over 0.8 exactly when 5 × viewers > 4 × (stages × 45) |
| StageAutoScaling.OneStageThreshold | api-server/src/services/StageAutoScalingService.ts:136 | one stage: 36 viewers do not scale up, 37 do |
| StageAutoScaling.FirstMax | api-server/src/services/StageAutoScalingService.ts:153-155 | the index of the first stage with the most viewers |
| StageAutoScaling.Decide | api-server/src/services/StageAutoScalingService.ts:114-161 | halt exactly over 1000 viewers; scale up exactly over 80% utilization and within the sanity limit, from the first busiest stage, and only under 20 stages |
| StageAutoScaling.FirstContaining | api-server/src/services/StageAutoScalingService.ts:157-158 | the first listed stage whose ARN contains the text, or -1 when none does |
| StageAutoScaling.SourceStageFound | api-server/src/services/StageAutoScalingService.ts:153-159 | the suffix lookup always finds a stage, at or before the busiest one |
| StageAutoScaling.UpgradeErrorClassified | api-server/src/services/StageAutoScalingService.ts:262-284 | with the package name matched in either case, a missing replication command is logged as needing an SDK upgrade |
| StageAutoScaling.WrongTypeIsOtherFailure | api-server/src/services/StageAutoScalingService.ts:228-284 | a publisher record held as a set throws WRONGTYPE inside the replication `try`, which is logged as an ordinary failure |
| StageAutoScaling.UpgradeErrorMisclassified | api-server/src/services/StageAutoScalingService.ts:262-284 | as written, a missing replication command (the upgrade error) is logged as an ordinary failure, which is what `ScaleUp` does: its failed outcome's kind is `ClassifyAsWritten` of the mapped message |
| StageAutoScaling.ClassifyAgrees | api-server/src/services/StageAutoScalingService.ts:262-284 | the corrected classification differs from the written one only on messages mentioning "sdk" |
| StageAutoScaling.AutoStageNamesDistinct | api-server/src/services/StageAutoScalingService.ts:191 | stages created at different instants get different names |
| StageAutoScaling.InWarmupIff | api-server/src/services/StageAutoScalingService.ts:319-333 | the minute test means "younger than 300 000 ms" |
| StageAutoScaling.DeletionWindow | api-server/src/services/StageAutoScalingService.ts:302-333 | an idle auto-scaled stage is deletable exactly from 5 minutes after creation through the instant its record expires, an hour after |
| StageAutoScaling.ForgetKeepsViewerSet | api-server/src/services/StageAutoScalingService.ts:376-377 | deleting a stage removes its record and `viewers:{arn}`, not its viewer set |
| StageAutoScaling.LeastLoaded | api-server/src/services/StageAutoScalingService.ts:444-456 | the chosen stage is under the threshold |
| StageAutoScaling.LeastLoadedIsLeast | api-server/src/services/StageAutoScalingService.ts:444-456 | the fewest viewers among stages under 45, the first on ties; none exactly when all are full |
| StageAutoScaling.OrNull | api-server/src/services/StageAutoScalingService.ts:466 | `x \|\| null` keeps exactly the present values |
| StageAutoScaling.BestStage | api-server/src/services/StageAutoScalingService.ts:429-470 | the answer is a listed stage or the master, and null only without a master |
| StageAutoScaling.BestStagePrefersRoom | api-server/src/services/StageAutoScalingService.ts:429-470 | a stage with room always wins over the master; the master is used only when every stage is full |
| StageAutoScaling.StageAutoScaler.ListAllStages | api-server/src/services/StageAutoScalingService.ts:397-423 | the usable stages of the first page, or [] on error |
| StageAutoScaling.StageAutoScaler.ScaleUp | api-server/src/services/StageAutoScalingService.ts:185-290 | exactly one CreateStage is sent, named and tagged with the source stage as parent, followed only by StartParticipantReplication; a failed create or a response without an ARN records nothing; a created stage has a fresh ARN and its record; replication is recorded only after a successful start, and a failed start keeps the stage and carries the error's message, with the kind `ClassifyAsWritten` gives the message IVSService rethrows (or Redis's WRONGTYPE message when the publisher record is a set); no known stage's keys change |
| StageAutoScaling.StageAutoScaler.ReplicateInto | api-server/src/services/StageAutoScalingService.ts:227-284 | a start is sent exactly when the publisher record reads back; it is recorded exactly on success; no publisher or no participant id sends nothing; a failure is classified by `ClassifyAsWritten` of the rethrown message, or of WRONGTYPE when the record read throws, and changes nothing else; only the new stage's keys change |
| StageAutoScaling.StageAutoScaler.ScaleDown | api-server/src/services/StageAutoScalingService.ts:297-390 | a DeleteStage is sent exactly when the stage is eligible (auto-scaled record, at most the threshold, warm-up over); the requests are exactly `DownRequests`, so a failed replication stop does not block the delete; after a delete the record and the old counter key are gone |
| StageAutoScaling.StageAutoScaler.RetireStage | api-server/src/services/StageAutoScalingService.ts:335-378 | a stop for a recorded replication, then the delete, whatever became of the stop; the replication record is cleared only after a successful stop, the stage keys only after a successful delete |
| StageAutoScaling.DownRequestsDeletes | api-server/src/services/StageAutoScalingService.ts:297-378 | `scaleDown` asks to delete the stage exactly when it is eligible, and never creates one |
| StageAutoScaling.ScaleDownElsewhere | api-server/src/services/StageAutoScalingService.ts:374-377 | a `scaleDown` of one stage leaves every other stage's keys as they were |
| StageAutoScaling.OtherStageKeys | api-server/src/services/RedisService.ts:360-367 | the record, replication and old counter keys of a stage are none of another stage's keys |
| StageAutoScaling.StageAutoScaler.CheckAndScale | api-server/src/services/StageAutoScalingService.ts:90-178 | the decision is `Decide` on the listed counts; a halt sends nothing and changes nothing; one CreateStage is sent exactly on a scale-up decision, with the source stage found from the busiest one as parent; the DeleteStage requests are exactly those of the scale-down loop on the store before the check; only listed non-master stages leave |
| StageAutoScaling.StageAutoScaler.ScaleUpThenDown | api-server/src/services/StageAutoScalingService.ts:134-174 | the scale-up on a ScaleUpFrom decision, then the loop: creates and deletes as for `CheckAndScale` |
| StageAutoScaling.StageAutoScaler.ScaleUpFromBusiest | api-server/src/services/StageAutoScalingService.ts:151-160 | one CreateStage whose parent is the stage found from the busiest one's ARN suffix, no DeleteStage, and no known stage's keys change |
| StageAutoScaling.ListedKnown | api-server/src/services/StageAutoScalingService.ts:397-423 | every listed ARN is a stage in the cloud |
| StageAutoScaling.StageAutoScaler.CountAll | api-server/src/services/StageAutoScalingService.ts:101-111 | the per-stage counts and their sum |
| StageAutoScaling.StageAutoScaler.ScaleDownPass | api-server/src/services/StageAutoScalingService.ts:165-174 | nothing is created; on a listing of distinct valid ARNs the requests are exactly `PassRequests`: every listed non-master stage at or under the threshold gets a `scaleDown`, judged on the store before the loop; only listed non-master stages leave |
| StageAutoScaling.StageAutoScaler.ScaleDownStage | api-server/src/services/StageAutoScalingService.ts:166-173 | one turn of the loop: the requests are `AttemptRequests` and only that stage may leave, never the master |
| StageAutoScaling.AttemptDeletes | api-server/src/services/StageAutoScalingService.ts:166-173 | one turn asks to delete its stage exactly when it is deletable, and creates nothing |
| StageAutoScaling.PassDeletes | api-server/src/services/StageAutoScalingService.ts:165-174 | the loop asks to delete exactly the listed stages that are not the master and are eligible with their count |
| StageAutoScaling.PassRequestsFrame | api-server/src/services/StageAutoScalingService.ts:165-174 | what the loop sends depends only on the listed stages' keys |
| StageAutoScaling.StageAutoScaler.BestStageForViewer | api-server/src/services/StageAutoScalingService.ts:429-470 | the answer is `BestStage` of the listed stages and their counts |
| StageAutoScaling.StageAutoScaler.StartMonitoring | api-server/src/services/StageAutoScalingService.ts:51-71 | a second start changes nothing; the first runs one check, creating at most one stage, and sets the interval |
| StageAutoScaling.StageAutoScaler.StopMonitoring | api-server/src/services/StageAutoScalingService.ts:76-83 | not running, no timer, store untouched |
| IvsService.UpgradeMessageMentionsSdk | api-server/src/services/IVSService.ts:265 | the upgrade message names the package in lower case |
| IvsService.UpgradeMessageCharFree | api-server/src/services/IVSService.ts:265 | the upgrade message has no 'S', 'C' or 'b', so it never contains "SDK" |
| IvsService.ParseStageArn | api-server/src/services/IVSService.ts:176-192 | a parse result is well formed and builds back to the input |
| IvsService.ParseBuild | api-server/src/services/IVSService.ts:176-192 | parsing an ARN built from well-formed parts gives the parts back |
| IvsService.ValidateIffMatches | api-server/src/services/IVSService.ts:168-192 | validation holds exactly on the pattern's language; parsing fails exactly when validation does |
| IvsService.BuildParse | api-server/src/services/IVSService.ts:176-192 | a valid ARN, parsed and rebuilt, is itself |
| IvsService.ShortIdToArn | api-server/src/routes/stats.ts:249-261 | a short id is refused exactly when it holds a ':' |
| IvsService.ShortIdRoundTrip | api-server/src/routes/stats.ts:249-261 | an ARN built from a short id parses back to the same id |
| IvsService.RequestDuration | api-server/src/services/IVSService.ts:61 | the duration sent is the given one, else the viewer duration, and never 0 |
| IvsService.PublisherTokenOptions | api-server/src/services/IVSService.ts:110-127 | the given stage, else the master, with an error when neither is set; `broadcaster-` user, PUBLISH, four hours |
| IvsService.ViewerTokenOptions | api-server/src/services/IVSService.ts:132-143 | `viewer-` user, SUBSCRIBE, one hour |
| IvsService.MediaServerTokenOptions | api-server/src/services/IVSService.ts:148-163 | `media-server-` user, PUBLISH and SUBSCRIBE, four hours |
| IvsService.ViewerNeverBroadcaster | api-server/src/services/IVSService.ts:110-143 | a viewer's token identity is never a broadcaster's |
| IvsService.MapReplicationError | api-server/src/services/IVSService.ts:254-274 | "Cannot find module" or the command name gives the upgrade error; any other error is rethrown unchanged |
| IvsService.UpgradeMessageMentionsNoTrigger | api-server/src/services/IVSService.ts:263-266 | the upgrade message triggers neither test |
| IvsService.MapReplicationErrorIdempotent | api-server/src/services/IVSService.ts:318-337 | mapping an already mapped error changes nothing |
| IvsCloud.ArnSetGrows | api-server/src/services/StageAutoScalingService.ts:192-202 | appending a stage keeps every listed ARN |
| IvsCloud.Without | api-server/src/services/StageAutoScalingService.ts:369-373 | a deleted stage's ARN leaves the list and nothing else does |
| IvsCloud.FreshArn | api-server/src/services/StageAutoScalingService.ts:192-202 | a new stage gets a valid ARN that no listed stage has |
| IvsCloud.DefaultArnValid | api-server/src/routes/stats.ts:249-261 | an ARN in the default region and account is valid |
| IvsCloud.Cloud.ListStages | api-server/src/services/StageAutoScalingService.ts:399-400 | ListStages returns the first page, or fails |
| IvsCloud.Cloud.CreateStage | api-server/src/services/StageAutoScalingService.ts:192-204 | the request is logged; a created stage is appended with a fresh valid ARN, though the response may carry none; a failure changes nothing |
| IvsCloud.Cloud.DeleteStage | api-server/src/services/StageAutoScalingService.ts:369-373 | the request is logged; a deleted stage leaves the list; an unknown ARN fails with ResourceNotFoundException |
| IvsCloud.Cloud.StartReplication | api-server/src/services/IVSService.ts:239-245 | the request is logged; success adds the replication, a failure changes nothing else |
| IvsCloud.Cloud.StopReplication | api-server/src/services/IVSService.ts:303-309 | the request is logged; success removes the replication, a failure changes nothing else |
| TokenRoute.Target | api-server/src/routes/token.ts:122-146 | requested stage, else the scaler's best, else MASTER_STAGE_ARN |
| TokenRoute.Admission | api-server/src/routes/token.ts:112-178 | the checks in order: user id, a target, the publisher live, fewer than 50 viewers; each outcome characterised exactly |
| TokenRoute.ReportedCount | api-server/src/routes/token.ts:166-201 | the reported count is the set's size after the join exactly when the viewer was not yet a member |
| TokenRoute.PublishTargets | api-server/src/routes/token.ts:296-311 | the active stages, else [MASTER_STAGE_ARN], empty only when both are missing |
| TokenRoute.Partition | api-server/src/routes/token.ts:344-345 | successful and failed split the results, their sizes adding up to the number of stages |
| TokenRoute.TokenRoutes.PostViewer | api-server/src/routes/token.ts:108-219 | answers as the admission checks decide; on success records the join and reports the pre-check count + 1; otherwise writes nothing |
| TokenRoute.TokenRoutes.AdmitViewer | api-server/src/routes/token.ts:156-201 | the part after the stage is chosen: publisher check, capacity check, token and join |
| TokenRoute.TokenRoutes.PostPublisherAll | api-server/src/routes/token.ts:280-384 | one result per target stage in order, split into successful and failed, and the publisher marked live |
| ViewerRoute.AbsentFields | api-server/src/routes/viewer.ts:29-35 | no more names than fields |
| ViewerRoute.AbsentFieldsMeaning | api-server/src/routes/viewer.ts:29-35 | a name is reported exactly when its field is missing; none exactly when all are present |
| ViewerRoute.MissingFields | api-server/src/routes/viewer.ts:29-35 | the pushed list is the missing field names in order |
| ViewerRoute.JsRem | api-server/src/routes/viewer.ts:200 | JavaScript's `%` takes the dividend's sign |
| ViewerRoute.DurationParts | api-server/src/routes/viewer.ts:200 | for d ≥ 0: 60·m + s = d with 0 ≤ s < 60 |
| ViewerRoute.NegativeDurationParts | api-server/src/routes/viewer.ts:200 | a negative duration that is not whole minutes prints parts that add up to d − 60 |
| ViewerRoute.DurationTextReadsBack | api-server/src/routes/viewer.ts:200 | the text's digits read back as minutes and seconds that make up d |
| ViewerRoute.CountAfterJoin | api-server/src/routes/viewer.ts:42-45 | after a join the count is the set with the viewer in it |
| ViewerRoute.ViewerRoutes.Rejoin | api-server/src/routes/viewer.ts:25-77 | 400 with exactly the missing fields, nothing written; otherwise the join and the set's size after it |
| ViewerRoute.ViewerRoutes.Heartbeat | api-server/src/routes/viewer.ts:83-110 | 404 exactly when the heartbeat service reports false |
| ViewerRoute.ViewerRoutes.Leave | api-server/src/routes/viewer.ts:116-148 | with both fields, always success, and the leave's store |
| ViewerRoute.ViewerRoutes.List | api-server/src/routes/viewer.ts:154-173 | totalViewers from SCARD equals activeViewers from SMEMBERS of the same set |
| ViewerRoute.ViewerRoutes.Duration | api-server/src/routes/viewer.ts:179-206 | whole seconds since joinedAt, 0 without a session, and their minutes-and-seconds text |
| StageRoute.WithArn | api-server/src/routes/stage.ts:57-73 | keeps exactly the listed stages whose ARN is present and not empty, as `!stage.arn` tests |
| StageRoute.ListingCoversArns | api-server/src/routes/stage.ts:46-94 | the listing names exactly the non-empty ARNs of the page, and no entry has an empty ARN |
| StageRoute.EmptyArnSkipped | api-server/src/routes/stage.ts:58 | a page whose stages have no ARN or an empty one lists nothing |
| StageRoute.ListingEntries | api-server/src/routes/stage.ts:57-73 | one entry per stage at most, each with its viewer count; without a record a stage is not auto-scaled |
| StageRoute.CreateTags | api-server/src/routes/stage.ts:170-177 | the default Environment and ManagedBy tags, overridden by the caller's |
| StageRoute.StageLimitNeedsCounters | api-server/src/routes/stage.ts:160-168 | with no old counter keys the stage limit never refuses |
| StageRoute.CreatedStageNotScaledDown | api-server/src/routes/stage.ts:186-190 | a stage created by the route is never scaled down |
| StageRoute.StageRoutes.List | api-server/src/routes/stage.ts:46-94 | the listing of the first page, or 500 exactly when the record of a stage with a non-empty ARN cannot be read |
| StageRoute.StageRoutes.Entries | api-server/src/routes/stage.ts:57-73 | the Promise.all over the page is `Listing`: a stage with a missing or empty ARN is skipped, and any other stage whose record cannot be read fails the page |
| StageRoute.StageRoutes.ReadEntry | api-server/src/routes/stage.ts:58-68 | one entry, failing exactly when the record read throws |
| StageRoute.StageRoutes.Create | api-server/src/routes/stage.ts:148-212 | 400 without a name; 503 exactly when 20 stages are active; otherwise one CreateStage with the merged tags, then a fresh stage and its record, or 500 with no record when the create fails or its response has no ARN |
| StageRoute.StageRoutes.Delete | api-server/src/routes/stage.ts:309-366 | 403 for the master, 400 with viewers, 404 for an unknown stage; a delete removes the stage, its record and its old counter and nothing else |
| StageManager.ActiveKeys | media-server/src/services/StageManager.ts:317-319 | exactly the connected entries |
| StageManager.ActiveAtMostAll | media-server/src/services/StageManager.ts:306-319 | no more connected stages than entries |
| StageManager.CountConnectedIsActive | media-server/src/services/StageManager.ts:317-319 | a pass over the keys counts the connected entries among them |
| StageManager.CountedAll | media-server/src/services/StageManager.ts:306-319 | a pass over every key counts the connected entries, at most the table's size |
| StageManager.Manager.ConnectToStage | media-server/src/services/StageManager.ts:105-169 | a stage already in the table, even a failed one, changes nothing; without a token a failed entry; otherwise a connected new client, publishing exactly when the publisher is live |
| StageManager.Manager.AddClient | media-server/src/services/StageManager.ts:127-147 | a new connected client is recorded and publishes exactly when the publisher is live |
| StageManager.Manager.DisconnectFromStage | media-server/src/services/StageManager.ts:174-205 | an absent stage changes nothing; otherwise its client is disconnected and the entry removed |
| StageManager.Manager.SyncAllStages | media-server/src/services/StageManager.ts:70-100 | the table's stages are exactly the listed ones, kept entries untouched; a newly listed stage has a connected client with no error or the failed no-token entry, created now; an empty list empties it |
| StageManager.Manager.ConnectAll | media-server/src/services/StageManager.ts:77-80 | every listed stage gains an entry, a new one shaped as `connectToStage` records it, and existing entries stay |
| StageManager.Manager.PruneUnlisted | media-server/src/services/StageManager.ts:82-91 | exactly the unlisted entries go |
| StageManager.Manager.OnPublisherConnected | media-server/src/services/StageManager.ts:210-233 | the flag is set, the table unchanged, and publishing starts on every connected entry |
| StageManager.Manager.OnPublisherDisconnected | media-server/src/services/StageManager.ts:238-259 | the flag is cleared, the table unchanged, and publishing stops on every connected entry |
| StageManager.Manager.DisconnectAll | media-server/src/services/StageManager.ts:264-277 | the table ends empty and every client it held is disconnected |
| StageManager.Manager.DisconnectEach | media-server/src/services/StageManager.ts:269-273 | each listed entry is disconnected and removed, and the rest are untouched |
| StageManager.Manager.GetStats | media-server/src/services/StageManager.ts:306-312 | the publisher flag, the table's size, and the number of connected entries |
| WhipClient.RunLastToggle | media-server/src/services/WHIPClient.ts:41-134 | after any run the flag is the last connect or disconnect, else the starting flag |
| WhipClient.PublishAfterRun | media-server/src/services/WHIPClient.ts:75-78 | startPublishing succeeds after a run exactly when its last toggle was a connect |
| WhipClient.TogglesIdempotent | media-server/src/services/WHIPClient.ts:41-134 | disconnect twice is disconnect once, and so is connect |
| WhipClient.WhipClient.constructor | media-server/src/services/WHIPClient.ts:24-28 | the given endpoint, else WHIP_ENDPOINT, else the default |
| WhipClient.WhipClient.Connect | media-server/src/services/WHIPClient.ts:41-67 | the client is connected afterwards |
| WhipClient.WhipClient.StartPublishing | media-server/src/services/WHIPClient.ts:75-89 | throws exactly when not connected |
| WhipClient.WhipClient.Disconnect | media-server/src/services/WHIPClient.ts:109-134 | not connected afterwards, a no-op when already disconnected |
| WhipClient.WhipClient.IsConnected | media-server/src/services/WHIPClient.ts:139-141 | the flag |
| WhipClient.WhipClient.GetStageArn | media-server/src/services/WHIPClient.ts:146-148 | the stage given to the constructor |
| Migration.ClassOf | api-server/scripts/migrate-viewer-counting.ts:45-60 | every key in exactly one class, each class characterised on its own |
| Migration.SessionNotCounter | api-server/scripts/migrate-viewer-counting.ts:49-56 | a `viewer:` key is never an old counter |
| Migration.ClassifiesWrites | api-server/scripts/migrate-viewer-counting.ts:45-60 | each key the services write falls into its intended class |
| Migration.OldCounterIsDeprecated | api-server/scripts/migrate-viewer-counting.ts:49-52 | the old-counter class is exactly the cleanup's deprecated rule |
| Migration.KeyStats.Push | api-server/scripts/migrate-viewer-counting.ts:50-58 | a push grows one list by the key and leaves the others |
| Migration.SortedStep | api-server/scripts/migrate-viewer-counting.ts:45-60 | each new key goes onto the list of its class |
| Migration.ExtractSound | api-server/scripts/migrate-viewer-counting.ts:184-188 | a non-empty result is an IVS ARN the key holds between "stage:" and ":viewers" |
| Migration.ExtractViewerSetKey | api-server/scripts/migrate-viewer-counting.ts:184-188 | the viewer-set key of a well-formed ARN gives the ARN back |
| Migration.CheckMeaning | api-server/scripts/migrate-viewer-counting.ts:100-120 | sessions never exceed the set size, and the two agree exactly when every member has a session |
| Migration.HeartbeatSetChecked | api-server/scripts/migrate-viewer-counting.ts:100-110 | the check looks up exactly the sessions the heartbeat service writes |
| Migration.OldCountersAreDeprecated | api-server/scripts/migrate-viewer-counting.ts:126-136 | the migration deletes exactly what the cleanup deletes as deprecated |
| Migration.AfterMigration | api-server/scripts/migrate-viewer-counting.ts:126-136 | the store stays valid |
| Migration.MigrationKeepsOthers | api-server/scripts/migrate-viewer-counting.ts:126-136 | only old counters are deleted; everything else keeps its type, value and members |
| Migration.MigrationIdempotent | api-server/scripts/migrate-viewer-counting.ts:126-136 | a second run finds no old counter |
| Migration.MigrationEmptiesActiveStages | api-server/scripts/migrate-viewer-counting.ts:141-156 | after the deletion, step 4 reports no active stage and 0 viewers |
| Migration.ViewerSetsAreSets | api-server/scripts/migrate-viewer-counting.ts:53-54 | every key filed as a viewer set holds a set |
| Migration.Migrator.Scan | api-server/scripts/migrate-viewer-counting.ts:31-60 | every scanned key lands in the list of its class, once |
| Migration.Migrator.CheckSet | api-server/scripts/migrate-viewer-counting.ts:100-120 | the check of one set, failing exactly when SMEMBERS does |
| Migration.Migrator.CheckConsistency | api-server/scripts/migrate-viewer-counting.ts:100-120 | one check per viewer set, in order, failing exactly when one set is a string |
| Migration.Migrator.DeleteOldCounters | api-server/scripts/migrate-viewer-counting.ts:126-136 | exactly the listed keys are deleted |
| Migration.Migrator.VerifyNewSystem | api-server/scripts/migrate-viewer-counting.ts:141-156 | the active stages and the sum of their counts |
| Migration.Migrator.Migrate | api-server/scripts/migrate-viewer-counting.ts:19-179 | an abort leaves the store untouched; otherwise the report of the four steps and the store without the old counters |

## Left out

- **Redis connection handling.** The ioredis connection, retries, events, `ping`, `flushAll` and `disconnect` are not modelled. Records are stored as values, not JSON text; a stored text that does not parse is the `Plain` case.
- **Redis commands and helpers with no modelled caller.** `exists`, `expire`, `incr`, the hash commands, `isViewerInStage`, `getStageViewers` and `incrementViewerCountIfNew` are not part of this model.
- **Timers and concurrency.** `setInterval` loops run no code here: the monitoring methods set the flags, and `StageAutoScaler.StartMonitoring` also runs the one immediate `checkAndScale`; later ticks are not modelled. Concurrent handlers are not interleaved; every handler is one sequential run against the store.
- **Clocks.** The clock is a parameter (`now` in milliseconds, and `nowIso` for tag text).
- **Floating point.** Utilization and the warm-up age in minutes are stated in integers and milliseconds (`OverThreshold`, `InWarmupIff`).
- **The AWS SDK.** These calls are the `IvsCloud.Cloud` class, whose calls may fail; which ones fail is not determined. GetStage, UpdateStage and ListParticipants, used only by routes outside this model, are not part of it.
- **Logs and notifications.** The database writes started by the viewer routes, the WebSocket notifications and all logging are not modelled.
- **The media server's API client.** `StageManager.MediaApi` stands for the API client. It returns an arbitrary stage list and an optional token, and carries no contract.
- IvsCloud.Cloud.CreateParticipantToken: has no ensures. The token and participant id come from AWS and may be empty, so nothing can be promised about them.
- WhipClient.WhipClient.StopPublishing: has no ensures. It changes nothing and cannot fail, so it has nothing to state.
- **WebRTC and WHIP transport.** The WHIP client is a stub in the source; only its connection flag is modelled.
- ViewerHeartbeat.ViewerHeartbeatService.CleanupInactiveViewers: when a stage's pass throws, the contract says only that the store stays valid. It does not say which members were already evicted before the throw.
- ViewerHeartbeat.ViewerHeartbeatService.SweepStage: when the pass throws, the store left partly swept is not described beyond validity.
- StageAutoScaling.StageAutoScaler.ScaleDownPass: the exact request log is stated only for a listing whose ARNs are valid and distinct, as IVS returns them. With a repeated or malformed ARN one stage's writes could touch another's keys, and the contract then says only that nothing is created and which stages may leave.
- StageAutoScaling.StageAutoScaler.CheckAndScale: the DeleteStage requests are stated under the same condition on the listing.
- StageAutoScaling.StageAutoScaler.ScaleUp: the listing `scaleUp` fetches first is only logged, and its errors are caught, so it is not modelled.
- StageRoute.StageRoutes.List: the `createdAt` fallback to the session id is not modelled.
- **Request validation of other routes.** The validation middleware, authentication, rate limiting and error handler are not part of this model.
- **Integer widths.** JavaScript numbers are modelled as unbounded integers; no count or timestamp in this core comes near 2^53.

## Findings

| source | as written | input that shows it | evidently intended | confidence | as-written member | corrected member |
|---|---|---|---|---|---|---|
| api-server/src/services/StageAutoScalingService.ts:273 | a replication failure is logged as "SDK upgrade needed" only when its message contains `SDK` in capitals | StartParticipantReplication missing from the installed SDK: IVSService.ts:265 rethrows the upgrade message, which names `@aws-sdk/client-ivs-realtime` only in lower case, so the failure is logged as an ordinary one | the upgrade error raised by IVSService.ts:263-266 and 328 is recognised as needing an SDK upgrade | not executed | StageAutoScaling.UpgradeErrorMisclassified | StageAutoScaling.UpgradeErrorClassified |
