/** The stage auto-scaler (api-server/src/services/StageAutoScalingService.ts).
    Every health check lists the stages, reads each one's viewer count, and
    either stops (an implausible total), adds one stage replicated from the
    busiest one, or does nothing; then it deletes idle auto-scaled stages
    past their warm-up. A health check runs at one instant `now`
    (milliseconds); `nowIso` is the same instant as an ISO-8601 text. */
module StageAutoScaling {
  import opened Common
  import opened RedisService
  import IvsService
  import IvsCloud

  const MAX_STAGES := 20
  const SCALE_UP_THRESHOLD := 45
  const SCALE_DOWN_THRESHOLD := 5
  const HEALTH_CHECK_INTERVAL := 30000
  /** A total above this is taken for corrupt store data. */
  const VIEWER_SANITY_LIMIT := 1000
  const WARMUP_MINUTES := 5
  const WARMUP_MS := WARMUP_MINUTES * 60000
  const LIST_PAGE := 50
  const AUTO_STAGE_PREFIX := "auto-stage-"

  // ---------------------------------------------------------------------
  // Listing stages

  /** A listed stage with its ARN known to be present. */
  datatype Listed = Listed(arn: string, name: Option<string>)

  /** The page a ListStages call with `maxResults: 50` returns. */
  function Page(ss: seq<IvsCloud.StageSummary>): seq<IvsCloud.StageSummary> {
    ss[..if |ss| < LIST_PAGE then |ss| else LIST_PAGE]
  }

  function ArnsOf(stages: seq<Listed>): set<string> {
    set x | x in stages :: x.arn
  }

  /** The filter and map of `listAllStages`: entries without an ARN are
      dropped, the others keep their order. */
  function Usable(ss: seq<IvsCloud.StageSummary>): (r: seq<Listed>)
    ensures |r| <= |ss|
    ensures ArnsOf(r) == IvsCloud.ArnSet(ss)
  {
    if ss == [] then []
    else
      var rest := Usable(ss[1..]);
      assert ss == [ss[0]] + ss[1..];
      IvsCloud.ArnSetCons(ss[0], ss[1..]);
      if ss[0].arn.None? then rest
      else
        var r := [Listed(ss[0].arn.value, ss[0].name)] + rest;
        assert forall x :: x in r <==> x == r[0] || x in rest;
        assert ArnsOf(r) == {ss[0].arn.value} + ArnsOf(rest);
        r
  }

  /** Filtering a concatenation filters each part. */
  lemma {:induction false} UsableAppend(a: seq<IvsCloud.StageSummary>, b: seq<IvsCloud.StageSummary>)
    ensures Usable(a + b) == Usable(a) + Usable(b)
    decreases |a|
  {
    if a != [] {
      assert (a + b)[0] == a[0];
      assert (a + b)[1..] == a[1..] + b;
      UsableAppend(a[1..], b);
    } else {
      assert a + b == b;
    }
  }

  /** With every ARN present nothing is dropped, and the order is the list's. */
  lemma {:induction false} UsableKeepsAll(ss: seq<IvsCloud.StageSummary>)
    requires forall i :: 0 <= i < |ss| ==> ss[i].arn.Some?
    ensures |Usable(ss)| == |ss|
    ensures forall i :: 0 <= i < |ss| ==> Usable(ss)[i] == Listed(ss[i].arn.value, ss[i].name)
    decreases |ss|
  {
    if ss != [] {
      UsableKeepsAll(ss[1..]);
      assert forall i :: 1 <= i < |ss| ==> ss[1..][i - 1] == ss[i];
    }
  }

  /** The per-stage viewer counts at `now`, in list order. */
  function Counts(ks: KeySpace, prefix: string, stages: seq<Listed>, now: int): (r: seq<nat>)
    ensures |r| == |stages|
    ensures forall i :: 0 <= i < |stages| ==> r[i] == ViewerCount(ks, prefix, stages[i].arn, now)
  {
    seq(|stages|, i requires 0 <= i < |stages| => ViewerCount(ks, prefix, stages[i].arn, now))
  }

  lemma CountsSnoc(ks: KeySpace, prefix: string, stages: seq<Listed>, i: nat, now: int)
    requires i < |stages|
    ensures Counts(ks, prefix, stages[..i + 1], now)
         == Counts(ks, prefix, stages[..i], now) + [ViewerCount(ks, prefix, stages[i].arn, now)]
  {
    assert stages[..i + 1][i] == stages[i];
  }

  // ---------------------------------------------------------------------
  // The scaling decision

  /** `totalViewers / totalCapacity`, or 0 with no capacity. */
  function Utilization(total: nat, stageCount: nat): real {
    var capacity := stageCount * SCALE_UP_THRESHOLD;
    if capacity > 0 then total as real / capacity as real else 0.0
  }

  /** The utilization test in whole numbers: above 80% exactly when five
      times the viewers exceed four times the capacity. */
  lemma OverThreshold(total: nat, stageCount: nat)
    ensures Utilization(total, stageCount) > 0.8 <==> stageCount > 0 && 5 * total > 4 * (stageCount * SCALE_UP_THRESHOLD)
  {
    var capacity := stageCount * SCALE_UP_THRESHOLD;
    if capacity > 0 {
      RatioOver(total as real, capacity as real);
    }
  }

  lemma RatioOver(x: real, c: real)
    requires c > 0.0
    ensures x / c > 0.8 <==> 5.0 * x > 4.0 * c
  {
    var u := x / c;
    assert u * c == x;
    if u > 0.8 {
      assert u * c > 0.8 * c;
    } else {
      assert u * c <= 0.8 * c;
    }
  }

  /** One stage of 45 seats scales up from 37 viewers, not at 36. */
  lemma OneStageThreshold()
    ensures Utilization(36, 1) <= 0.8 && Utilization(37, 1) > 0.8
  {
    OverThreshold(36, 1);
    OverThreshold(37, 1);
  }

  /** `stageStats.reduce((max, cur) => cur.viewers > max.viewers ? cur : max)`:
      the first stage with the most viewers. */
  function FirstMax(counts: seq<nat>): (m: nat)
    requires |counts| > 0
    ensures m < |counts|
    ensures forall j :: 0 <= j < |counts| ==> counts[j] <= counts[m]
    ensures forall j :: 0 <= j < m ==> counts[j] < counts[m]
  {
    if |counts| == 1 then 0
    else
      var m := FirstMax(counts[..|counts| - 1]);
      if counts[|counts| - 1] > counts[m] then |counts| - 1 else m
  }

  datatype Decision =
    | Halt                    // implausible total: nothing else happens
    | AtLimit                 // would scale up, but MAX_STAGES are listed
    | ScaleUpFrom(index: nat) // add a stage, replicated from this one's
    | Steady

  /** The decision of `checkAndScale` for the listed stages' counts. */
  function Decide(counts: seq<nat>): (r: Decision)
    ensures r.Halt? <==> Sum(counts) > VIEWER_SANITY_LIMIT
    ensures r.AtLimit? || r.ScaleUpFrom? <==>
              Sum(counts) <= VIEWER_SANITY_LIMIT && |counts| > 0
              && 5 * Sum(counts) > 4 * (|counts| * SCALE_UP_THRESHOLD)
    ensures r.AtLimit? ==> |counts| >= MAX_STAGES
    ensures r.ScaleUpFrom? ==> (&& |counts| < MAX_STAGES && r.index < |counts|
                                && (forall j :: 0 <= j < |counts| ==> counts[j] <= counts[r.index])
                                && (forall j :: 0 <= j < r.index ==> counts[j] < counts[r.index]))
  {
    var total := Sum(counts);
    OverThreshold(total, |counts|);
    if total > VIEWER_SANITY_LIMIT then Halt
    else if Utilization(total, |counts|) > 0.8 then
      if |counts| >= MAX_STAGES then AtLimit else ScaleUpFrom(FirstMax(counts))
    else Steady
  }

  /** `stages.find(s => s.arn.includes(t))`: the first listed stage whose ARN
      contains t, or -1. */
  function FirstContaining(stages: seq<Listed>, t: string): (j: int)
    ensures -1 <= j < |stages|
    ensures j >= 0 ==> Contains(stages[j].arn, t)
    ensures forall k :: 0 <= k < |stages| && (j == -1 || k < j) ==> !Contains(stages[k].arn, t)
  {
    if stages == [] then -1
    else if Contains(stages[0].arn, t) then 0
    else
      var k := FirstContaining(stages[1..], t);
      if k == -1 then -1 else k + 1
  }

  /** The source stage is found from the last twelve characters of the
      busiest stage's ARN: the search always succeeds, at that stage or at an
      earlier one whose ARN contains the same twelve characters. */
  lemma SourceStageFound(stages: seq<Listed>, m: nat)
    requires m < |stages|
    ensures var j := FirstContaining(stages, Last12(stages[m].arn));
      0 <= j <= m && Contains(stages[j].arn, Last12(stages[m].arn))
    ensures (forall k :: 0 <= k < m ==> !Contains(stages[k].arn, Last12(stages[m].arn)))
      ==> FirstContaining(stages, Last12(stages[m].arn)) == m
  {
    Last12Within(stages[m].arn);
  }

  /** The stage `checkAndScale` hands to `scaleUp` when the m-th listed
      stage is the busiest. */
  function SourceArn(stages: seq<Listed>, m: nat): string
    requires m < |stages|
  {
    SourceStageFound(stages, m);
    stages[FirstContaining(stages, Last12(stages[m].arn))].arn
  }

  // ---------------------------------------------------------------------
  // Replication failures

  datatype FailureKind = NotPublishing | NeedsSdkUpgrade | OtherFailure

  /** `replicationError.message || ''` */
  function ErrorText(message: Option<string>): string {
    if message.Some? then message.value else ""
  }

  /** The classification as written: 'not publishing', then 'SDK'. */
  function ClassifyAsWritten(message: Option<string>): FailureKind {
    var text := ErrorText(message);
    if Contains(text, "not publishing") then NotPublishing
    else if Contains(text, "SDK") then NeedsSdkUpgrade
    else OtherFailure
  }

  /** The error raised for a replication command missing from the installed
      SDK is logged as an ordinary failure: its message names the package only
      in lower case ("@aws-sdk/..."), so the 'SDK' branch never sees it. */
  lemma UpgradeErrorMisclassified(c: IvsService.ReplicationCommand, message: Option<string>)
    requires message.Some?
    requires Contains(message.value, "Cannot find module") || Contains(message.value, IvsService.CommandName(c))
    ensures ClassifyAsWritten(IvsService.MapReplicationError(c, message)) == OtherFailure
  {
    IvsService.UpgradeMessageCharFree('b');
    IvsService.UpgradeMessageCharFree('S');
    NotContainsChar(IvsService.SDK_UPGRADE_MESSAGE, "not publishing", 6);
    NotContainsChar(IvsService.SDK_UPGRADE_MESSAGE, "SDK", 0);
  }

  lemma WrongTypeCharFree(c: char)
    requires c == 'b' || c == 'S'
    ensures CharFree(WRONGTYPE_MESSAGE, c)
  {
    var p1, p2, p3, p4 := "WRONGTYPE ", "Operation against ", "a key holding ", "the wrong kind of value";
    assert CharFree(p1, c) && CharFree(p2, c) && CharFree(p3, c) && CharFree(p4, c);
    CharFreeConcat(p1, p2, c);
    CharFreeConcat(p1 + p2, p3, c);
    CharFreeConcat(p1 + p2 + p3, p4, c);
  }

  /** The WRONGTYPE error that reading a publisher record held as a set
      raises inside the same `try` is logged as an ordinary failure. */
  lemma WrongTypeIsOtherFailure()
    ensures ClassifyAsWritten(Some(WRONGTYPE_MESSAGE)) == OtherFailure
  {
    WrongTypeCharFree('b');
    WrongTypeCharFree('S');
    NotContainsChar(WRONGTYPE_MESSAGE, "not publishing", 6);
    NotContainsChar(WRONGTYPE_MESSAGE, "SDK", 0);
  }

  /** The classification the 'SDK' branch is there for: the package name in
      either case counts as a request to upgrade the SDK. */
  function Classify(message: Option<string>): FailureKind {
    var text := ErrorText(message);
    if Contains(text, "not publishing") then NotPublishing
    else if Contains(text, "SDK") || Contains(text, "sdk") then NeedsSdkUpgrade
    else OtherFailure
  }

  lemma UpgradeErrorClassified(c: IvsService.ReplicationCommand, message: Option<string>)
    requires message.Some?
    requires Contains(message.value, "Cannot find module") || Contains(message.value, IvsService.CommandName(c))
    ensures Classify(IvsService.MapReplicationError(c, message)) == NeedsSdkUpgrade
  {
    IvsService.UpgradeMessageCharFree('b');
    NotContainsChar(IvsService.SDK_UPGRADE_MESSAGE, "not publishing", 6);
    IvsService.UpgradeMessageMentionsSdk();
  }

  /** The correction changes only messages that mention "sdk". */
  lemma ClassifyAgrees(message: Option<string>)
    requires !Contains(ErrorText(message), "sdk")
    ensures Classify(message) == ClassifyAsWritten(message)
  {
  }

  // ---------------------------------------------------------------------
  // New stages

  /** `auto-stage-${Date.now()}` */
  function AutoStageName(now: nat): string {
    AUTO_STAGE_PREFIX + Decimal(now)
  }

  /** Stages made at different instants get different names. */
  lemma AutoStageNamesDistinct(a: nat, b: nat)
    requires a != b
    ensures AutoStageName(a) != AutoStageName(b)
  {
    DecimalValue(a);
    DecimalValue(b);
    var p := |AUTO_STAGE_PREFIX|;
    assert AutoStageName(a)[p..] == Decimal(a);
    assert AutoStageName(b)[p..] == Decimal(b);
  }

  /** `process.env.NODE_ENV || 'development'` */
  function EnvName(nodeEnv: Option<string>): string {
    if Present(nodeEnv) then nodeEnv.value else "development"
  }

  /** The tags an auto-scaled stage is created with. */
  function AutoTags(sourceStageArn: string, nowIso: string, nodeEnv: Option<string>): map<string, string> {
    map["AutoScaled" := "true", "CreatedAt" := nowIso, "ParentStage" := sourceStageArn,
        "Environment" := EnvName(nodeEnv)]
  }

  /** The record stored under `stage:{arn}` for a new auto-scaled stage. */
  function AutoStageInfo(arn: string, sourceStageArn: string, now: nat): StageInfo {
    StageInfo(AutoStageName(now), Some(arn), true, now, Some(sourceStageArn), None)
  }

  /** ReplicationFailed carries how the failure is logged and the message of
      the error caught: Redis's, or the one StartParticipantReplication
      returned before IVSService maps it. */
  datatype ReplicationOutcome = Replicated | NoPublisher | ReplicationFailed(kind: FailureKind, message: Option<string>)

  /** CreatedWithoutArn: CreateStage succeeded but its response carried no
      ARN, so nothing is recorded or replicated. */
  datatype ScaleUpOutcome = CreateFailed | CreatedWithoutArn | Created(arn: string, replication: ReplicationOutcome)

  /** The CreateStage request `scaleUp` sends. */
  function AutoCreateRequest(sourceStageArn: string, now: nat, nowIso: string, nodeEnv: Option<string>): IvsCloud.Request {
    IvsCloud.CreateReq(AutoStageName(now), AutoTags(sourceStageArn, nowIso, nodeEnv))
  }

  // ---------------------------------------------------------------------
  // Deleting stages

  /** `(now - createdAt) / 60000 < 5`, in minutes as the source computes it. */
  predicate InWarmup(createdAt: int, now: int) {
    ((now - createdAt) as real) / 60000.0 < WARMUP_MINUTES as real
  }

  lemma InWarmupIff(createdAt: int, now: int)
    ensures InWarmup(createdAt, now) <==> now - createdAt < WARMUP_MS
  {
    var d := (now - createdAt) as real;
    assert d / 60000.0 * 60000.0 == d;
  }

  /** What `scaleDown` checks before deleting: the stage record reads back,
      says auto-scaled, the count is at most the threshold, and the warm-up
      is over (stated in milliseconds; InWarmupIff ties it to the source's
      test in minutes). */
  predicate ScaleDownEligible(info: Read<StageInfo>, count: nat, now: int) {
    info.Parsed? && info.value.autoScaled && count <= SCALE_DOWN_THRESHOLD
    && now - info.value.createdAt >= WARMUP_MS
  }

  /** An auto-scaled stage recorded at t with few viewers may be deleted from
      five minutes after t through the instant its record expires, an hour
      after t; outside that window it is kept. */
  lemma DeletionWindow(ks: KeySpace, prefix: string, arn: string, source: string, t: nat, later: int, count: nat)
    requires t <= later && count <= SCALE_DOWN_THRESHOLD
    ensures var k := Prefixed(prefix, StageInfoKey(arn));
      var after := ks.SetText(k, StageInfoText(AutoStageInfo(arn, source, t)), STAGE_INFO_TTL, t);
      (ScaleDownEligible(DecodeStageInfo(after.Get(k, later)), count, later)
       <==> t + WARMUP_MS <= later <= t + STAGE_INFO_TTL * 1000)
  {
    StageInfoExpires(ks, prefix, arn, AutoStageInfo(arn, source, t), t, later);
    InWarmupIff(t, later);
  }

  /** The two keys `scaleDown` deletes after the stage is gone. */
  function Forget(ks: KeySpace, prefix: string, arn: string): KeySpace {
    ks.Del(Prefixed(prefix, StageInfoKey(arn))).Del(Prefixed(prefix, ViewerCounterKey(arn)))
  }

  /** Deleting a stage leaves its viewer set (`stage:{arn}:viewers`) in the
      store: only the record and the old counter key go. */
  lemma ForgetKeepsViewerSet(ks: KeySpace, prefix: string, arn: string)
    ensures Forget(ks, prefix, arn).Members(Prefixed(prefix, ViewerSetKey(arn)))
         == ks.Members(Prefixed(prefix, ViewerSetKey(arn)))
  {
    var v := Prefixed(prefix, ViewerSetKey(arn));
    assert |v| != |Prefixed(prefix, StageInfoKey(arn))|;
    assert v[|prefix|] == 's' && Prefixed(prefix, ViewerCounterKey(arn))[|prefix|] == 'v';
  }

  /** The record `scaleDown` reads for a stage. */
  function StageInfoAt(ks: KeySpace, prefix: string, arn: string, now: int): Read<StageInfo> {
    DecodeStageInfo(ks.Get(Prefixed(prefix, StageInfoKey(arn)), now))
  }

  /** The replication record `scaleDown` reads for a stage. */
  function ReplicationAt(ks: KeySpace, prefix: string, arn: string, now: int): Read<ReplicationInfo> {
    DecodeReplication(ks.Get(Prefixed(prefix, ReplicationKey(arn)), now))
  }

  /** The requests `scaleDown` sends once it has decided to delete: a stop
      of the stage's recorded replication, when one reads back, and the
      delete, which is sent whatever became of the stop. */
  function RetireRequests(ks: KeySpace, prefix: string, arn: string, now: int): seq<IvsCloud.Request> {
    var rep := ReplicationAt(ks, prefix, arn, now);
    (if rep.Parsed?
     then [IvsCloud.StopReq(IvsCloud.Replication(rep.value.sourceStageArn, arn, rep.value.participantId))]
     else [])
    + [IvsCloud.DeleteReq(arn)]
  }

  /** The requests `scaleDown` sends to IVS: none unless the stage is
      eligible, then those of retiring it. */
  function DownRequests(ks: KeySpace, prefix: string, arn: string, count: nat, now: int): seq<IvsCloud.Request> {
    if ScaleDownEligible(StageInfoAt(ks, prefix, arn, now), count, now) then RetireRequests(ks, prefix, arn, now) else []
  }

  /** `scaleDown` asks to delete exactly the eligible stage, and creates none. */
  lemma DownRequestsDeletes(ks: KeySpace, prefix: string, arn: string, count: nat, now: int)
    ensures IvsCloud.DeletesIn(DownRequests(ks, prefix, arn, count, now))
         == if ScaleDownEligible(StageInfoAt(ks, prefix, arn, now), count, now) then [arn] else []
    ensures IvsCloud.CreatesIn(DownRequests(ks, prefix, arn, count, now)) == []
  {
    var rs := DownRequests(ks, prefix, arn, count, now);
    if rs != [] {
      var stop := rs[..|rs| - 1];
      assert rs == stop + [IvsCloud.DeleteReq(arn)];
      IvsCloud.RequestsAppend(stop, [IvsCloud.DeleteReq(arn)]);
      assert IvsCloud.DeletesIn(stop) == [] && IvsCloud.CreatesIn(stop) == [] by {
        if stop != [] {
          assert stop[1..] == [];
        }
      }
    }
  }

  /** The store after `scaleDown`, given whether it stopped the replication
      and whether the stage was deleted. */
  function AfterScaleDown(ks: KeySpace, prefix: string, arn: string, stopped: bool, deleted: bool): KeySpace {
    var ks1 := if stopped then ks.Del(Prefixed(prefix, ReplicationKey(arn))) else ks;
    if deleted then Forget(ks1, prefix, arn) else ks1
  }

  /** The keys the scaler reads for a stage: its record, its replication
      record and its viewer set. */
  function StageKeys(prefix: string, arn: string): set<string> {
    {Prefixed(prefix, StageInfoKey(arn)), Prefixed(prefix, ReplicationKey(arn)), Prefixed(prefix, ViewerSetKey(arn))}
  }

  /** Two stores agree on everything the scaler reads for one stage. */
  predicate SameStageKeys(ks1: KeySpace, ks2: KeySpace, prefix: string, arn: string, now: int) {
    && ks1.Get(Prefixed(prefix, StageInfoKey(arn)), now) == ks2.Get(Prefixed(prefix, StageInfoKey(arn)), now)
    && ks1.Get(Prefixed(prefix, ReplicationKey(arn)), now) == ks2.Get(Prefixed(prefix, ReplicationKey(arn)), now)
    && ks1.Get(Prefixed(prefix, ViewerSetKey(arn)), now) == ks2.Get(Prefixed(prefix, ViewerSetKey(arn)), now)
    && ks1.Members(Prefixed(prefix, ViewerSetKey(arn))) == ks2.Members(Prefixed(prefix, ViewerSetKey(arn)))
  }

  /** Stores that agree on a stage's keys give it the same count and the
      same scale-down requests. */
  lemma SameKeysSameReads(ks1: KeySpace, ks2: KeySpace, prefix: string, arn: string, count: nat, now: int)
    requires SameStageKeys(ks1, ks2, prefix, arn, now)
    ensures ViewerCount(ks1, prefix, arn, now) == ViewerCount(ks2, prefix, arn, now)
    ensures DownRequests(ks1, prefix, arn, count, now) == DownRequests(ks2, prefix, arn, count, now)
  {
  }

  /** The keys written or deleted for a stage with a valid ARN are none of
      another stage's keys. */
  lemma OtherStageKeys(prefix: string, a: string, b: string)
    requires a != b && IvsService.ValidateStageArn(a)
    ensures Prefixed(prefix, StageInfoKey(a)) !in StageKeys(prefix, b)
    ensures Prefixed(prefix, ReplicationKey(a)) !in StageKeys(prefix, b)
    ensures Prefixed(prefix, ViewerCounterKey(a)) !in StageKeys(prefix, b)
  {
    var n := |prefix|;
    assert Prefixed(prefix, StageInfoKey(a))[n] == 's' && Prefixed(prefix, ReplicationKey(a))[n] == 'r';
    assert Prefixed(prefix, ViewerCounterKey(a))[n] == 'v';
    assert Prefixed(prefix, StageInfoKey(b))[n] == 's' && Prefixed(prefix, ViewerSetKey(b))[n] == 's';
    assert Prefixed(prefix, ReplicationKey(b))[n] == 'r';
    assert StageInfoKey(a)[6..] == a && StageInfoKey(b)[6..] == b;
    assert ReplicationKey(a)[12..] == a && ReplicationKey(b)[12..] == b;
    assert ViewerSetKey(b)[6..] == b + ":viewers";
    IvsService.ValidArnNotViewerSuffix(a, b);
  }

  /** A write or delete at a key outside a stage's keys leaves them as they were. */
  lemma ChangeElsewhere(ks: KeySpace, k: string, t: Text, ttl: nat, prefix: string, b: string, now: int)
    requires k !in StageKeys(prefix, b)
    ensures SameStageKeys(ks, ks.SetText(k, t, ttl, now), prefix, b, now)
    ensures SameStageKeys(ks, ks.Del(k), prefix, b, now)
  {
  }

  /** `scaleDown` of a stage with a valid ARN leaves every other stage's keys. */
  lemma ScaleDownElsewhere(ks: KeySpace, prefix: string, a: string, b: string, stopped: bool, deleted: bool, now: int)
    requires a != b && IvsService.ValidateStageArn(a)
    ensures SameStageKeys(ks, AfterScaleDown(ks, prefix, a, stopped, deleted), prefix, b, now)
  {
    OtherStageKeys(prefix, a, b);
    var ks1 := if stopped then ks.Del(Prefixed(prefix, ReplicationKey(a))) else ks;
    ChangeElsewhere(ks, Prefixed(prefix, ReplicationKey(a)), Plain(""), 0, prefix, b, now);
    var ks2 := ks1.Del(Prefixed(prefix, StageInfoKey(a)));
    ChangeElsewhere(ks1, Prefixed(prefix, StageInfoKey(a)), Plain(""), 0, prefix, b, now);
    ChangeElsewhere(ks2, Prefixed(prefix, ViewerCounterKey(a)), Plain(""), 0, prefix, b, now);
  }

  /** What the scale-down loop sends for one listed stage: a `scaleDown`
      when it is not the master and has at most SCALE_DOWN_THRESHOLD viewers. */
  function AttemptRequests(ks: KeySpace, prefix: string, master: Option<string>, arn: string, now: int): seq<IvsCloud.Request> {
    var c := ViewerCount(ks, prefix, arn, now);
    if c <= SCALE_DOWN_THRESHOLD && master != Some(arn) then DownRequests(ks, prefix, arn, c, now) else []
  }

  /** What the whole scale-down loop sends, each stage judged on the store
      as it was before the loop. */
  function PassRequests(list: seq<Listed>, ks: KeySpace, prefix: string, master: Option<string>, now: int): seq<IvsCloud.Request>
    decreases |list|
  {
    if list == [] then []
    else PassRequests(list[..|list| - 1], ks, prefix, master, now) + AttemptRequests(ks, prefix, master, list[|list| - 1].arn, now)
  }

  /** A listed stage the loop deletes: not the master, and eligible with
      the count read for it. */
  predicate Deletable(ks: KeySpace, prefix: string, master: Option<string>, arn: string, now: int) {
    master != Some(arn) && ScaleDownEligible(StageInfoAt(ks, prefix, arn, now), ViewerCount(ks, prefix, arn, now), now)
  }

  /** One stage's attempt asks to delete that stage exactly when it is
      deletable, and creates nothing. */
  lemma AttemptDeletes(ks: KeySpace, prefix: string, master: Option<string>, arn: string, now: int)
    ensures IvsCloud.DeletesIn(AttemptRequests(ks, prefix, master, arn, now))
         == if Deletable(ks, prefix, master, arn, now) then [arn] else []
    ensures IvsCloud.CreatesIn(AttemptRequests(ks, prefix, master, arn, now)) == []
  {
    DownRequestsDeletes(ks, prefix, arn, ViewerCount(ks, prefix, arn, now), now);
  }

  /** The ARNs of a listing are those of all but its last stage, and the last. */
  lemma ArnsOfLast(list: seq<Listed>)
    requires list != []
    ensures ArnsOf(list) == ArnsOf(list[..|list| - 1]) + {list[|list| - 1].arn}
  {
  }

  /** The loop asks to delete exactly the deletable listed stages, and
      creates nothing. */
  lemma {:induction false} PassDeletes(list: seq<Listed>, ks: KeySpace, prefix: string, master: Option<string>, now: int)
    ensures forall a :: a in IvsCloud.DeletesIn(PassRequests(list, ks, prefix, master, now))
                        <==> a in ArnsOf(list) && Deletable(ks, prefix, master, a, now)
    ensures IvsCloud.CreatesIn(PassRequests(list, ks, prefix, master, now)) == []
    decreases |list|
  {
    if list != [] {
      var init, last := list[..|list| - 1], list[|list| - 1].arn;
      PassDeletes(init, ks, prefix, master, now);
      AttemptDeletes(ks, prefix, master, last, now);
      IvsCloud.RequestsAppend(PassRequests(init, ks, prefix, master, now), AttemptRequests(ks, prefix, master, last, now));
      ArnsOfLast(list);
    }
  }

  /** The loop's requests depend only on the listed stages' keys. */
  lemma {:induction false} PassRequestsFrame(list: seq<Listed>, ks1: KeySpace, ks2: KeySpace, prefix: string, master: Option<string>, now: int)
    requires forall k :: 0 <= k < |list| ==> SameStageKeys(ks1, ks2, prefix, list[k].arn, now)
    ensures PassRequests(list, ks1, prefix, master, now) == PassRequests(list, ks2, prefix, master, now)
    decreases |list|
  {
    if list != [] {
      var last := list[|list| - 1].arn;
      PassRequestsFrame(list[..|list| - 1], ks1, ks2, prefix, master, now);
      SameKeysSameReads(ks1, ks2, prefix, last, ViewerCount(ks1, prefix, last, now), now);
    }
  }

  /** One more stage of the loop, judged on a store that agrees with the
      first on that stage's keys. */
  lemma PassRequestsStep(list: seq<Listed>, i: nat, ks0: KeySpace, ksi: KeySpace, prefix: string, master: Option<string>, now: int)
    requires i < |list| && SameStageKeys(ks0, ksi, prefix, list[i].arn, now)
    ensures PassRequests(list[..i + 1], ks0, prefix, master, now)
         == PassRequests(list[..i], ks0, prefix, master, now) + AttemptRequests(ksi, prefix, master, list[i].arn, now)
  {
    assert list[..i + 1][..i] == list[..i];
    SameKeysSameReads(ks0, ksi, prefix, list[i].arn, ViewerCount(ks0, prefix, list[i].arn, now), now);
  }

  /** After a `scaleDown` of the i-th stage the later stages' keys still
      agree with the store before the loop. */
  lemma PassKeysStep(list: seq<Listed>, i: nat, ks0: KeySpace, ksi: KeySpace, prefix: string,
                     stopped: bool, deleted: bool, now: int)
    requires i < |list| && DistinctValidArns(list)
    requires forall k :: i <= k < |list| ==> SameStageKeys(ks0, ksi, prefix, list[k].arn, now)
    ensures var next := AfterScaleDown(ksi, prefix, list[i].arn, stopped, deleted);
      forall k :: i < k < |list| ==> SameStageKeys(ks0, next, prefix, list[k].arn, now)
  {
    forall k | i < k < |list|
      ensures SameStageKeys(ks0, AfterScaleDown(ksi, prefix, list[i].arn, stopped, deleted), prefix, list[k].arn, now)
    {
      ScaleDownElsewhere(ksi, prefix, list[i].arn, list[k].arn, stopped, deleted, now);
    }
  }

  /** Requests after a CreateStage that are all StartParticipantReplication
      add no create and no delete. */
  lemma {:induction false} AfterCreate(before: seq<IvsCloud.Request>, after: seq<IvsCloud.Request>, create: IvsCloud.Request)
    requires create.CreateReq?
    requires |after| > |before| && after[..|before| + 1] == before + [create]
    requires forall j :: |before| < j < |after| ==> after[j].StartReq?
    ensures IvsCloud.CreatesIn(after) == IvsCloud.CreatesIn(before) + [create]
    ensures IvsCloud.DeletesIn(after) == IvsCloud.DeletesIn(before)
    decreases |after|
  {
    if |after| == |before| + 1 {
      assert after == before + [create];
      IvsCloud.RequestsAppend(before, [create]);
      assert [create][1..] == [];
    } else {
      var init := after[..|after| - 1];
      assert init[..|before| + 1] == after[..|before| + 1];
      AfterCreate(before, init, create);
      var last := after[|after| - 1];
      assert after == init + [last];
      IvsCloud.RequestsAppend(init, [last]);
      assert [last][1..] == [];
    }
  }

  /** The scale-down loop's bookkeeping of which stages may have left the
      cloud: only stages among the first i listed, none of them the master. */
  ghost predicate LeftSoFar(before: seq<IvsCloud.StageSummary>, stages: seq<IvsCloud.StageSummary>,
                            list: seq<Listed>, i: nat, master: Option<string>)
    requires i <= |list|
  {
    forall a :: a in IvsCloud.ArnSet(before) && a !in IvsCloud.ArnSet(stages)
      ==> (exists k :: 0 <= k < i && list[k].arn == a) && master != Some(a)
  }

  /** LeftSoFar over one more stage, whose `scaleDown` at most deleted it. */
  lemma LeftStep(before: seq<IvsCloud.StageSummary>, prev: seq<IvsCloud.StageSummary>, next: seq<IvsCloud.StageSummary>,
                 list: seq<Listed>, i: nat, master: Option<string>)
    requires i < |list|
    requires next == prev || (master != Some(list[i].arn) && next == IvsCloud.Without(prev, list[i].arn))
    requires LeftSoFar(before, prev, list, i, master)
    ensures LeftSoFar(before, next, list, i + 1, master)
  {
  }

  /** The scale-down loop's invariant on a listing IVS could return: the
      requests sent for the first i stages are those PassRequests gives on
      the store before the loop, and the stages still to come have their
      keys as they were then. */
  ghost predicate PassSoFar(list: seq<Listed>, i: nat, ks0: KeySpace, ks: KeySpace,
                            req0: seq<IvsCloud.Request>, reqs: seq<IvsCloud.Request>,
                            prefix: string, master: Option<string>, now: int)
    requires i <= |list|
  {
    DistinctValidArns(list) ==>
      && reqs == req0 + PassRequests(list[..i], ks0, prefix, master, now)
      && forall k :: i <= k < |list| ==> SameStageKeys(ks0, ks, prefix, list[k].arn, now)
  }

  /** One turn of the scale-down loop keeps PassSoFar. */
  lemma PassStep(list: seq<Listed>, i: nat, ks0: KeySpace, ksi: KeySpace, ksn: KeySpace,
                 req0: seq<IvsCloud.Request>, reqi: seq<IvsCloud.Request>, reqn: seq<IvsCloud.Request>,
                 prefix: string, master: Option<string>, stopped: bool, deleted: bool, now: int)
    requires i < |list| && PassSoFar(list, i, ks0, ksi, req0, reqi, prefix, master, now)
    requires reqn == reqi + AttemptRequests(ksi, prefix, master, list[i].arn, now)
    requires ksn == AfterScaleDown(ksi, prefix, list[i].arn, stopped, deleted)
    ensures PassSoFar(list, i + 1, ks0, ksn, req0, reqn, prefix, master, now)
  {
    if DistinctValidArns(list) {
      PassKeysStep(list, i, ks0, ksi, prefix, stopped, deleted, now);
      PassRequestsStep(list, i, ks0, ksi, prefix, master, now);
      Concat(reqn, reqi, req0, PassRequests(list[..i], ks0, prefix, master, now), AttemptRequests(ksi, prefix, master, list[i].arn, now));
    }
  }

  /** Every ARN in the listing is a stage in the cloud. */
  lemma ListedKnown(ss: seq<IvsCloud.StageSummary>, list: seq<Listed>)
    requires list == [] || list == Usable(Page(ss))
    ensures forall k :: 0 <= k < |list| ==> list[k].arn in IvsCloud.ArnSet(ss)
  {
    if list != [] {
      var pg := Page(ss);
      IvsCloud.ArnSetGrows(pg, ss[|pg|..]);
      assert pg + ss[|pg|..] == ss;
      forall k | 0 <= k < |list| ensures list[k].arn in IvsCloud.ArnSet(ss) {
        assert list[k] in list;
      }
    }
  }

  /** An ARN at some index of the listing is one of its ARNs. */
  lemma ArnsOfListed(list: seq<Listed>)
    ensures forall k :: 0 <= k < |list| ==> list[k].arn in ArnsOf(list)
  {
    forall k | 0 <= k < |list| ensures list[k].arn in ArnsOf(list) {
      assert list[k] in list;
    }
  }

  /** The deletes of a whole `checkAndScale`: none from the scale-up, then
      those of the scale-down loop, which judges the listed stages on keys
      the scale-up left as they were. */
  lemma CheckDeletes(list: seq<Listed>, ks0: KeySpace, ks1: KeySpace,
                     req0: seq<IvsCloud.Request>, req1: seq<IvsCloud.Request>, req2: seq<IvsCloud.Request>,
                     prefix: string, master: Option<string>, now: int)
    requires forall k :: 0 <= k < |list| ==> SameStageKeys(ks0, ks1, prefix, list[k].arn, now)
    requires IvsCloud.DeletesIn(req1) == IvsCloud.DeletesIn(req0)
    requires req2 == req1 + PassRequests(list, ks1, prefix, master, now)
    ensures IvsCloud.DeletesIn(req2) == IvsCloud.DeletesIn(req0) + IvsCloud.DeletesIn(PassRequests(list, ks0, prefix, master, now))
  {
    PassRequestsFrame(list, ks0, ks1, prefix, master, now);
    IvsCloud.RequestsAppend(req1, PassRequests(list, ks1, prefix, master, now));
  }

  lemma Concat(whole: seq<IvsCloud.Request>, first: seq<IvsCloud.Request>,
               start: seq<IvsCloud.Request>, done: seq<IvsCloud.Request>, sent: seq<IvsCloud.Request>)
    requires whole == first + sent && first == start + done
    ensures whole == start + (done + sent)
  {
  }

  /** What IVS guarantees of a listing: every ARN is well formed and none
      is listed twice. */
  predicate DistinctValidArns(list: seq<Listed>) {
    && (forall i :: 0 <= i < |list| ==> IvsService.ValidateStageArn(list[i].arn))
    && (forall i, j :: 0 <= i < j < |list| ==> list[i].arn != list[j].arn)
  }

  // ---------------------------------------------------------------------
  // Choosing a stage for a new viewer

  /** The loop of `getBestStageForViewer`: among stages under the scale-up
      threshold, the first with the fewest viewers. */
  function LeastLoaded(counts: seq<nat>): (r: Option<nat>)
    ensures r.Some? ==> r.value < |counts| && counts[r.value] < SCALE_UP_THRESHOLD
  {
    if |counts| == 0 then None
    else
      var r := LeastLoaded(counts[..|counts| - 1]);
      var c := counts[|counts| - 1];
      if c < SCALE_UP_THRESHOLD && (r.None? || c < counts[r.value]) then Some(|counts| - 1) else r
  }

  /** The chosen stage has the fewest viewers among those under the
      threshold, and is the first of them with that count; there is none
      exactly when every stage is at or over the threshold. */
  lemma {:induction false} LeastLoadedIsLeast(counts: seq<nat>)
    ensures var r := LeastLoaded(counts);
      r.Some? ==> forall j :: 0 <= j < |counts| && counts[j] < SCALE_UP_THRESHOLD ==> counts[r.value] <= counts[j]
    ensures var r := LeastLoaded(counts);
      r.Some? ==> forall j :: 0 <= j < r.value && counts[j] < SCALE_UP_THRESHOLD ==> counts[r.value] < counts[j]
    ensures LeastLoaded(counts).None? <==> forall j :: 0 <= j < |counts| ==> counts[j] >= SCALE_UP_THRESHOLD
  {
    if |counts| > 0 {
      var init := counts[..|counts| - 1];
      LeastLoadedIsLeast(init);
      assert forall j :: 0 <= j < |init| ==> init[j] == counts[j];
    }
  }

  /** One more count: it becomes the least loaded when it is under the
      threshold and strictly below the current least. */
  lemma LeastLoadedSnoc(counts: seq<nat>, c: nat)
    ensures var r := LeastLoaded(counts);
      LeastLoaded(counts + [c]) ==
        if c < SCALE_UP_THRESHOLD && (r.None? || c < counts[r.value]) then Some(|counts|) else r
  {
    assert (counts + [c])[..|counts|] == counts;
  }

  /** `x || null` for an optional string. */
  function OrNull(o: Option<string>): (r: Option<string>)
    ensures r.Some? <==> Present(o)
    ensures r.Some? ==> r == o
  {
    if Present(o) then o else None
  }

  /** What `getBestStageForViewer` returns for the listed stages and counts. */
  function BestStage(stages: seq<Listed>, counts: seq<nat>, master: Option<string>): (r: Option<string>)
    requires |counts| == |stages|
    ensures r.Some? ==> r.value != ""
    ensures r.Some? && r != master ==> exists i :: 0 <= i < |stages| && stages[i].arn == r.value
    ensures r.None? ==> !Present(master)
  {
    if |stages| == 0 then OrNull(master)
    else
      match LeastLoaded(counts)
      case None => OrNull(master)
      case Some(i) => if stages[i].arn != "" then Some(stages[i].arn) else OrNull(master)
  }

  /** A stage under the threshold is always preferred to the master stage,
      and the master is used only when every listed stage is full. */
  lemma BestStagePrefersRoom(stages: seq<Listed>, counts: seq<nat>, master: Option<string>)
    requires |counts| == |stages|
    requires forall i :: 0 <= i < |stages| ==> stages[i].arn != ""
    ensures (exists i :: 0 <= i < |counts| && counts[i] < SCALE_UP_THRESHOLD)
      ==> LeastLoaded(counts).Some?
          && BestStage(stages, counts, master) == Some(stages[LeastLoaded(counts).value].arn)
    ensures (forall i :: 0 <= i < |counts| ==> counts[i] >= SCALE_UP_THRESHOLD)
      ==> BestStage(stages, counts, master) == OrNull(master)
  {
    LeastLoadedIsLeast(counts);
  }

  // ---------------------------------------------------------------------
  // The service

  class StageAutoScaler {
    const redis: RedisService
    const cloud: IvsCloud.Cloud
    /** MASTER_STAGE_ARN */
    const master: Option<string>
    /** NODE_ENV */
    const nodeEnv: Option<string>
    var isRunning: bool
    /** Whether the health-check interval is set. */
    var hasTimer: bool

    ghost predicate Valid() reads this, redis {
      redis.Valid() && isRunning == hasTimer
    }

    constructor (redis: RedisService, cloud: IvsCloud.Cloud, master: Option<string>, nodeEnv: Option<string>)
      requires redis.Valid()
      ensures Valid() && !isRunning
      ensures this.redis == redis && this.cloud == cloud && this.master == master && this.nodeEnv == nodeEnv
    {
      this.redis := redis;
      this.cloud := cloud;
      this.master := master;
      this.nodeEnv := nodeEnv;
      isRunning := false;
      hasTimer := false;
    }

    /** `listAllStages`: [] when the call fails. */
    method ListAllStages() returns (stages: seq<Listed>)
      ensures stages == [] || stages == Usable(Page(cloud.stages))
    {
      var r := cloud.ListStages(LIST_PAGE);
      match r
      case Failed(_) => stages := [];
      case Done(list) => stages := Usable(list);
    }

    /** `scaleUp`: create a stage, record it, and replicate the publisher into
        it. A failed CreateStage, or a response without an ARN, records
        nothing; a replication failure only decides how it is logged, and is
        classified as the source does (`ClassifyAsWritten` of the mapped
        message). */
    method ScaleUp(sourceStageArn: string, now: nat, nowIso: string) returns (outcome: ScaleUpOutcome)
      requires Valid()
      modifies redis, cloud
      ensures Valid()
      ensures cloud.created == old(cloud.created) + (if outcome.CreateFailed? then 0 else 1)
      ensures !outcome.Created? ==>
        && redis.ks == old(redis.ks) && cloud.replications == old(cloud.replications)
        && cloud.requests == old(cloud.requests) + [AutoCreateRequest(sourceStageArn, now, nowIso, nodeEnv)]
      ensures outcome.CreateFailed? ==> cloud.stages == old(cloud.stages)
      ensures outcome.CreatedWithoutArn? ==>
        && |cloud.stages| == |old(cloud.stages)| + 1 && cloud.stages[..|old(cloud.stages)|] == old(cloud.stages)
        && cloud.stages[|old(cloud.stages)|].name == Some(AutoStageName(now))
        && cloud.stages[|old(cloud.stages)|].tags == AutoTags(sourceStageArn, nowIso, nodeEnv)
      ensures outcome.Created? ==>
        && outcome.arn !in IvsCloud.ArnSet(old(cloud.stages))
        && IvsService.ValidateStageArn(outcome.arn)
        && cloud.stages == old(cloud.stages)
             + [IvsCloud.StageSummary(Some(outcome.arn), Some(AutoStageName(now)), AutoTags(sourceStageArn, nowIso, nodeEnv))]
      ensures outcome.Created? ==>
        var create := AutoCreateRequest(sourceStageArn, now, nowIso, nodeEnv);
        var ks1 := old(redis.ks).SetText(redis.Key(StageInfoKey(outcome.arn)),
                     StageInfoText(AutoStageInfo(outcome.arn, sourceStageArn, now)), STAGE_INFO_TTL, now);
        var pub := DecodePublisher(ks1.Get(redis.Key(PUBLISHER_INFO), now));
        var start := if pub.Parsed?
                     then [IvsCloud.StartReq(IvsCloud.Replication(pub.value.stageArn, outcome.arn, pub.value.participantId))]
                     else [];
        match outcome.replication
        case Replicated =>
          && pub.Parsed? && pub.value.participantId != ""
          && cloud.requests == old(cloud.requests) + [create] + start
          && cloud.replications == old(cloud.replications)
               + {IvsCloud.Replication(pub.value.stageArn, outcome.arn, pub.value.participantId)}
          && redis.ks == ks1.SetText(redis.Key(ReplicationKey(outcome.arn)),
               ReplicationText(ReplicationInfo(pub.value.stageArn, outcome.arn, pub.value.participantId, now)),
               REPLICATION_TTL, now)
        case NoPublisher =>
          && (pub.Absent? || (pub.Parsed? && pub.value.participantId == ""))
          && cloud.requests == old(cloud.requests) + [create]
          && cloud.replications == old(cloud.replications) && redis.ks == ks1
        case ReplicationFailed(kind, message) =>
          && ((&& pub.Corrupt? && message == Some(WRONGTYPE_MESSAGE)
               && kind == ClassifyAsWritten(message))
              || (&& pub.Parsed? && pub.value.participantId != ""
                  && kind == ClassifyAsWritten(IvsService.MapReplicationError(IvsService.StartReplication, message))))
          && cloud.requests == old(cloud.requests) + [create] + start
          && cloud.replications == old(cloud.replications) && redis.ks == ks1
      ensures forall b :: b in IvsCloud.ArnSet(old(cloud.stages)) ==> SameStageKeys(old(redis.ks), redis.ks, redis.prefix, b, now)
      ensures && |cloud.requests| > |old(cloud.requests)|
              && cloud.requests[..|old(cloud.requests)| + 1] == old(cloud.requests) + [AutoCreateRequest(sourceStageArn, now, nowIso, nodeEnv)]
              && forall j :: |old(cloud.requests)| < j < |cloud.requests| ==> cloud.requests[j].StartReq?
    {
      // the listing `scaleUp` fetches first is only logged, and its errors are caught
      var name := AutoStageName(now);
      var created := cloud.CreateStage(name, AutoTags(sourceStageArn, nowIso, nodeEnv));
      if created.Failed? {
        return CreateFailed;
      }
      if created.value.None? {
        return CreatedWithoutArn;
      }
      var arn := created.value.value;
      redis.SetStageInfo(arn, AutoStageInfo(arn, sourceStageArn, now), now);
      forall b | b in IvsCloud.ArnSet(old(cloud.stages))
        ensures SameStageKeys(old(redis.ks), redis.ks, redis.prefix, b, now)
      {
        OtherStageKeys(redis.prefix, arn, b);
        ChangeElsewhere(old(redis.ks), redis.Key(StageInfoKey(arn)),
          StageInfoText(AutoStageInfo(arn, sourceStageArn, now)), STAGE_INFO_TTL, redis.prefix, b, now);
      }
      ghost var ks1 := redis.ks;
      var replication := ReplicateInto(arn, now);
      outcome := Created(arn, replication);
      forall b | b in IvsCloud.ArnSet(old(cloud.stages))
        ensures SameStageKeys(old(redis.ks), redis.ks, redis.prefix, b, now)
      {
        assert SameStageKeys(old(redis.ks), ks1, redis.prefix, b, now);
        assert SameStageKeys(ks1, redis.ks, redis.prefix, b, now);
      }
    }

    /** The replication half of `scaleUp`: read the publisher record and,
        when it names a participant, start replicating it into the new
        stage and record that. A failure is classified as the source does
        (`ClassifyAsWritten` of the message IVSService rethrows, or of Redis's
        WRONGTYPE message) and changes nothing else. */
    method ReplicateInto(arn: string, now: nat) returns (r: ReplicationOutcome)
      requires Valid() && IvsService.ValidateStageArn(arn)
      modifies redis, cloud
      ensures Valid()
      ensures cloud.stages == old(cloud.stages) && cloud.created == old(cloud.created)
      ensures var pub := DecodePublisher(old(redis.ks).Get(redis.Key(PUBLISHER_INFO), now));
        var start := if pub.Parsed?
                     then [IvsCloud.StartReq(IvsCloud.Replication(pub.value.stageArn, arn, pub.value.participantId))]
                     else [];
        match r
        case Replicated =>
          && pub.Parsed? && pub.value.participantId != ""
          && cloud.requests == old(cloud.requests) + start
          && cloud.replications == old(cloud.replications)
               + {IvsCloud.Replication(pub.value.stageArn, arn, pub.value.participantId)}
          && redis.ks == old(redis.ks).SetText(redis.Key(ReplicationKey(arn)),
               ReplicationText(ReplicationInfo(pub.value.stageArn, arn, pub.value.participantId, now)),
               REPLICATION_TTL, now)
        case NoPublisher =>
          && (pub.Absent? || (pub.Parsed? && pub.value.participantId == ""))
          && cloud.requests == old(cloud.requests)
          && cloud.replications == old(cloud.replications) && redis.ks == old(redis.ks)
        case ReplicationFailed(kind, message) =>
          && ((&& pub.Corrupt? && message == Some(WRONGTYPE_MESSAGE)
               && kind == ClassifyAsWritten(message))
              || (&& pub.Parsed? && pub.value.participantId != ""
                  && kind == ClassifyAsWritten(IvsService.MapReplicationError(IvsService.StartReplication, message))))
          && cloud.requests == old(cloud.requests) + start
          && cloud.replications == old(cloud.replications) && redis.ks == old(redis.ks)
      ensures forall b :: b != arn ==> SameStageKeys(old(redis.ks), redis.ks, redis.prefix, b, now)
    {
      var pub := redis.GetPublisherInfo(now);
      match pub
      case Corrupt =>
        // the GET throws WRONGTYPE inside the same try
        r := ReplicationFailed(ClassifyAsWritten(Some(WRONGTYPE_MESSAGE)), Some(WRONGTYPE_MESSAGE));
      case Absent =>
        r := NoPublisher;
      case Parsed(p) =>
        if p.participantId == "" {
          r := NoPublisher;
        } else {
          var started := cloud.StartReplication(p.stageArn, arn, p.participantId);
          match started
          case Done(_) =>
            redis.SetReplicationStatus(p.stageArn, arn, p.participantId, now);
            forall b | b != arn
              ensures SameStageKeys(old(redis.ks), redis.ks, redis.prefix, b, now)
            {
              OtherStageKeys(redis.prefix, arn, b);
              ChangeElsewhere(old(redis.ks), redis.Key(ReplicationKey(arn)),
                ReplicationText(ReplicationInfo(p.stageArn, arn, p.participantId, now)), REPLICATION_TTL, redis.prefix, b, now);
            }
            r := Replicated;
          case Failed(e) =>
            var message := IvsService.MapReplicationError(IvsService.StartReplication, e.message);
            r := ReplicationFailed(ClassifyAsWritten(message), e.message);
        }
    }

    /** `scaleDown`: delete an idle auto-scaled stage after its warm-up,
        stopping its replication first when one is recorded. `stopped` says
        the replication was stopped and its record cleared. A failed stop is
        logged and the delete is sent all the same; a failed delete keeps
        both keys. */
    method ScaleDown(stageArn: string, count: nat, now: int) returns (deleted: bool, stopped: bool)
      requires Valid()
      modifies redis, cloud
      ensures Valid()
      ensures cloud.created == old(cloud.created)
      ensures cloud.requests == old(cloud.requests) + DownRequests(old(redis.ks), redis.prefix, stageArn, count, now)
      ensures (ScaleDownEligible(StageInfoAt(old(redis.ks), redis.prefix, stageArn, now), count, now)
               <==> IvsCloud.DeleteReq(stageArn) in cloud.requests[|old(cloud.requests)|..])
      ensures (deleted || stopped) ==> ScaleDownEligible(StageInfoAt(old(redis.ks), redis.prefix, stageArn, now), count, now)
      ensures var rep := ReplicationAt(old(redis.ks), redis.prefix, stageArn, now);
        stopped ==> (&& rep.Parsed?
                     && cloud.replications == old(cloud.replications)
                          - {IvsCloud.Replication(rep.value.sourceStageArn, stageArn, rep.value.participantId)})
      ensures !stopped ==> cloud.replications == old(cloud.replications)
      ensures deleted ==> stageArn in IvsCloud.ArnSet(old(cloud.stages))
                          && cloud.stages == IvsCloud.Without(old(cloud.stages), stageArn)
      ensures !deleted ==> cloud.stages == old(cloud.stages)
      ensures redis.ks == AfterScaleDown(old(redis.ks), redis.prefix, stageArn, stopped, deleted)
    {
      deleted, stopped := false, false;
      var info := redis.GetStageInfo(stageArn, now);
      if info.Corrupt? || info.Absent? || !info.value.autoScaled {
        return;
      }
      InWarmupIff(info.value.createdAt, now);
      if count > SCALE_DOWN_THRESHOLD || InWarmup(info.value.createdAt, now) {
        return;
      }
      deleted, stopped := RetireStage(stageArn, now);
      assert IvsCloud.DeleteReq(stageArn) in cloud.requests[|old(cloud.requests)|..] by {
        var sent := cloud.requests[|old(cloud.requests)|..];
        assert sent == RetireRequests(old(redis.ks), redis.prefix, stageArn, now);
        assert sent[|sent| - 1] == IvsCloud.DeleteReq(stageArn);
      }
    }

    /** The second half of `scaleDown`, for an eligible stage: stop the
        replication recorded for it, if any (a failed stop is only logged),
        then delete the stage and, once IVS has done so, its record and its
        viewer counter. */
    method RetireStage(stageArn: string, now: int) returns (deleted: bool, stopped: bool)
      requires Valid()
      modifies redis, cloud
      ensures Valid()
      ensures cloud.created == old(cloud.created)
      ensures cloud.requests == old(cloud.requests) + RetireRequests(old(redis.ks), redis.prefix, stageArn, now)
      ensures var rep := ReplicationAt(old(redis.ks), redis.prefix, stageArn, now);
        stopped ==> (&& rep.Parsed?
                     && cloud.replications == old(cloud.replications)
                          - {IvsCloud.Replication(rep.value.sourceStageArn, stageArn, rep.value.participantId)})
      ensures !stopped ==> cloud.replications == old(cloud.replications)
      ensures deleted ==> stageArn in IvsCloud.ArnSet(old(cloud.stages))
                          && cloud.stages == IvsCloud.Without(old(cloud.stages), stageArn)
      ensures !deleted ==> cloud.stages == old(cloud.stages)
      ensures redis.ks == AfterScaleDown(old(redis.ks), redis.prefix, stageArn, stopped, deleted)
    {
      deleted, stopped := false, false;
      var rep := redis.GetReplicationStatus(stageArn, now);
      if rep.Parsed? {
        var r := cloud.StopReplication(rep.value.sourceStageArn, stageArn, rep.value.participantId);
        if r.Done? {
          redis.ClearReplicationStatus(stageArn);
          stopped := true;
        }
      }
      var d := cloud.DeleteStage(stageArn);
      if d.Failed? {
        return;
      }
      redis.Del(StageInfoKey(stageArn));
      redis.Del(ViewerCounterKey(stageArn));
      deleted := true;
    }

    /** `checkAndScale`, one health check. A stage is created exactly on a
        scale-up decision, from the source stage the busiest one names; the
        listed stages other than the master that `scaleDown` finds eligible
        are the ones asked to be deleted. */
    method CheckAndScale(now: nat, nowIso: string) returns (decision: Decision, ghost stages: seq<Listed>)
      requires Valid()
      modifies redis, cloud
      ensures Valid()
      ensures stages == [] || stages == Usable(Page(old(cloud.stages)))
      ensures decision == Decide(Counts(old(redis.ks), redis.prefix, stages, now))
      ensures decision.Halt? ==> && redis.ks == old(redis.ks) && cloud.stages == old(cloud.stages)
                                 && cloud.replications == old(cloud.replications)
                                 && cloud.requests == old(cloud.requests)
      ensures IvsCloud.CreatesIn(cloud.requests) == IvsCloud.CreatesIn(old(cloud.requests))
                + (if decision.ScaleUpFrom?
                   then [AutoCreateRequest(SourceArn(stages, decision.index), now, nowIso, nodeEnv)]
                   else [])
      ensures cloud.created <= old(cloud.created) + (if decision.ScaleUpFrom? then 1 else 0)
      ensures !decision.Halt? && DistinctValidArns(stages) ==>
                IvsCloud.DeletesIn(cloud.requests) == IvsCloud.DeletesIn(old(cloud.requests))
                  + IvsCloud.DeletesIn(PassRequests(stages, old(redis.ks), redis.prefix, master, now))
      ensures forall a :: a in IvsCloud.ArnSet(old(cloud.stages)) && a !in IvsCloud.ArnSet(cloud.stages)
                ==> a in ArnsOf(stages) && master != Some(a)
    {
      var list := ListAllStages();
      stages := list;
      var counts, total := CountAll(list, now);
      decision := Decide(counts);
      if decision.Halt? {
        return;
      }
      ListedKnown(old(cloud.stages), list);
      ScaleUpThenDown(list, decision, now, nowIso);
    }

    /** The part of `checkAndScale` after the sanity check: a scale-up on a
        ScaleUpFrom decision, then the scale-down loop over the same listing. */
    method ScaleUpThenDown(list: seq<Listed>, decision: Decision, now: nat, nowIso: string)
      requires Valid()
      requires forall k :: 0 <= k < |list| ==> list[k].arn in IvsCloud.ArnSet(cloud.stages)
      requires decision.ScaleUpFrom? ==> decision.index < |list|
      modifies redis, cloud
      ensures Valid()
      ensures IvsCloud.CreatesIn(cloud.requests) == IvsCloud.CreatesIn(old(cloud.requests))
                + (if decision.ScaleUpFrom?
                   then [AutoCreateRequest(SourceArn(list, decision.index), now, nowIso, nodeEnv)]
                   else [])
      ensures cloud.created <= old(cloud.created) + (if decision.ScaleUpFrom? then 1 else 0)
      ensures DistinctValidArns(list) ==>
                IvsCloud.DeletesIn(cloud.requests) == IvsCloud.DeletesIn(old(cloud.requests))
                  + IvsCloud.DeletesIn(PassRequests(list, old(redis.ks), redis.prefix, master, now))
      ensures forall a :: a in IvsCloud.ArnSet(old(cloud.stages)) && a !in IvsCloud.ArnSet(cloud.stages)
                ==> a in ArnsOf(list) && master != Some(a)
    {
      if decision.ScaleUpFrom? {
        ScaleUpFromBusiest(list, decision.index, now, nowIso);
      }
      ghost var midKs := redis.ks;
      ghost var midRequests := cloud.requests;
      ScaleDownPass(list, now);
      if DistinctValidArns(list) {
        CheckDeletes(list, old(redis.ks), midKs, old(cloud.requests), midRequests, cloud.requests, redis.prefix, master, now);
      }
      ArnsOfListed(list);
    }

    /** The scale-up branch of `checkAndScale`: `scaleUp` from the listed
        stage whose ARN is the first to contain the last twelve characters
        of the m-th (busiest) stage's ARN. It sends one CreateStage and no
        DeleteStage, and leaves every known stage's keys as they were. */
    method ScaleUpFromBusiest(list: seq<Listed>, m: nat, now: nat, nowIso: string)
      requires Valid() && m < |list|
      modifies redis, cloud
      ensures Valid()
      ensures IvsCloud.CreatesIn(cloud.requests)
                == IvsCloud.CreatesIn(old(cloud.requests)) + [AutoCreateRequest(SourceArn(list, m), now, nowIso, nodeEnv)]
      ensures IvsCloud.DeletesIn(cloud.requests) == IvsCloud.DeletesIn(old(cloud.requests))
      ensures cloud.created <= old(cloud.created) + 1
      ensures IvsCloud.ArnSet(old(cloud.stages)) <= IvsCloud.ArnSet(cloud.stages)
      ensures forall b :: b in IvsCloud.ArnSet(old(cloud.stages)) ==> SameStageKeys(old(redis.ks), redis.ks, redis.prefix, b, now)
    {
      SourceStageFound(list, m);
      var j := FirstContaining(list, Last12(list[m].arn));
      var outcome := ScaleUp(list[j].arn, now, nowIso);
      AfterCreate(old(cloud.requests), cloud.requests, AutoCreateRequest(SourceArn(list, m), now, nowIso, nodeEnv));
      if !outcome.CreateFailed? {
        var n := |old(cloud.stages)|;
        IvsCloud.ArnSetGrows(old(cloud.stages), cloud.stages[n..]);
        assert cloud.stages[..n] + cloud.stages[n..] == cloud.stages;
      }
    }

    /** The viewer count of each listed stage, and their sum. */
    method CountAll(list: seq<Listed>, now: int) returns (counts: seq<nat>, total: nat)
      ensures counts == Counts(redis.ks, redis.prefix, list, now)
      ensures total == Sum(counts)
    {
      counts := [];
      total := 0;
      var i := 0;
      while i < |list|
        invariant 0 <= i <= |list|
        invariant counts == Counts(redis.ks, redis.prefix, list[..i], now)
        invariant total == Sum(counts)
      {
        var c := redis.GetStageViewerCount(list[i].arn, now);
        CountsSnoc(redis.ks, redis.prefix, list, i, now);
        assert (counts + [c])[..|counts|] == counts;
        counts := counts + [c];
        total := total + c;
        i := i + 1;
      }
      assert list[..i] == list;
    }

    /** One turn of the scale-down loop: read the stage's viewer count and,
        unless it is the master or has more than SCALE_DOWN_THRESHOLD
        viewers, `scaleDown` it. */
    method ScaleDownStage(arn: string, now: nat) returns (stopped: bool, deleted: bool)
      requires Valid()
      modifies redis, cloud
      ensures Valid()
      ensures cloud.created == old(cloud.created)
      ensures cloud.requests == old(cloud.requests) + AttemptRequests(old(redis.ks), redis.prefix, master, arn, now)
      ensures IvsCloud.CreatesIn(cloud.requests) == IvsCloud.CreatesIn(old(cloud.requests))
      ensures redis.ks == AfterScaleDown(old(redis.ks), redis.prefix, arn, stopped, deleted)
      ensures cloud.stages == old(cloud.stages)
              || (master != Some(arn) && cloud.stages == IvsCloud.Without(old(cloud.stages), arn))
    {
      stopped, deleted := false, false;
      var c := redis.GetStageViewerCount(arn, now);
      if c <= SCALE_DOWN_THRESHOLD && master != Some(arn) {
        deleted, stopped := ScaleDown(arn, c, now);
      }
      AttemptDeletes(old(redis.ks), redis.prefix, master, arn, now);
      IvsCloud.RequestsAppend(old(cloud.requests), AttemptRequests(old(redis.ks), redis.prefix, master, arn, now));
    }

    /** The scale-down loop of `checkAndScale`: each listed stage other than
        the master at or under the threshold gets a `scaleDown`. On a listing
        IVS could return, the requests sent are exactly PassRequests. Only
        listed stages leave the cloud, and nothing is created. */
    method ScaleDownPass(list: seq<Listed>, now: nat)
      requires Valid()
      modifies redis, cloud
      ensures Valid()
      ensures cloud.created == old(cloud.created)
      ensures IvsCloud.CreatesIn(cloud.requests) == IvsCloud.CreatesIn(old(cloud.requests))
      ensures DistinctValidArns(list) ==>
                cloud.requests == old(cloud.requests) + PassRequests(list, old(redis.ks), redis.prefix, master, now)
      ensures forall a :: a in IvsCloud.ArnSet(old(cloud.stages)) && a !in IvsCloud.ArnSet(cloud.stages)
                ==> (exists k :: 0 <= k < |list| && list[k].arn == a) && master != Some(a)
    {
      ghost var before := cloud.stages;
      ghost var ks0 := redis.ks;
      ghost var req0 := cloud.requests;
      assert PassRequests(list[..0], ks0, redis.prefix, master, now) == [];
      assert cloud.requests == req0 + PassRequests(list[..0], ks0, redis.prefix, master, now);
      var i := 0;
      while i < |list|
        invariant 0 <= i <= |list|
        invariant Valid()
        invariant cloud.created == old(cloud.created)
        invariant IvsCloud.CreatesIn(cloud.requests) == IvsCloud.CreatesIn(req0)
        invariant PassSoFar(list, i, ks0, redis.ks, req0, cloud.requests, redis.prefix, master, now)
        invariant LeftSoFar(before, cloud.stages, list, i, master)
      {
        var arn := list[i].arn;
        ghost var ksi := redis.ks;
        ghost var reqi := cloud.requests;
        ghost var stagesi := cloud.stages;
        var stopped, deleted := ScaleDownStage(arn, now);
        PassStep(list, i, ks0, ksi, redis.ks, req0, reqi, cloud.requests, redis.prefix, master, stopped, deleted, now);
        LeftStep(before, stagesi, cloud.stages, list, i, master);
        i := i + 1;
      }
      assert list[..i] == list;
    }

    /** `getBestStageForViewer` */
    method BestStageForViewer(now: int) returns (best: Option<string>, ghost stages: seq<Listed>)
      ensures stages == [] || stages == Usable(Page(cloud.stages))
      ensures best == BestStage(stages, Counts(redis.ks, redis.prefix, stages, now), master)
    {
      var list := ListAllStages();
      stages := list;
      if |list| == 0 {
        best := OrNull(master);
        return;
      }
      var bestArn: Option<string> := None;
      var minViewers: Option<nat> := None;   // None is the initial Infinity
      ghost var counts: seq<nat> := [];
      var i := 0;
      while i < |list|
        invariant 0 <= i <= |list|
        invariant counts == Counts(redis.ks, redis.prefix, list[..i], now)
        invariant LeastLoaded(counts).None? ==> bestArn.None? && minViewers.None?
        invariant LeastLoaded(counts).Some? ==>
          bestArn == Some(list[LeastLoaded(counts).value].arn) && minViewers == Some(counts[LeastLoaded(counts).value])
      {
        var c := redis.GetStageViewerCount(list[i].arn, now);
        if c < SCALE_UP_THRESHOLD && (minViewers.None? || c < minViewers.value) {
          minViewers := Some(c);
          bestArn := Some(list[i].arn);
        }
        CountsSnoc(redis.ks, redis.prefix, list, i, now);
        LeastLoadedSnoc(counts, c);
        counts := counts + [c];
        i := i + 1;
      }
      assert list[..i] == list;
      best := if bestArn.Some? && bestArn.value != "" then bestArn else OrNull(master);
    }

    /** `startMonitoring`: a second start only warns; the first runs a
        health check at once and sets the interval. */
    method StartMonitoring(now: nat, nowIso: string)
      requires Valid()
      modifies this, redis, cloud
      ensures Valid() && isRunning && hasTimer
      ensures old(isRunning) ==> redis.ks == old(redis.ks) && cloud.stages == old(cloud.stages)
                                 && cloud.replications == old(cloud.replications)
      ensures cloud.created <= old(cloud.created) + 1
    {
      if isRunning {
        return;
      }
      // the first check is started before the interval is set; neither
      // touches the other's state
      var _, _ := CheckAndScale(now, nowIso);
      isRunning := true;
      hasTimer := true;
    }

    /** `stopMonitoring` */
    method StopMonitoring()
      requires Valid()
      modifies this
      ensures Valid() && !isRunning && !hasTimer
      ensures redis.ks == old(redis.ks)
    {
      if hasTimer {
        hasTimer := false;
        isRunning := false;
      }
    }
  }
}
