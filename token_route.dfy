/** The token routes (api-server/src/routes/token.ts): admitting a viewer to a
    stage (POST /viewer) and issuing the publisher a token for every active
    stage (POST /publisher-all). Each request is handled at one instant `now`. */
module TokenRoute {
  import opened Common
  import opened RedisService
  import IvsService
  import IvsCloud
  import ViewerHeartbeat
  import StageAutoScaling

  /** Viewers a stage admits before POST /viewer answers STAGE_FULL. */
  const STAGE_CAPACITY := 50

  // ---------------------------------------------------------------------
  // POST /viewer

  /** How POST /viewer answers. */
  datatype ViewerReply =
    | MissingUserId        // 400
    | NoStageConfigured    // 500: no target stage at all
    | PublisherOffline     // 404
    | StageFull            // 503 STAGE_FULL
    | TokenFailed          // 500: a thrown error
    | ViewerToken(token: string, participantId: string, stageArn: string, currentViewers: nat)

  /** The stage a viewer is sent to: the requested one, else the scaler's
      choice, else MASTER_STAGE_ARN; None when none of them is set. */
  function Target(requested: Option<string>, best: Option<string>, master: Option<string>): (r: Option<string>)
    ensures r.Some? ==> r.value != ""
    ensures Present(requested) ==> r == requested
    ensures !Present(requested) && Present(best) ==> r == best
    ensures !Present(requested) && !Present(best) ==> r == StageAutoScaling.OrNull(master)
  {
    if Present(requested) then requested
    else if Present(best) then best
    else StageAutoScaling.OrNull(master)
  }

  /** The checks of POST /viewer in the order they are made. */
  datatype Gate = NeedUserId | NeedStage | StoreError | Offline | Full | Pass

  function Admission(userId: Option<string>, target: Option<string>, live: Reply<bool>, count: nat): (g: Gate)
    ensures g == NeedUserId <==> !Present(userId)
    ensures g == NeedStage <==> Present(userId) && target.None?
    ensures g == Offline <==> Present(userId) && target.Some? && live == Ok(false)
    ensures g == Full <==> Present(userId) && target.Some? && live == Ok(true) && count >= STAGE_CAPACITY
    ensures g == Pass <==> Present(userId) && target.Some? && live == Ok(true) && count < STAGE_CAPACITY
  {
    if !Present(userId) then NeedUserId
    else if target.None? then NeedStage
    else if live.WrongType? then StoreError
    else if !live.value then Offline
    else if count >= STAGE_CAPACITY then Full
    else Pass
  }

  /** The reply each gate leads to; a passed gate may still fail on the token. */
  predicate Answers(g: Gate, reply: ViewerReply) {
    match g
    case NeedUserId => reply == MissingUserId
    case NeedStage => reply == NoStageConfigured
    case StoreError => reply == TokenFailed
    case Offline => reply == PublisherOffline
    case Full => reply == StageFull
    case Pass => reply.ViewerToken? || reply == TokenFailed
  }

  /** The count the capacity check reads for a target. */
  function CountAt(ks: KeySpace, prefix: string, target: Option<string>, now: int): nat {
    if target.Some? then ViewerCount(ks, prefix, target.value, now) else 0
  }

  /** The reported `currentViewers` (count before the join, plus one) is the
      set's size after the join exactly when the viewer was not yet a member;
      a viewer already in the set is counted twice. */
  lemma ReportedCount(ks: KeySpace, prefix: string, u: string, arn: string, pid: string, now: int)
    requires ks.TypeOf(Prefixed(prefix, ViewerSetKey(arn)), now) != StringType
    ensures var after := ViewerHeartbeat.JoinStore(ks, prefix, u, arn, pid, now);
      (ViewerCount(ks, prefix, arn, now) + 1 == ViewerCount(after, prefix, arn, now))
        <==> u !in ks.Members(Prefixed(prefix, ViewerSetKey(arn)))
  {
    var k := Prefixed(prefix, ViewerSetKey(arn));
    var after := ViewerHeartbeat.JoinStore(ks, prefix, u, arn, pid, now);
    ViewerHeartbeat.JoinRecordsSession(ks, prefix, u, arn, pid, now, now);
    ViewerCountIsCardinality(ks, prefix, arn, now);
    ViewerCountIsCardinality(after, prefix, arn, now);
    assert after.TypeOf(k, now) == SetType;
    if u in ks.Members(k) {
      assert ks.Members(k) + {u} == ks.Members(k);
    }
  }

  // ---------------------------------------------------------------------
  // POST /publisher-all

  /** One entry of the reply: a token for the stage, or the failure. */
  datatype TokenResult = TokenResult(stageArn: string, success: bool, token: string, participantId: string)

  datatype PublisherAllReply =
    | PublisherMissingUserId   // 400
    | NoStages                 // 500
    | PublisherTokens(totalStages: nat, successful: seq<TokenResult>, failed: seq<TokenResult>)

  /** The stages to publish to: the active ones, else the master stage. */
  function PublishTargets(active: seq<string>, master: Option<string>): (r: seq<string>)
    ensures |active| > 0 ==> r == active
    ensures |active| == 0 ==> (r == [] <==> !Present(master))
    ensures |active| == 0 && Present(master) ==> r == [master.value]
  {
    if |active| == 0 && Present(master) then [master.value] else active
  }

  /** `tokens.filter(t => t.success)` */
  function Successful(rs: seq<TokenResult>): seq<TokenResult> {
    if rs == [] then []
    else (if rs[0].success then [rs[0]] else []) + Successful(rs[1..])
  }

  /** `tokens.filter(t => !t.success)` */
  function Unsuccessful(rs: seq<TokenResult>): seq<TokenResult> {
    if rs == [] then []
    else (if rs[0].success then [] else [rs[0]]) + Unsuccessful(rs[1..])
  }

  /** The two filters split the results: every result is in exactly one of
      them, so their sizes add up to the number of stages. */
  lemma {:induction false} Partition(rs: seq<TokenResult>)
    ensures |Successful(rs)| + |Unsuccessful(rs)| == |rs|
    ensures forall r :: r in Successful(rs) <==> r in rs && r.success
    ensures forall r :: r in Unsuccessful(rs) <==> r in rs && !r.success
  {
    if rs != [] {
      Partition(rs[1..]);
      assert rs == [rs[0]] + rs[1..];
    }
  }

  // ---------------------------------------------------------------------
  // The routes

  class TokenRoutes {
    const heartbeat: ViewerHeartbeat.ViewerHeartbeatService
    const scaler: StageAutoScaling.StageAutoScaler

    /** One store behind the heartbeat service and the scaler. */
    ghost predicate Valid() reads this, heartbeat, scaler, scaler.redis {
      scaler.Valid() && heartbeat.redis == scaler.redis
    }

    constructor (heartbeat: ViewerHeartbeat.ViewerHeartbeatService, scaler: StageAutoScaling.StageAutoScaler)
      requires scaler.Valid() && heartbeat.redis == scaler.redis
      ensures Valid() && this.heartbeat == heartbeat && this.scaler == scaler
    {
      this.heartbeat := heartbeat;
      this.scaler := scaler;
    }

    /** POST /viewer. `target` is the stage chosen; when none was requested,
        `listed` is what the scaler listed and `best` its choice. */
    method PostViewer(userId: Option<string>, stageArn: Option<string>, now: nat)
      returns (reply: ViewerReply, ghost target: Option<string>, ghost best: Option<string>,
               ghost listed: seq<StageAutoScaling.Listed>)
      requires Valid()
      modifies scaler.redis
      ensures Valid()
      ensures Present(userId) ==> target == Target(stageArn, best, scaler.master)
      ensures Present(userId) && !Present(stageArn) ==>
        && (listed == [] || listed == StageAutoScaling.Usable(StageAutoScaling.Page(scaler.cloud.stages)))
        && best == StageAutoScaling.BestStage(listed,
             StageAutoScaling.Counts(old(scaler.redis.ks), scaler.redis.prefix, listed, now), scaler.master)
      ensures Answers(Admission(userId, target,
                        PublisherLive(old(scaler.redis.ks).Get(scaler.redis.Key(PUBLISHER_STATUS), now)),
                        CountAt(old(scaler.redis.ks), scaler.redis.prefix, target, now)), reply)
      ensures reply.ViewerToken? ==>
        && target == Some(reply.stageArn)
        && reply.currentViewers == ViewerCount(old(scaler.redis.ks), scaler.redis.prefix, reply.stageArn, now) + 1
        && scaler.redis.ks == ViewerHeartbeat.JoinStore(old(scaler.redis.ks), scaler.redis.prefix, userId.value,
                                reply.stageArn, reply.participantId, now)
      ensures !reply.ViewerToken? ==> scaler.redis.ks == old(scaler.redis.ks)
    {
      var redis := scaler.redis;
      target, best, listed := None, None, [];
      if !Present(userId) {
        return MissingUserId, target, best, listed;
      }
      var t: Option<string>;
      if Present(stageArn) {
        t := stageArn;
      } else {
        var b;
        b, listed := scaler.BestStageForViewer(now);
        best := b;
        t := if Present(b) then b else StageAutoScaling.OrNull(scaler.master);
      }
      target := t;
      if t.None? {
        return NoStageConfigured, target, best, listed;
      }
      reply := AdmitViewer(userId.value, t.value, now);
    }

    /** The part of POST /viewer after the stage is chosen: the publisher
        check, the capacity check, the token and the join record. */
    method AdmitViewer(userId: string, stageArn: string, now: nat) returns (reply: ViewerReply)
      requires Valid() && userId != ""
      modifies scaler.redis
      ensures Valid()
      ensures Answers(Admission(Some(userId), Some(stageArn),
                        PublisherLive(old(scaler.redis.ks).Get(scaler.redis.Key(PUBLISHER_STATUS), now)),
                        CountAt(old(scaler.redis.ks), scaler.redis.prefix, Some(stageArn), now)), reply)
      ensures reply.ViewerToken? ==>
        && reply.stageArn == stageArn
        && reply.currentViewers == ViewerCount(old(scaler.redis.ks), scaler.redis.prefix, stageArn, now) + 1
        && scaler.redis.ks == ViewerHeartbeat.JoinStore(old(scaler.redis.ks), scaler.redis.prefix, userId,
                                stageArn, reply.participantId, now)
      ensures !reply.ViewerToken? ==> scaler.redis.ks == old(scaler.redis.ks)
    {
      var redis := scaler.redis;
      var live := redis.GetPublisherStatus(now);
      if live.WrongType? {
        return TokenFailed;
      }
      if !live.value {
        return PublisherOffline;
      }
      var count := redis.GetStageViewerCount(stageArn, now);
      if count >= STAGE_CAPACITY {
        return StageFull;
      }
      var grant := scaler.cloud.CreateParticipantToken(IvsService.ViewerTokenOptions(userId, stageArn));
      if grant.Failed? || grant.value.token == "" {
        return TokenFailed;
      }
      var _ := redis.DeprecatedCounterCall(Some(stageArn), now);
      heartbeat.RecordViewerJoin(userId, stageArn, grant.value.participantId, now);
      reply := ViewerToken(grant.value.token, grant.value.participantId, stageArn, count + 1);
    }

    /** POST /publisher-all. `active` is the active-stage list read, and
        `results` the per-stage outcomes in that order. */
    method PostPublisherAll(userId: Option<string>, now: nat)
      returns (reply: PublisherAllReply, ghost active: seq<string>, ghost results: seq<TokenResult>)
      requires Valid()
      modifies scaler.redis
      ensures Valid()
      ensures !Present(userId) ==> reply == PublisherMissingUserId
      ensures Present(userId) ==> ActiveStageList(old(scaler.redis.ks), scaler.redis.prefix, now, active)
      ensures reply == NoStages <==> Present(userId) && PublishTargets(active, scaler.master) == []
      ensures reply.PublisherTokens? ==>
        var targets := PublishTargets(active, scaler.master);
        && reply.totalStages == |targets| == |results|
        && (forall i :: 0 <= i < |results| ==> results[i].stageArn == targets[i])
        && reply.successful == Successful(results) && reply.failed == Unsuccessful(results)
        && |reply.successful| + |reply.failed| == reply.totalStages
        && scaler.redis.ks == old(scaler.redis.ks).SetText(scaler.redis.Key(PUBLISHER_STATUS), Plain("live"), PUBLISHER_TTL, now)
      ensures !reply.PublisherTokens? ==> scaler.redis.ks == old(scaler.redis.ks)
    {
      var redis := scaler.redis;
      active, results := [], [];
      if !Present(userId) {
        return PublisherMissingUserId, active, results;
      }
      var stages := redis.GetActiveStages(now);
      active := stages;
      var targets := PublishTargets(stages, scaler.master);
      if targets == [] {
        return NoStages, active, results;
      }
      var rs: seq<TokenResult> := [];
      var i := 0;
      while i < |targets|
        invariant 0 <= i <= |targets| && |rs| == i
        invariant forall k :: 0 <= k < i ==> rs[k].stageArn == targets[k]
        invariant redis.ks == old(redis.ks)
      {
        var arn := targets[i];
        var options := IvsService.PublisherTokenOptions(userId.value, Some(arn), scaler.master);
        var entry := TokenResult(arn, false, "", "");
        if options.Some? {
          var grant := scaler.cloud.CreateParticipantToken(options.value);
          if grant.Done? && grant.value.token != "" {
            entry := TokenResult(arn, true, grant.value.token, grant.value.participantId);
          }
        }
        rs := rs + [entry];
        i := i + 1;
      }
      results := rs;
      Partition(rs);
      redis.SetPublisherStatus(true, now);
      reply := PublisherTokens(|targets|, Successful(rs), Unsuccessful(rs));
    }
  }
}
