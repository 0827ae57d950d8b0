/** The stage routes (api-server/src/routes/stage.ts): listing stages with
    their viewer counts, creating a stage under the stage limit, and deleting
    a stage that is not the master and has no viewers. */
module StageRoute {
  import opened Common
  import opened RedisService
  import IvsCloud
  import StageAutoScaling

  /** `maxResults` of the ListStages call of GET /list. */
  const LIST_PAGE := 50

  // ---------------------------------------------------------------------
  // GET /list

  /** One stage of the list reply. `createdAt` is the stage record's value
      when it is truthy; the session id fallback is not modelled. */
  datatype StageEntry = StageEntry(stageArn: string, name: Option<string>, viewerCount: nat,
                                   autoScaled: bool, createdAt: Option<int>, tags: map<string, string>)

  /** The listed stages whose ARN is present and not empty, in order:
      `!stage.arn` drops both a missing and an empty ARN. */
  function WithArn(ss: seq<IvsCloud.StageSummary>): (r: seq<IvsCloud.StageSummary>)
    ensures |r| <= |ss|
    ensures forall s :: s in r <==> s in ss && Present(s.arn)
  {
    if ss == [] then []
    else
      var init := WithArn(ss[..|ss| - 1]);
      assert ss == ss[..|ss| - 1] + [ss[|ss| - 1]];
      if Present(ss[|ss| - 1].arn) then init + [ss[|ss| - 1]] else init
  }

  /** The stage record under `stage:{arn}` as getStageInfo reads it. */
  function InfoOf(ks: KeySpace, prefix: string, arn: string, now: int): Read<StageInfo> {
    DecodeStageInfo(ks.Get(Prefixed(prefix, StageInfoKey(arn)), now))
  }

  /** The entry built for a stage with an ARN. */
  function EntryOf(s: IvsCloud.StageSummary, ks: KeySpace, prefix: string, now: int): StageEntry
    requires s.arn.Some?
  {
    var info := InfoOf(ks, prefix, s.arn.value, now);
    StageEntry(s.arn.value, s.name, ViewerCount(ks, prefix, s.arn.value, now),
               info.Parsed? && info.value.autoScaled,
               if info.Parsed? && info.value.createdAt != 0 then Some(info.value.createdAt) else None,
               s.tags)
  }

  /** A stage whose record cannot be read makes getStageInfo throw, which
      fails the whole Promise.all. */
  predicate Unreadable(ss: seq<IvsCloud.StageSummary>, ks: KeySpace, prefix: string, now: int) {
    exists i :: 0 <= i < |ss| && Present(ss[i].arn) && InfoOf(ks, prefix, ss[i].arn.value, now).Corrupt?
  }

  /** What GET /list answers for a page of stages: None for a 500, else one
      entry per stage with a non-empty ARN, in order. */
  function Listing(ss: seq<IvsCloud.StageSummary>, ks: KeySpace, prefix: string, now: int): Option<seq<StageEntry>> {
    if Unreadable(ss, ks, prefix, now) then None
    else
      var ws := WithArn(ss);
      Some(seq(|ws|, i requires 0 <= i < |ws| => EntryOf(ws[i], ks, prefix, now)))
  }

  /** The listing names exactly the non-empty ARNs the page has. */
  lemma ListingCoversArns(ss: seq<IvsCloud.StageSummary>, ks: KeySpace, prefix: string, now: int)
    requires Listing(ss, ks, prefix, now).Some?
    ensures var es := Listing(ss, ks, prefix, now).value;
      forall a :: a in IvsCloud.ArnSet(ss) && a != "" <==> exists e :: e in es && e.stageArn == a
  {
    var es := Listing(ss, ks, prefix, now).value;
    var ws := WithArn(ss);
    forall a | a in IvsCloud.ArnSet(ss) && a != "" ensures exists e :: e in es && e.stageArn == a {
      var i :| 0 <= i < |ss| && ss[i].arn.Some? && ss[i].arn.value == a;
      assert ss[i] in ws;
      var j :| 0 <= j < |ws| && ws[j] == ss[i];
      assert es[j].stageArn == a;
    }
    forall e | e in es ensures e.stageArn in IvsCloud.ArnSet(ss) && e.stageArn != "" {
      var j :| 0 <= j < |es| && es[j] == e;
      assert ws[j] in ss;
      var i :| 0 <= i < |ss| && ss[i] == ws[j];
    }
  }

  /** A stage listed with an empty ARN is skipped like one without an ARN,
      so a page of such stages lists nothing. */
  lemma {:induction false} EmptyArnSkipped(ss: seq<IvsCloud.StageSummary>, ks: KeySpace, prefix: string, now: int)
    requires forall i :: 0 <= i < |ss| ==> ss[i].arn.None? || ss[i].arn == Some("")
    ensures WithArn(ss) == []
    ensures Listing(ss, ks, prefix, now) == Some([])
  {
    if ss != [] {
      EmptyArnSkipped(ss[..|ss| - 1], ks, prefix, now);
    }
    ListingIs(ss, [], ks, prefix, now);
  }

  /** The listing has at most one entry per listed stage, each entry carries
      its stage's viewer count, and a stage without a record is reported as
      not auto-scaled. */
  lemma ListingEntries(ss: seq<IvsCloud.StageSummary>, ks: KeySpace, prefix: string, now: int)
    requires Listing(ss, ks, prefix, now).Some?
    ensures var es := Listing(ss, ks, prefix, now).value;
      && |es| <= |ss|
      && (forall e :: e in es && !InfoOf(ks, prefix, e.stageArn, now).Parsed? ==> !e.autoScaled)
      && (forall e :: e in es ==> e.viewerCount == ViewerCount(ks, prefix, e.stageArn, now))
  {
  }

  // ---------------------------------------------------------------------
  // POST /

  /** The tags a new stage gets: the defaults, overridden by the caller's. */
  function CreateTags(nodeEnv: Option<string>, user: map<string, string>): (r: map<string, string>)
    ensures r.Keys == user.Keys + {"Environment", "ManagedBy"}
    ensures forall k :: k in user ==> r[k] == user[k]
    ensures "Environment" !in user ==> r["Environment"] == StageAutoScaling.EnvName(nodeEnv)
    ensures "ManagedBy" !in user ==> r["ManagedBy"] == "api-server"
  {
    map["Environment" := StageAutoScaling.EnvName(nodeEnv), "ManagedBy" := "api-server"] + user
  }

  /** The record POST / writes for a stage it created: not auto-scaled, and
      managed by the API server. */
  function CreatedInfo(name: string, now: int): StageInfo {
    StageInfo(name, None, false, now, None, Some("api-server"))
  }

  /** The stage limit counts the old `viewers:{arn}` counter keys; nothing
      writes them any more, so in a store without them the limit never
      refuses a stage, however many stages exist. */
  lemma StageLimitNeedsCounters(ks: KeySpace, prefix: string, now: int, active: seq<string>)
    requires forall k :: k in ks.LiveKeys(now) ==> !StartsWith(k, prefix + "viewers:")
    requires ActiveStageList(ks, prefix, now, active)
    ensures |active| < StageAutoScaling.MAX_STAGES
  {
    NoCountersNoActiveStages(ks, prefix, now, active);
  }

  /** A stage the route created is never scaled down: its record says it was
      not auto-scaled. */
  lemma CreatedStageNotScaledDown(name: string, now: int, count: nat, later: int)
    ensures !StageAutoScaling.ScaleDownEligible(Parsed(CreatedInfo(name, now)), count, later)
  {
  }

  datatype CreateReply = NeedName | StageLimit | CreateFailed | Created(stageArn: string)

  datatype DeleteReply = MasterProtected | HasViewers(viewerCount: nat) | NotFound | DeleteFailed | Deleted

  datatype ListReply = ListFailed | Stages(stages: seq<StageEntry>)

  class StageRoutes {
    const redis: RedisService
    const cloud: IvsCloud.Cloud
    /** MASTER_STAGE_ARN and NODE_ENV. */
    const master: Option<string>
    const nodeEnv: Option<string>

    ghost predicate Valid() reads this, redis {
      redis.Valid()
    }

    constructor (redis: RedisService, cloud: IvsCloud.Cloud, master: Option<string>, nodeEnv: Option<string>)
      requires redis.Valid()
      ensures Valid() && this.redis == redis && this.cloud == cloud && this.master == master && this.nodeEnv == nodeEnv
    {
      this.redis := redis;
      this.cloud := cloud;
      this.master := master;
      this.nodeEnv := nodeEnv;
    }

    /** GET /list: the first page of ListStages with each stage's viewer
        count and record. */
    method List(now: int) returns (reply: ListReply, ghost page: seq<IvsCloud.StageSummary>)
      requires Valid()
      ensures reply.Stages? ==> page == cloud.stages[..if |cloud.stages| < LIST_PAGE then |cloud.stages| else LIST_PAGE]
      ensures page != [] ==> page == cloud.stages[..if |cloud.stages| < LIST_PAGE then |cloud.stages| else LIST_PAGE]
      ensures reply.Stages? ==> Listing(page, redis.ks, redis.prefix, now) == Some(reply.stages)
      ensures reply == ListFailed && page != [] ==> Listing(page, redis.ks, redis.prefix, now).None?
    {
      page := [];
      var r := cloud.ListStages(LIST_PAGE);
      if r.Failed? {
        return ListFailed, page;
      }
      page := r.value;
      var entries := Entries(r.value, now);
      reply := if entries.Some? then Stages(entries.value) else ListFailed;
    }

    /** The Promise.all over a page: one entry per stage with an ARN, or
        None as soon as a record cannot be read. */
    method Entries(listed: seq<IvsCloud.StageSummary>, now: int) returns (r: Option<seq<StageEntry>>)
      ensures r == Listing(listed, redis.ks, redis.prefix, now)
    {
      var entries: seq<StageEntry> := [];
      var i := 0;
      while i < |listed|
        invariant 0 <= i <= |listed|
        invariant !Unreadable(listed[..i], redis.ks, redis.prefix, now)
        invariant Matches(WithArn(listed[..i]), entries, redis.ks, redis.prefix, now)
      {
        WithArnStep(listed, i);
        if Present(listed[i].arn) {
          var e := ReadEntry(listed[i], now);
          if e.Corrupt? {
            UnreadableAt(listed, i, redis.ks, redis.prefix, now);
            return None;
          }
          MatchesStep(WithArn(listed[..i]), entries, listed[i], redis.ks, redis.prefix, now);
          entries := entries + [e.value];
        }
        ReadableStep(listed, i, redis.ks, redis.prefix, now);
        i := i + 1;
      }
      assert listed[..|listed|] == listed;
      ListingIs(listed, entries, redis.ks, redis.prefix, now);
      r := Some(entries);
    }

    /** The per-stage part of GET /list: the viewer count and the record. */
    method ReadEntry(s: IvsCloud.StageSummary, now: int) returns (e: Read<StageEntry>)
      requires s.arn.Some?
      ensures InfoOf(redis.ks, redis.prefix, s.arn.value, now).Corrupt? ==> e.Corrupt?
      ensures !InfoOf(redis.ks, redis.prefix, s.arn.value, now).Corrupt? ==> e == Parsed(EntryOf(s, redis.ks, redis.prefix, now))
    {
      var count := redis.GetStageViewerCount(s.arn.value, now);
      var info := redis.GetStageInfo(s.arn.value, now);
      if info.Corrupt? {
        return Corrupt;
      }
      e := Parsed(StageEntry(s.arn.value, s.name, count, info.Parsed? && info.value.autoScaled,
                             if info.Parsed? && info.value.createdAt != 0 then Some(info.value.createdAt) else None,
                             s.tags));
    }

    /** POST /: create a stage unless the name is missing or the active-stage
        count has reached the limit; on success write its record. */
    method Create(name: Option<string>, tags: map<string, string>, now: int)
      returns (reply: CreateReply, ghost active: seq<string>)
      requires Valid()
      modifies redis, cloud
      ensures Valid()
      ensures cloud.replications == old(cloud.replications)
      ensures reply == NeedName <==> !Present(name)
      ensures Present(name) ==> ActiveStageList(old(redis.ks), redis.prefix, now, active)
      ensures reply == StageLimit <==> Present(name) && |active| >= StageAutoScaling.MAX_STAGES
      ensures reply.Created? ==>
        && reply.stageArn !in IvsCloud.ArnSet(old(cloud.stages))
        && cloud.stages == old(cloud.stages) + [IvsCloud.StageSummary(Some(reply.stageArn), name, CreateTags(nodeEnv, tags))]
        && cloud.created == old(cloud.created) + 1
        && redis.ks == old(redis.ks).SetText(redis.Key(StageInfoKey(reply.stageArn)),
                                             StageInfoText(CreatedInfo(name.value, now)), STAGE_INFO_TTL, now)
      ensures !reply.Created? ==> redis.ks == old(redis.ks)
      ensures reply == NeedName || reply == StageLimit ==>
        && cloud.stages == old(cloud.stages) && cloud.created == old(cloud.created)
        && cloud.requests == old(cloud.requests)
      ensures reply == CreateFailed || reply.Created? ==>
        cloud.requests == old(cloud.requests) + [IvsCloud.CreateReq(name.value, CreateTags(nodeEnv, tags))]
      ensures reply == CreateFailed ==>
        // the call failed, or made a stage whose ARN the response left out
        || (cloud.stages == old(cloud.stages) && cloud.created == old(cloud.created))
        || (&& |cloud.stages| == |old(cloud.stages)| + 1 && cloud.stages[..|old(cloud.stages)|] == old(cloud.stages)
            && cloud.created == old(cloud.created) + 1)
    {
      active := [];
      if !Present(name) {
        return NeedName, active;
      }
      var stages := redis.GetActiveStages(now);
      active := stages;
      if |stages| >= StageAutoScaling.MAX_STAGES {
        return StageLimit, active;
      }
      var r := cloud.CreateStage(name.value, CreateTags(nodeEnv, tags));
      if r.Failed? || r.value.None? {
        return CreateFailed, active;
      }
      redis.SetStageInfo(r.value.value, CreatedInfo(name.value, now), now);
      reply := Created(r.value.value);
    }

    /** DELETE /:stageArn: never the master stage, never a stage with
        viewers; after the stage is gone its record and old counter go. */
    method Delete(stageArn: string, now: int) returns (reply: DeleteReply)
      requires Valid()
      modifies redis, cloud
      ensures Valid()
      ensures cloud.replications == old(cloud.replications) && cloud.created == old(cloud.created)
      ensures reply == MasterProtected <==> master == Some(stageArn)
      ensures reply.HasViewers? <==>
        master != Some(stageArn) && ViewerCount(old(redis.ks), redis.prefix, stageArn, now) > 0
      ensures reply.HasViewers? ==> reply.viewerCount == ViewerCount(old(redis.ks), redis.prefix, stageArn, now)
      ensures reply == Deleted ==>
        && stageArn in IvsCloud.ArnSet(old(cloud.stages))
        && cloud.stages == IvsCloud.Without(old(cloud.stages), stageArn)
        && redis.ks == StageAutoScaling.Forget(old(redis.ks), redis.prefix, stageArn)
      ensures reply != Deleted ==> cloud.stages == old(cloud.stages) && redis.ks == old(redis.ks)
      ensures (&& master != Some(stageArn)
               && ViewerCount(old(redis.ks), redis.prefix, stageArn, now) == 0
               && stageArn !in IvsCloud.ArnSet(old(cloud.stages))) ==> reply == NotFound
    {
      if master == Some(stageArn) {
        return MasterProtected;
      }
      var count := redis.GetStageViewerCount(stageArn, now);
      if count > 0 {
        return HasViewers(count);
      }
      var r := cloud.DeleteStage(stageArn);
      if r.Failed? {
        reply := if r.error.name == IvsCloud.NOT_FOUND then NotFound else DeleteFailed;
        return;
      }
      redis.Del(StageInfoKey(stageArn));
      redis.Del(ViewerCounterKey(stageArn));
      reply := Deleted;
    }
  }

  /** The entries are those of the stages `ws`, one by one. */
  predicate Matches(ws: seq<IvsCloud.StageSummary>, es: seq<StageEntry>, ks: KeySpace, prefix: string, now: int) {
    |es| == |ws| && forall j :: 0 <= j < |ws| ==> Present(ws[j].arn) && es[j] == EntryOf(ws[j], ks, prefix, now)
  }

  lemma MatchesStep(ws: seq<IvsCloud.StageSummary>, es: seq<StageEntry>, s: IvsCloud.StageSummary,
                    ks: KeySpace, prefix: string, now: int)
    requires Matches(ws, es, ks, prefix, now) && Present(s.arn)
    ensures Matches(ws + [s], es + [EntryOf(s, ks, prefix, now)], ks, prefix, now)
  {
  }

  /** A readable page whose entries match its stages with a non-empty ARN one by one
      is listed as those entries. */
  lemma ListingIs(ss: seq<IvsCloud.StageSummary>, es: seq<StageEntry>, ks: KeySpace, prefix: string, now: int)
    requires !Unreadable(ss, ks, prefix, now)
    requires Matches(WithArn(ss), es, ks, prefix, now)
    ensures Listing(ss, ks, prefix, now) == Some(es)
  {
    var ws := WithArn(ss);
    assert es == seq(|ws|, i requires 0 <= i < |ws| => EntryOf(ws[i], ks, prefix, now));
  }

  /** One more stage of the page adds it to the kept stages when its ARN is non-empty. */
  lemma WithArnStep(ss: seq<IvsCloud.StageSummary>, i: nat)
    requires i < |ss|
    ensures WithArn(ss[..i + 1]) == WithArn(ss[..i]) + (if Present(ss[i].arn) then [ss[i]] else [])
  {
    assert ss[..i + 1][..i] == ss[..i];
  }

  /** An unreadable record at position i makes the whole page unreadable. */
  lemma UnreadableAt(ss: seq<IvsCloud.StageSummary>, i: nat, ks: KeySpace, prefix: string, now: int)
    requires i < |ss| && Present(ss[i].arn) && InfoOf(ks, prefix, ss[i].arn.value, now).Corrupt?
    ensures Unreadable(ss, ks, prefix, now)
  {
  }

  /** A readable prefix stays readable when the next record reads. */
  lemma ReadableStep(ss: seq<IvsCloud.StageSummary>, i: nat, ks: KeySpace, prefix: string, now: int)
    requires i < |ss| && !Unreadable(ss[..i], ks, prefix, now)
    requires !(Present(ss[i].arn) && InfoOf(ks, prefix, ss[i].arn.value, now).Corrupt?)
    ensures !Unreadable(ss[..i + 1], ks, prefix, now)
  {
    var t := ss[..i + 1];
    forall k | 0 <= k < |t| && Present(t[k].arn)
      ensures !InfoOf(ks, prefix, t[k].arn.value, now).Corrupt?
    {
      if k < i {
        assert t[k] == ss[..i][k];
      }
    }
  }
}
