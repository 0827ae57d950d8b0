/** The viewer routes (api-server/src/routes/viewer.ts): rejoin, heartbeat,
    leave, the viewer list and the watch duration. The database writes the
    routes start without waiting for them are not part of this model. */
module ViewerRoute {
  import opened Common
  import opened RedisService
  import ViewerHeartbeat

  // ---------------------------------------------------------------------
  // Field validation

  /** The names of the request fields that are missing (falsy), in order. */
  function AbsentFields(fields: seq<(string, Option<string>)>): (r: seq<string>)
    ensures |r| <= |fields|
  {
    if fields == [] then []
    else (if Present(fields[0].1) then [] else [fields[0].0]) + AbsentFields(fields[1..])
  }

  /** A name is reported exactly when a field of that name is missing, and
      nothing is reported exactly when every field is present. */
  lemma {:induction false} AbsentFieldsMeaning(fields: seq<(string, Option<string>)>)
    ensures forall name :: name in AbsentFields(fields) <==>
      exists i :: 0 <= i < |fields| && fields[i].0 == name && !Present(fields[i].1)
    ensures AbsentFields(fields) == [] <==> forall i :: 0 <= i < |fields| ==> Present(fields[i].1)
  {
    if fields != [] {
      AbsentFieldsMeaning(fields[1..]);
      forall name | (exists i :: 0 <= i < |fields| && fields[i].0 == name && !Present(fields[i].1))
        ensures name in AbsentFields(fields)
      {
        var i :| 0 <= i < |fields| && fields[i].0 == name && !Present(fields[i].1);
        if i > 0 {
          assert fields[1..][i - 1] == fields[i];
        }
      }
      forall name | name in AbsentFields(fields)
        ensures exists i :: 0 <= i < |fields| && fields[i].0 == name && !Present(fields[i].1)
      {
        if Present(fields[0].1) || name != fields[0].0 {
          var j :| 0 <= j < |fields[1..]| && fields[1..][j].0 == name && !Present(fields[1..][j].1);
          assert fields[j + 1] == fields[1..][j];
        }
      }
      if forall i :: 0 <= i < |fields| ==> Present(fields[i].1) {
        assert forall i :: 0 <= i < |fields[1..]| ==> fields[1..][i] == fields[i + 1];
      }
    }
  }

  /** The fields rejoin requires. */
  function RejoinFields(userId: Option<string>, stageArn: Option<string>, participantId: Option<string>): seq<(string, Option<string>)> {
    [("userId", userId), ("stageArn", stageArn), ("participantId", participantId)]
  }

  /** The fields heartbeat, leave and duration require. */
  function PairFields(userId: Option<string>, stageArn: Option<string>): seq<(string, Option<string>)> {
    [("userId", userId), ("stageArn", stageArn)]
  }

  /** The `missingFields` array as the handlers build it, by pushing the name
      of each missing field in turn. */
  method MissingFields(fields: seq<(string, Option<string>)>) returns (missing: seq<string>)
    ensures missing == AbsentFields(fields)
  {
    missing := [];
    var i := 0;
    while i < |fields|
      invariant 0 <= i <= |fields|
      invariant missing + AbsentFields(fields[i..]) == AbsentFields(fields)
    {
      assert fields[i..] == [fields[i]] + fields[i + 1..];
      if !Present(fields[i].1) {
        missing := missing + [fields[i].0];
      }
      i := i + 1;
    }
  }

  // ---------------------------------------------------------------------
  // Watch duration text

  /** JavaScript's `%`, whose result takes the sign of the dividend. */
  function JsRem(a: int, b: int): (r: int)
    requires b > 0
    ensures a >= 0 ==> 0 <= r < b
    ensures a < 0 ==> -b < r <= 0
  {
    if a >= 0 then a % b else -((-a) % b)
  }

  /** How a template string prints an integer. */
  function IntText(i: int): string {
    if i < 0 then "-" + Decimal(-i) else Decimal(i)
  }

  /** `watchDurationFormatted`: `${Math.floor(d / 60)}分 ${d % 60}秒`. */
  function DurationText(d: int): string {
    IntText(d / 60) + "分 " + IntText(JsRem(d, 60)) + "秒"
  }

  /** For a duration that is not negative the two parts give the duration
      back: minutes times sixty plus seconds, with seconds below sixty. */
  lemma DurationParts(d: int)
    requires d >= 0
    ensures var m, s := d / 60, JsRem(d, 60);
      m >= 0 && 0 <= s < 60 && 60 * m + s == d
  {
  }

  /** A negative duration that is not whole minutes mixes a floored minute
      count with a truncated remainder, so its parts add up to one minute
      less than the duration. */
  lemma NegativeDurationParts(d: int)
    requires d < 0 && d % 60 != 0
    ensures 60 * (d / 60) + JsRem(d, 60) == d - 60
  {
    var q := (-d) / 60;
    var r := (-d) % 60;
    assert -d == 60 * q + r && 0 < r < 60;
    assert d == 60 * (-q - 1) + (60 - r);
    assert d / 60 == -q - 1;
  }

  /** The text reads back as the duration: its digits give the minutes and the
      seconds, which make up `d`. */
  lemma {:induction false} DurationTextReadsBack(d: int)
    requires d >= 0
    ensures exists m: string, s: string ::
      && DurationText(d) == m + "分 " + s + "秒"
      && (forall i :: 0 <= i < |m| ==> '0' <= m[i] <= '9')
      && (forall i :: 0 <= i < |s| ==> '0' <= s[i] <= '9')
      && DigitsValue(s) < 60
      && 60 * DigitsValue(m) + DigitsValue(s) == d
  {
    var m, s := Decimal(d / 60), Decimal(JsRem(d, 60));
    DurationParts(d);
    DecimalValue(d / 60);
    DecimalValue(JsRem(d, 60));
    assert DurationText(d) == m + "分 " + s + "秒";
  }

  // ---------------------------------------------------------------------
  // The routes

  datatype Reply =
    | Missing(missingFields: seq<string>)                       // 400
    | Rejoined(currentViewers: nat)
    | SessionNotFound                                          // 404
    | HeartbeatUpdated
    | Left
    | ViewerList(totalViewers: nat, activeViewers: nat, viewers: seq<string>)
    | WatchDuration(seconds: int, formatted: string)

  /** After a join the count read back is the viewer set with the viewer in it. */
  lemma CountAfterJoin(ks: KeySpace, prefix: string, u: string, arn: string, pid: string, now: int)
    requires ks.TypeOf(Prefixed(prefix, ViewerSetKey(arn)), now) != StringType
    ensures ViewerCount(ViewerHeartbeat.JoinStore(ks, prefix, u, arn, pid, now), prefix, arn, now)
      == |ks.Members(Prefixed(prefix, ViewerSetKey(arn))) + {u}|
  {
    var after := ViewerHeartbeat.JoinStore(ks, prefix, u, arn, pid, now);
    ViewerHeartbeat.JoinRecordsSession(ks, prefix, u, arn, pid, now, now);
    ViewerCountIsCardinality(after, prefix, arn, now);
    assert after.TypeOf(Prefixed(prefix, ViewerSetKey(arn)), now) == SetType;
  }

  class ViewerRoutes {
    const heartbeat: ViewerHeartbeat.ViewerHeartbeatService

    ghost predicate Valid() reads this, heartbeat, heartbeat.redis {
      heartbeat.redis.Valid()
    }

    constructor (heartbeat: ViewerHeartbeat.ViewerHeartbeatService)
      requires heartbeat.redis.Valid()
      ensures Valid() && this.heartbeat == heartbeat
    {
      this.heartbeat := heartbeat;
    }

    /** POST /rejoin: record the join again and report the set's size after it
        (the old counter call in between changes nothing). */
    method Rejoin(userId: Option<string>, stageArn: Option<string>, participantId: Option<string>, now: int)
      returns (reply: Reply)
      requires Valid()
      modifies heartbeat.redis
      ensures Valid()
      ensures reply.Missing? <==> !(Present(userId) && Present(stageArn) && Present(participantId))
      ensures reply.Missing? ==> reply.missingFields == AbsentFields(RejoinFields(userId, stageArn, participantId))
                                 && heartbeat.redis.ks == old(heartbeat.redis.ks)
      ensures !reply.Missing? ==>
        var ks := ViewerHeartbeat.JoinStore(old(heartbeat.redis.ks), heartbeat.redis.prefix, userId.value,
                                            stageArn.value, participantId.value, now);
        && heartbeat.redis.ks == ks
        && reply == Rejoined(ViewerCount(ks, heartbeat.redis.prefix, stageArn.value, now))
    {
      var fields := RejoinFields(userId, stageArn, participantId);
      var missing := MissingFields(fields);
      AbsentFieldsMeaning(fields);
      assert fields[0].1 == userId && fields[1].1 == stageArn && fields[2].1 == participantId;
      if missing != [] {
        return Missing(missing);
      }
      heartbeat.RecordViewerJoin(userId.value, stageArn.value, participantId.value, now);
      var _ := heartbeat.redis.DeprecatedCounterCall(stageArn, now);
      var count := heartbeat.redis.GetStageViewerCount(stageArn.value, now);
      reply := Rejoined(count);
    }

    /** POST /heartbeat: 404 exactly when the heartbeat service reports false. */
    method Heartbeat(userId: Option<string>, stageArn: Option<string>, now: int) returns (reply: Reply)
      requires Valid()
      modifies heartbeat.redis
      ensures Valid()
      ensures reply.Missing? <==> !(Present(userId) && Present(stageArn))
      ensures reply.Missing? ==> reply.missingFields == AbsentFields(PairFields(userId, stageArn))
                                 && heartbeat.redis.ks == old(heartbeat.redis.ks)
      ensures !reply.Missing? ==>
        var r := ViewerHeartbeat.BeatStore(old(heartbeat.redis.ks), heartbeat.redis.prefix, userId.value, stageArn.value, now);
        && (reply == SessionNotFound <==> r.None?)
        && (reply == HeartbeatUpdated <==> r.Some?)
        && heartbeat.redis.ks == (if r.Some? then r.value else old(heartbeat.redis.ks))
    {
      var missing := MissingFields(PairFields(userId, stageArn));
      AbsentFieldsMeaning(PairFields(userId, stageArn));
      assert PairFields(userId, stageArn)[0].1 == userId && PairFields(userId, stageArn)[1].1 == stageArn;
      if missing != [] {
        return Missing(missing);
      }
      var ok := heartbeat.UpdateViewerHeartbeat(userId.value, stageArn.value, now);
      reply := if ok then HeartbeatUpdated else SessionNotFound;
    }

    /** POST /leave: with both fields present it always answers success,
        whether or not the viewer was in the set. */
    method Leave(userId: Option<string>, stageArn: Option<string>, now: int) returns (reply: Reply)
      requires Valid()
      modifies heartbeat.redis
      ensures Valid()
      ensures reply.Missing? <==> !(Present(userId) && Present(stageArn))
      ensures reply.Missing? ==> reply.missingFields == AbsentFields(PairFields(userId, stageArn))
                                 && heartbeat.redis.ks == old(heartbeat.redis.ks)
      ensures !reply.Missing? ==>
        && reply == Left
        && heartbeat.redis.ks == ViewerHeartbeat.LeaveStore(old(heartbeat.redis.ks), heartbeat.redis.prefix,
                                                            userId.value, stageArn.value, now)
    {
      var missing := MissingFields(PairFields(userId, stageArn));
      AbsentFieldsMeaning(PairFields(userId, stageArn));
      assert PairFields(userId, stageArn)[0].1 == userId && PairFields(userId, stageArn)[1].1 == stageArn;
      if missing != [] {
        return Missing(missing);
      }
      heartbeat.RecordViewerLeave(userId.value, stageArn.value, now);
      reply := Left;
    }

    /** GET /list/:stageArn: SMEMBERS and SCARD of the same set, so the two
        counts the reply carries always agree. */
    method List(stageArn: string, now: int) returns (reply: Reply)
      requires Valid()
      ensures reply.ViewerList?
      ensures reply.totalViewers == ViewerCount(heartbeat.redis.ks, heartbeat.redis.prefix, stageArn, now)
      ensures reply.activeViewers == |reply.viewers| == reply.totalViewers
      ensures NoDups(reply.viewers)
      ensures forall u :: u in reply.viewers ==>
        u in heartbeat.redis.ks.Members(Prefixed(heartbeat.redis.prefix, ViewerSetKey(stageArn)))
    {
      var viewers := heartbeat.GetActiveViewers(stageArn, now);
      var count := heartbeat.redis.GetStageViewerCount(stageArn, now);
      ViewerCountIsCardinality(heartbeat.redis.ks, heartbeat.redis.prefix, stageArn, now);
      reply := ViewerList(count, |viewers|, viewers);
    }

    /** GET /duration: the whole seconds since the session's joinedAt (0 when
        there is none) and their minutes-and-seconds text. */
    method Duration(userId: Option<string>, stageArn: Option<string>, now: int) returns (reply: Reply)
      requires Valid()
      ensures reply.Missing? <==> !(Present(userId) && Present(stageArn))
      ensures reply.Missing? ==> reply.missingFields == AbsentFields(PairFields(userId, stageArn))
      ensures !reply.Missing? ==>
        var s := DecodeSession(heartbeat.redis.ks.Get(Prefixed(heartbeat.redis.prefix,
                   ViewerHeartbeat.ViewerKey(userId.value, stageArn.value)), now));
        && reply.WatchDuration?
        && reply.formatted == DurationText(reply.seconds)
        && (s.Parsed? ==> reply.seconds * 1000 <= now - s.value.joinedAt < reply.seconds * 1000 + 1000)
        && (!s.Parsed? ==> reply.seconds == 0)
    {
      var missing := MissingFields(PairFields(userId, stageArn));
      AbsentFieldsMeaning(PairFields(userId, stageArn));
      assert PairFields(userId, stageArn)[0].1 == userId && PairFields(userId, stageArn)[1].1 == stageArn;
      if missing != [] {
        return Missing(missing);
      }
      var d := heartbeat.GetViewerWatchDuration(userId.value, stageArn.value, now);
      reply := WatchDuration(d, DurationText(d));
    }
  }
}
