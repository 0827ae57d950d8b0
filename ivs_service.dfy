/** Stage ARN validation and parsing, participant-token option building and
    the mapping of replication errors (api-server/src/services/IVSService.ts),
    plus the short-id to ARN rule of the stats route. */
module IvsService {
  import opened Common

  const ARN_PREFIX := "arn:aws:ivs:"
  const PUBLISHER_DURATION := 14400
  const VIEWER_DURATION := 3600
  const DEFAULT_REGION := "ap-northeast-1"
  const DEFAULT_ACCOUNT := "125371974421"

  const SDK_PACKAGE := "@aws-sdk/client-ivs-realtime"
  const REPLICATION_FEATURE := "Participant Replication"

  /** The message of the error thrown when the replication command is missing
      from the installed SDK ("update the package to use the feature"). */
  const SDK_UPGRADE_MESSAGE := "需要更新 " + SDK_PACKAGE + " 到最新版本才能使用 " + REPLICATION_FEATURE + " 功能"

  /** The upgrade message has no 'C', 'S' or 'b' in it. */
  lemma UpgradeMessageCharFree(c: char)
    requires c == 'C' || c == 'S' || c == 'b'
    ensures CharFree(SDK_UPGRADE_MESSAGE, c)
  {
    var p1, p3, p5 := "需要更新 ", " 到最新版本才能使用 ", " 功能";
    assert CharFree(p1, c) && CharFree(SDK_PACKAGE, c) && CharFree(p3, c);
    assert CharFree(REPLICATION_FEATURE, c) && CharFree(p5, c);
    CharFreeConcat(p1, SDK_PACKAGE, c);
    CharFreeConcat(p1 + SDK_PACKAGE, p3, c);
    CharFreeConcat(p1 + SDK_PACKAGE + p3, REPLICATION_FEATURE, c);
    CharFreeConcat(p1 + SDK_PACKAGE + p3 + REPLICATION_FEATURE, p5, c);
  }

  /** It does name the package, in lower case. */
  lemma UpgradeMessageMentionsSdk()
    ensures Contains(SDK_UPGRADE_MESSAGE, "sdk")
  {
    var head := "需要更新 " + "@aws-";
    var tail := "/client-ivs-realtime" + " 到最新版本才能使用 " + REPLICATION_FEATURE + " 功能";
    assert SDK_PACKAGE == "@aws-" + "sdk" + "/client-ivs-realtime";
    assert SDK_UPGRADE_MESSAGE == head + "sdk" + tail;
    ContainsInfix(head, "sdk", tail);
  }

  // ---------------------------------------------------------------------
  // Stage ARNs: ^arn:aws:ivs:[a-z0-9-]+:\d{12}:stage\/[a-zA-Z0-9]+$

  predicate RegionChar(c: char) { 'a' <= c <= 'z' || '0' <= c <= '9' || c == '-' }
  predicate DigitChar(c: char) { '0' <= c <= '9' }
  predicate AlnumChar(c: char) { 'a' <= c <= 'z' || 'A' <= c <= 'Z' || '0' <= c <= '9' }

  predicate IsRegion(s: string) { |s| > 0 && forall i :: 0 <= i < |s| ==> RegionChar(s[i]) }
  predicate IsAccount(s: string) { |s| == 12 && forall i :: 0 <= i < |s| ==> DigitChar(s[i]) }
  predicate IsStageId(s: string) { |s| > 0 && forall i :: 0 <= i < |s| ==> AlnumChar(s[i]) }

  /** The three capture groups of the pattern. */
  datatype ArnParts = ArnParts(region: string, accountId: string, stageId: string)

  /** The pattern's language: each group within its character class. */
  predicate WellFormed(p: ArnParts) {
    IsRegion(p.region) && IsAccount(p.accountId) && IsStageId(p.stageId)
  }

  function BuildStageArn(p: ArnParts): string {
    ARN_PREFIX + p.region + ":" + p.accountId + ":stage/" + p.stageId
  }

  /** None of the groups can hold a ':', so splitting the rest of the ARN on
      ':' recovers region, account and "stage/{id}". */
  function ParseStageArn(a: string): (r: Option<ArnParts>)
    ensures r.Some? ==> WellFormed(r.value) && BuildStageArn(r.value) == a
  {
    if !StartsWith(a, ARN_PREFIX) then None
    else
      var parts := Split(a[|ARN_PREFIX|..]);
      if |parts| == 3 && IsRegion(parts[0]) && IsAccount(parts[1])
         && StartsWith(parts[2], "stage/") && IsStageId(parts[2][6..])
      then
        SplitThree(a);
        BuildShape(parts[0], parts[1], parts[2][6..]);
        Some(ArnParts(parts[0], parts[1], parts[2][6..]))
      else None
  }

  /** The built ARN, grouped field by field. */
  lemma BuildShape(region: string, account: string, id: string)
    ensures BuildStageArn(ArnParts(region, account, id))
         == ARN_PREFIX + (region + ":" + (account + ":" + ("stage/" + id)))
  {
    assert ":stage/" + id == ":" + ("stage/" + id);
  }

  /** An ARN whose rest splits into three fields, the last "stage/…", is
      those fields joined back. */
  lemma SplitThree(a: string)
    requires StartsWith(a, ARN_PREFIX)
    requires var parts := Split(a[|ARN_PREFIX|..]); |parts| == 3 && StartsWith(parts[2], "stage/")
    ensures var parts := Split(a[|ARN_PREFIX|..]);
      a == ARN_PREFIX + (parts[0] + ":" + (parts[1] + ":" + ("stage/" + parts[2][6..])))
  {
    var rest := a[|ARN_PREFIX|..];
    var parts := Split(rest);
    JoinSplit(rest);
    assert parts[1..][1..] == parts[2..];
    assert Join(parts[2..]) == parts[2];
    assert Join(parts[1..]) == parts[1] + ":" + parts[2];
    var id := parts[2][6..];
    assert parts[2] == "stage/" + id;
    assert rest == parts[0] + ":" + (parts[1] + ":" + ("stage/" + id));
    assert a == ARN_PREFIX + rest;
  }

  /** `validateStageArn`: the pattern of `parseStageArn`, as a yes or no answer. */
  predicate ValidateStageArn(a: string) {
    ParseStageArn(a).Some?
  }

  lemma StageSegmentColonFree(id: string)
    requires IsStageId(id)
    ensures ColonFree("stage/" + id)
  {
    assert forall i :: 0 <= i < |"stage/" + id| ==> ("stage/" + id)[i] == if i < 6 then "stage/"[i] else id[i - 6];
  }

  /** A valid stage ARN ends in "stage/{id}" with no ':' in it, so it never
      ends in ":viewers": no stage's record key `stage:{arn}` is another
      stage's viewer set key `stage:{other}:viewers`. */
  lemma ValidArnNotViewerSuffix(a: string, b: string)
    requires ValidateStageArn(a)
    ensures a != b + ":viewers"
  {
    var p := ParseStageArn(a).value;
    var seg := "stage/" + p.stageId;
    StageSegmentColonFree(p.stageId);
    assert a == (ARN_PREFIX + p.region + ":" + p.accountId + ":") + seg;
    var n, v := |a|, b + ":viewers";
    if |v| == n {
      assert v[n - 8] == ':' && v[n - 7] == 'v';
      if |seg| >= 8 {
        assert a[n - 8] == seg[|seg| - 8];
        assert a[n - 8] != v[n - 8];
      } else {
        assert a[n - 7] == seg[0];
        assert a[n - 7] != v[n - 7];
      }
    }
  }

  /** Building from well-formed parts and parsing gives the parts back. */
  lemma {:induction false} ParseBuild(p: ArnParts)
    requires WellFormed(p)
    ensures ParseStageArn(BuildStageArn(p)) == Some(p)
  {
    var s := "stage/" + p.stageId;
    assert ColonFree(p.region) && ColonFree(p.accountId);
    StageSegmentColonFree(p.stageId);
    var parts := [p.region, p.accountId, s];
    assert parts[1..][1..] == parts[2..];
    assert Join(parts[1..]) == p.accountId + ":" + s;
    SplitJoin(parts);
    BuildShape(p.region, p.accountId, p.stageId);
    var a := BuildStageArn(p);
    assert a == ARN_PREFIX + Join(parts);
    assert a[..|ARN_PREFIX|] == ARN_PREFIX;
    assert a[|ARN_PREFIX|..] == Join(parts);
    assert s[..6] == "stage/" && s[6..] == p.stageId;
  }

  /** `validateStageArn(a)` holds exactly when a is in the pattern's language,
      and `parseStageArn` returns null exactly when it does not. */
  lemma ValidateIffMatches(a: string)
    ensures ValidateStageArn(a) <==> exists p :: WellFormed(p) && BuildStageArn(p) == a
    ensures ParseStageArn(a).None? <==> !ValidateStageArn(a)
  {
    if exists p :: WellFormed(p) && BuildStageArn(p) == a {
      var p :| WellFormed(p) && BuildStageArn(p) == a;
      ParseBuild(p);
    }
  }

  /** Parsing then building gives back the input. */
  lemma BuildParse(a: string)
    requires ValidateStageArn(a)
    ensures BuildStageArn(ParseStageArn(a).value) == a
  {
  }

  /** The stats route's rule: a short id must be free of ':'; the ARN uses
      AWS_REGION and AWS_ACCOUNT_ID or their defaults. None is the 400 reply. */
  function ShortIdToArn(stageId: string, regionEnv: Option<string>, accountEnv: Option<string>): (r: Option<string>)
    ensures r.None? <==> Contains(stageId, ":")
  {
    if Contains(stageId, ":") then None
    else
      var region := if Present(regionEnv) then regionEnv.value else DEFAULT_REGION;
      var account := if Present(accountEnv) then accountEnv.value else DEFAULT_ACCOUNT;
      Some(BuildStageArn(ArnParts(region, account, stageId)))
  }

  /** A well-formed short id turned into an ARN parses back to the same id. */
  lemma ShortIdRoundTrip(stageId: string, regionEnv: Option<string>, accountEnv: Option<string>)
    requires IsStageId(stageId)
    requires Present(regionEnv) ==> IsRegion(regionEnv.value)
    requires Present(accountEnv) ==> IsAccount(accountEnv.value)
    ensures ShortIdToArn(stageId, regionEnv, accountEnv).Some?
      && ParseStageArn(ShortIdToArn(stageId, regionEnv, accountEnv).value).Some?
      && ParseStageArn(ShortIdToArn(stageId, regionEnv, accountEnv).value).value.stageId == stageId
  {
    NotContainsChar(stageId, ":", 0);
    var region := if Present(regionEnv) then regionEnv.value else DEFAULT_REGION;
    var account := if Present(accountEnv) then accountEnv.value else DEFAULT_ACCOUNT;
    assert IsRegion(DEFAULT_REGION);
    assert IsAccount(DEFAULT_ACCOUNT);
    ParseBuild(ArnParts(region, account, stageId));
  }

  // ---------------------------------------------------------------------
  // Participant-token options

  datatype Capability = Publish | Subscribe

  datatype TokenOptions = TokenOptions(stageArn: string, userId: string, capabilities: seq<Capability>,
                                       duration: nat, role: string)

  /** `createParticipantToken` sends `options.duration || VIEWER_DURATION`. */
  function RequestDuration(o: TokenOptions): (d: nat)
    ensures d > 0
    ensures o.duration > 0 ==> d == o.duration
  {
    if o.duration > 0 then o.duration else VIEWER_DURATION
  }

  /** `createPublisherToken`: the given stage, else MASTER_STAGE_ARN; None is
      the error thrown when neither is set. */
  function PublisherTokenOptions(userId: string, stageArn: Option<string>, master: Option<string>): (r: Option<TokenOptions>)
    ensures r.None? <==> !Present(stageArn) && !Present(master)
    ensures r.Some? ==> r.value.stageArn == (if Present(stageArn) then stageArn.value else master.value)
    ensures r.Some? ==> StartsWith(r.value.userId, "broadcaster-") && r.value.userId[12..] == userId
    ensures r.Some? ==> r.value.capabilities == [Publish] && RequestDuration(r.value) == PUBLISHER_DURATION
  {
    var target := if Present(stageArn) then stageArn else master;
    if !Present(target) then None
    else
      var u := "broadcaster-" + userId;
      assert u[..12] == "broadcaster-";
      Some(TokenOptions(target.value, u, [Publish], PUBLISHER_DURATION, "publisher"))
  }

  /** `createViewerToken` */
  function ViewerTokenOptions(userId: string, stageArn: string): (r: TokenOptions)
    ensures r.stageArn == stageArn
    ensures StartsWith(r.userId, "viewer-") && r.userId[7..] == userId
    ensures r.capabilities == [Subscribe] && RequestDuration(r) == VIEWER_DURATION
  {
    var u := "viewer-" + userId;
    assert u[..7] == "viewer-";
    TokenOptions(stageArn, u, [Subscribe], VIEWER_DURATION, "viewer")
  }

  /** `createMediaServerToken` */
  function MediaServerTokenOptions(serverId: string, stageArn: string): (r: TokenOptions)
    ensures r.stageArn == stageArn
    ensures StartsWith(r.userId, "media-server-") && r.userId[13..] == serverId
    ensures r.capabilities == [Publish, Subscribe] && RequestDuration(r) == PUBLISHER_DURATION
  {
    var u := "media-server-" + serverId;
    assert u[..13] == "media-server-";
    TokenOptions(stageArn, u, [Publish, Subscribe], PUBLISHER_DURATION, "media-server")
  }

  /** Viewer and publisher identities never collide: a viewer's token user id
      is never a broadcaster's, whatever the two user ids are. */
  lemma ViewerNeverBroadcaster(u: string, v: string, arn: string, master: Option<string>)
    requires PublisherTokenOptions(v, Some(arn), master).Some?
    ensures ViewerTokenOptions(u, arn).userId != PublisherTokenOptions(v, Some(arn), master).value.userId
  {
    var a := ViewerTokenOptions(u, arn).userId;
    var b := PublisherTokenOptions(v, Some(arn), master).value.userId;
    assert a[0] == 'v' && b[0] == 'b';
  }

  // ---------------------------------------------------------------------
  // Replication errors

  datatype ReplicationCommand = StartReplication | StopReplication

  function CommandName(c: ReplicationCommand): string {
    match c
    case StartReplication => "StartParticipantReplicationCommand"
    case StopReplication => "StopParticipantReplicationCommand"
  }

  /** The message of the error `start/stopParticipantReplication` rethrows for
      a failure whose message is `message` (None: the error has no message). */
  function MapReplicationError(c: ReplicationCommand, message: Option<string>): (r: Option<string>)
    ensures message.Some? && (Contains(message.value, "Cannot find module") || Contains(message.value, CommandName(c)))
            ==> r == Some(SDK_UPGRADE_MESSAGE)
    ensures !(message.Some? && (Contains(message.value, "Cannot find module") || Contains(message.value, CommandName(c))))
            ==> r == message
  {
    if message.Some? && (Contains(message.value, "Cannot find module") || Contains(message.value, CommandName(c)))
    then Some(SDK_UPGRADE_MESSAGE)
    else message
  }

  lemma UpgradeMessageMentionsNoTrigger(c: ReplicationCommand)
    ensures !Contains(SDK_UPGRADE_MESSAGE, "Cannot find module")
    ensures !Contains(SDK_UPGRADE_MESSAGE, CommandName(c))
  {
    UpgradeMessageCharFree('C');
    UpgradeMessageCharFree('S');
    NotContainsChar(SDK_UPGRADE_MESSAGE, "Cannot find module", 0);
    NotContainsChar(SDK_UPGRADE_MESSAGE, CommandName(c), 0);
  }

  /** Mapping an already mapped error changes nothing more. */
  lemma MapReplicationErrorIdempotent(c: ReplicationCommand, message: Option<string>)
    ensures MapReplicationError(c, MapReplicationError(c, message)) == MapReplicationError(c, message)
  {
    UpgradeMessageMentionsNoTrigger(c);
  }
}
