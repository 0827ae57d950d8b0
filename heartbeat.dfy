/** Viewer heartbeat sessions (api-server/src/services/ViewerHeartbeatService.ts).
    A viewer on a stage has a session record under `viewer:{user}:{arn}` that
    lives 120 s unless refreshed, and is a member of the stage's viewer set
    `stage:{arn}:viewers`. A periodic sweep evicts members whose session is
    gone or whose last heartbeat is more than 60 s old. Time is an integer
    instant in milliseconds passed to each operation. */
module ViewerHeartbeat {
  import opened Common
  import opened RedisService
  import IvsService

  /** Seconds without a heartbeat after which a viewer counts as gone. */
  const HEARTBEAT_TIMEOUT := 60
  /** Session TTL in seconds (twice the heartbeat timeout). */
  const SESSION_TTL := HEARTBEAT_TIMEOUT * 2
  /** Sweep period in milliseconds; the timer itself is not modelled. */
  const CLEANUP_INTERVAL := 30000

  /** `getViewerKey` */
  function ViewerKey(userId: string, stageArn: string): string {
    "viewer:" + userId + ":" + stageArn
  }

  /** Within one stage, distinct users have distinct session keys. */
  lemma SessionKeyInjective(prefix: string, u: string, v: string, arn: string)
    requires Prefixed(prefix, ViewerKey(u, arn)) == Prefixed(prefix, ViewerKey(v, arn))
    ensures u == v
  {
    PrefixedInjective(prefix, ViewerKey(u, arn), ViewerKey(v, arn));
    assert |u| == |v|;
    assert u == ViewerKey(u, arn)[7..7 + |u|];
  }

  /** A session key is never a viewer-set key. */
  lemma SessionKeyNotSetKey(prefix: string, u: string, a: string, b: string)
    ensures Prefixed(prefix, ViewerKey(u, a)) != Prefixed(prefix, ViewerSetKey(b))
  {
    assert Prefixed(prefix, ViewerKey(u, a))[|prefix|] == 'v';
    assert Prefixed(prefix, ViewerSetKey(b))[|prefix|] == 's';
  }

  /** Viewer sets of different stages are different keys. */
  lemma SetKeyInjective(prefix: string, a: string, b: string)
    requires Prefixed(prefix, ViewerSetKey(a)) == Prefixed(prefix, ViewerSetKey(b))
    ensures a == b
  {
    PrefixedInjective(prefix, ViewerSetKey(a), ViewerSetKey(b));
    assert a == ViewerSetKey(a)[6..6 + |a|];
  }

  // ---------------------------------------------------------------------
  // Store effects of join, heartbeat and leave

  /** `recordViewerJoin`: write a fresh session (joinedAt = lastHeartbeat = now,
      120 s TTL), then SADD the user; a WRONGTYPE on the SADD is caught. */
  function JoinStore(ks: KeySpace, prefix: string, u: string, arn: string, pid: string, now: int): KeySpace {
    var s1 := ks.SetText(Prefixed(prefix, ViewerKey(u, arn)), SessionText(Session(u, arn, pid, now, now)), SESSION_TTL, now);
    match s1.SAdd(Prefixed(prefix, ViewerSetKey(arn)), u, now)
    case Ok(s2) => s2
    case WrongType => s1
  }

  /** `updateViewerHeartbeat`: None when it returns false (no session, or the
      read throws), else the store with lastHeartbeat moved to now and the TTL
      restarted. */
  function BeatStore(ks: KeySpace, prefix: string, u: string, arn: string, now: int): Option<KeySpace> {
    var k := Prefixed(prefix, ViewerKey(u, arn));
    match DecodeSession(ks.Get(k, now))
    case Parsed(s) => Some(ks.SetText(k, SessionText(s.(lastHeartbeat := now)), SESSION_TTL, now))
    case _ => None
  }

  /** `recordViewerLeave`: when the session read throws nothing happens;
      otherwise DEL the session and SREM the user (a WRONGTYPE there is caught). */
  function LeaveStore(ks: KeySpace, prefix: string, u: string, arn: string, now: int): KeySpace {
    var k := Prefixed(prefix, ViewerKey(u, arn));
    if DecodeSession(ks.Get(k, now)).Corrupt? then ks
    else
      var s1 := ks.Del(k);
      match s1.SRem(Prefixed(prefix, ViewerSetKey(arn)), u, now)
      case Ok(s2) => s2
      case WrongType => s1
  }

  lemma JoinRecordsSession(ks: KeySpace, prefix: string, u: string, arn: string, pid: string, now: int, later: int)
    requires now <= later <= now + SESSION_TTL * 1000
    ensures var after := JoinStore(ks, prefix, u, arn, pid, now);
      DecodeSession(after.Get(Prefixed(prefix, ViewerKey(u, arn)), later)) == Parsed(Session(u, arn, pid, now, now))
    ensures var setKey := Prefixed(prefix, ViewerSetKey(arn));
      ks.TypeOf(setKey, now) != StringType ==> JoinStore(ks, prefix, u, arn, pid, now).Members(setKey) == ks.Members(setKey) + {u}
  {
    SessionKeyNotSetKey(prefix, u, arn, arn);
  }

  /** Re-joining overwrites the session, so joinedAt restarts, while the
      membership of the viewer set stays as it was. */
  lemma RejoinResetsJoinedAt(ks: KeySpace, prefix: string, u: string, arn: string, pid: string, pid2: string, t1: int, t2: int)
    requires ks.TypeOf(Prefixed(prefix, ViewerSetKey(arn)), t1) != StringType
    requires t1 <= t2
    ensures var first := JoinStore(ks, prefix, u, arn, pid, t1);
      var second := JoinStore(first, prefix, u, arn, pid2, t2);
      && DecodeSession(second.Get(Prefixed(prefix, ViewerKey(u, arn)), t2)) == Parsed(Session(u, arn, pid2, t2, t2))
      && second.Members(Prefixed(prefix, ViewerSetKey(arn))) == first.Members(Prefixed(prefix, ViewerSetKey(arn)))
  {
    var setKey := Prefixed(prefix, ViewerSetKey(arn));
    SessionKeyNotSetKey(prefix, u, arn, arn);
    var first := JoinStore(ks, prefix, u, arn, pid, t1);
    assert setKey in first.sets && u in first.Members(setKey);
    var mid := first.SetText(Prefixed(prefix, ViewerKey(u, arn)), SessionText(Session(u, arn, pid2, t2, t2)), SESSION_TTL, t2);
    assert setKey in mid.sets;
    assert mid.Members(setKey) + {u} == first.Members(setKey);
  }

  lemma BeatKeepsSession(ks: KeySpace, prefix: string, u: string, arn: string, now: int, later: int)
    requires now <= later <= now + SESSION_TTL * 1000
    ensures var k := Prefixed(prefix, ViewerKey(u, arn));
      BeatStore(ks, prefix, u, arn, now).None? <==> !DecodeSession(ks.Get(k, now)).Parsed?
    ensures var k := Prefixed(prefix, ViewerKey(u, arn));
      var r := BeatStore(ks, prefix, u, arn, now);
      r.Some? ==> DecodeSession(r.value.Get(k, later)) == Parsed(DecodeSession(ks.Get(k, now)).value.(lastHeartbeat := now))
    ensures var r := BeatStore(ks, prefix, u, arn, now);
      r.Some? ==> forall j :: r.value.Members(j) == ks.Members(j)
  {
  }

  /** After a leave whose session read did not throw, the session is gone and
      (unless the set key holds a string) the user is no longer a member. */
  lemma LeaveRemoves(ks: KeySpace, prefix: string, u: string, arn: string, now: int)
    requires !DecodeSession(ks.Get(Prefixed(prefix, ViewerKey(u, arn)), now)).Corrupt?
    ensures var after := LeaveStore(ks, prefix, u, arn, now);
      after.TypeOf(Prefixed(prefix, ViewerKey(u, arn)), now) == NoneType
    ensures var setKey := Prefixed(prefix, ViewerSetKey(arn));
      ks.TypeOf(setKey, now) != StringType ==> u !in LeaveStore(ks, prefix, u, arn, now).Members(setKey)
  {
    SessionKeyNotSetKey(prefix, u, arn, arn);
  }

  /** A join followed by a leave: no session and no membership. */
  lemma JoinThenLeave(ks: KeySpace, prefix: string, u: string, arn: string, pid: string, now: int)
    requires ks.TypeOf(Prefixed(prefix, ViewerSetKey(arn)), now) != StringType
    ensures var after := LeaveStore(JoinStore(ks, prefix, u, arn, pid, now), prefix, u, arn, now);
      && after.TypeOf(Prefixed(prefix, ViewerKey(u, arn)), now) == NoneType
      && after.Members(Prefixed(prefix, ViewerSetKey(arn))) == ks.Members(Prefixed(prefix, ViewerSetKey(arn))) - {u}
  {
    var setKey := Prefixed(prefix, ViewerSetKey(arn));
    SessionKeyNotSetKey(prefix, u, arn, arn);
    JoinRecordsSession(ks, prefix, u, arn, pid, now, now);
    var joined := JoinStore(ks, prefix, u, arn, pid, now);
    assert joined.TypeOf(setKey, now) == SetType;
    LeaveRemoves(joined, prefix, u, arn, now);
  }

  // ---------------------------------------------------------------------
  // The sweep

  /** What the sweep does with one member of a stage's set. */
  datatype Verdict = Stay | Evict | Abort

  /** Evict when the session is missing (or empty text), or when its last
      heartbeat is more than HEARTBEAT_TIMEOUT seconds before `now`; Abort
      when reading or parsing it throws, which ends the whole sweep. */
  function SessionVerdict(ks: KeySpace, prefix: string, arn: string, u: string, now: int): Verdict {
    match DecodeSession(ks.Get(Prefixed(prefix, ViewerKey(u, arn)), now))
    case Absent => Evict
    case Corrupt => Abort
    case Parsed(s) => if now - s.lastHeartbeat > HEARTBEAT_TIMEOUT * 1000 then Evict else Stay
  }

  /** A viewer who joined or beat at `t` stays through t + 60 s inclusive and
      is evicted from any instant after that. */
  lemma StaleAfterSixtySeconds(ks: KeySpace, prefix: string, u: string, arn: string, pid: string, t: int, later: int)
    requires t <= later
    ensures var after := JoinStore(ks, prefix, u, arn, pid, t);
      SessionVerdict(after, prefix, arn, u, later) == (if later - t <= 60000 then Stay else Evict)
  {
    var after := JoinStore(ks, prefix, u, arn, pid, t);
    if later <= t + SESSION_TTL * 1000 {
      JoinRecordsSession(ks, prefix, u, arn, pid, t, later);
    } else {
      SessionKeyNotSetKey(prefix, u, arn, arn);
      assert after.Get(Prefixed(prefix, ViewerKey(u, arn)), later) == Nil;
    }
  }

  lemma BeatKeepsViewer(ks: KeySpace, prefix: string, u: string, arn: string, now: int, later: int)
    requires BeatStore(ks, prefix, u, arn, now).Some?
    requires now <= later <= now + HEARTBEAT_TIMEOUT * 1000
    ensures SessionVerdict(BeatStore(ks, prefix, u, arn, now).value, prefix, arn, u, later) == Stay
  {
    BeatKeepsSession(ks, prefix, u, arn, now, later);
  }

  /** The members of the stage's set that the sweep evicts. */
  function Evictees(ks: KeySpace, prefix: string, arn: string, now: int): set<string> {
    set u | u in ks.Members(Prefixed(prefix, ViewerSetKey(arn))) && SessionVerdict(ks, prefix, arn, u, now) == Evict
  }

  /** The stage's pass throws: SMEMBERS hits a string, or some member's session
      read throws. */
  predicate StageBlocked(ks: KeySpace, prefix: string, arn: string, now: int) {
    var setKey := Prefixed(prefix, ViewerSetKey(arn));
    ks.TypeOf(setKey, now) == StringType ||
    exists u :: u in ks.Members(setKey) && SessionVerdict(ks, prefix, arn, u, now) == Abort
  }

  function SessionKeys(prefix: string, arn: string, r: set<string>): set<string> {
    set u | u in r :: Prefixed(prefix, ViewerKey(u, arn))
  }

  /** The store after the members `r` of the stage's set and their sessions
      are removed. */
  function Swept(ks: KeySpace, prefix: string, arn: string, r: set<string>): (out: KeySpace)
    ensures ks.Valid() ==> out.Valid()
    ensures var setKey := Prefixed(prefix, ViewerSetKey(arn));
      && out.Members(setKey) == ks.Members(setKey) - r
      && (forall j :: j != setKey ==> out.Members(j) == ks.Members(j))
      && (forall j :: j in out.strings ==> j in ks.strings && out.strings[j] == ks.strings[j])
      && (forall u, t :: u in r ==> !out.HasString(Prefixed(prefix, ViewerKey(u, arn)), t))
  {
    var setKey := Prefixed(prefix, ViewerSetKey(arn));
    var sets :=
      if setKey !in ks.sets then ks.sets
      else if ks.sets[setKey] - r == {} then ks.sets - {setKey}
      else ks.sets[setKey := ks.sets[setKey] - r];
    KeySpace(ks.strings - SessionKeys(prefix, arn, r), sets)
  }

  /** The members of `us` the sweep evicts. */
  function EvictedAmong(ks: KeySpace, prefix: string, arn: string, now: int, us: seq<string>): set<string> {
    set u | u in us && SessionVerdict(ks, prefix, arn, u, now) == Evict
  }

  lemma EvictedAmongStep(ks: KeySpace, prefix: string, arn: string, now: int, us: seq<string>, i: nat)
    requires i < |us|
    ensures EvictedAmong(ks, prefix, arn, now, us[..i + 1])
            == EvictedAmong(ks, prefix, arn, now, us[..i])
               + (if SessionVerdict(ks, prefix, arn, us[i], now) == Evict then {us[i]} else {})
  {
    assert us[..i + 1] == us[..i] + [us[i]];
  }

  /** A pass that read every member without a throw is not blocked, and it
      evicted exactly the evictees. */
  lemma PassCovers(ks: KeySpace, prefix: string, arn: string, now: int, list: seq<string>)
    requires ks.TypeOf(Prefixed(prefix, ViewerSetKey(arn)), now) != StringType
    requires forall u :: u in list <==> u in ks.Members(Prefixed(prefix, ViewerSetKey(arn)))
    requires forall j :: 0 <= j < |list| ==> SessionVerdict(ks, prefix, arn, list[j], now) != Abort
    ensures !StageBlocked(ks, prefix, arn, now)
    ensures EvictedAmong(ks, prefix, arn, now, list[..|list|]) == Evictees(ks, prefix, arn, now)
  {
    assert list[..|list|] == list;
    forall u | u in ks.Members(Prefixed(prefix, ViewerSetKey(arn)))
      ensures SessionVerdict(ks, prefix, arn, u, now) != Abort
    {
      var j :| 0 <= j < |list| && list[j] == u;
    }
  }

  /** A session read of a member not yet removed sees the original store. */
  lemma SweptGet(ks: KeySpace, prefix: string, arn: string, r: set<string>, u: string, now: int)
    requires u !in r
    ensures Swept(ks, prefix, arn, r).Get(Prefixed(prefix, ViewerKey(u, arn)), now) == ks.Get(Prefixed(prefix, ViewerKey(u, arn)), now)
  {
    var k := Prefixed(prefix, ViewerKey(u, arn));
    SessionKeyNotSetKey(prefix, u, arn, arn);
    if k in SessionKeys(prefix, arn, r) {
      var v :| v in r && k == Prefixed(prefix, ViewerKey(v, arn));
      SessionKeyInjective(prefix, u, v, arn);
    }
  }

  /** Removing nobody changes nothing. */
  lemma SweptNone(ks: KeySpace, prefix: string, arn: string)
    requires ks.Valid()
    ensures Swept(ks, prefix, arn, {}) == ks
  {
    var setKey := Prefixed(prefix, ViewerSetKey(arn));
    assert SessionKeys(prefix, arn, {}) == {};
    assert ks.strings - {} == ks.strings;
    if setKey in ks.sets {
      assert ks.sets[setKey] - {} == ks.sets[setKey];
      assert ks.sets[setKey := ks.sets[setKey]] == ks.sets;
    }
  }

  lemma SweptStepStrings(ks: KeySpace, prefix: string, arn: string, r: set<string>, u: string)
    ensures Swept(ks, prefix, arn, r).Del(Prefixed(prefix, ViewerKey(u, arn))).strings
            == Swept(ks, prefix, arn, r + {u}).strings
  {
    var k := Prefixed(prefix, ViewerKey(u, arn));
    assert SessionKeys(prefix, arn, r + {u}) == SessionKeys(prefix, arn, r) + {k};
  }

  lemma SweptStepSets(ks: KeySpace, prefix: string, arn: string, r: set<string>, u: string, now: int)
    requires ks.Valid()
    requires Prefixed(prefix, ViewerKey(u, arn)) !in ks.sets
    requires ks.TypeOf(Prefixed(prefix, ViewerSetKey(arn)), now) != StringType
    ensures var s := Swept(ks, prefix, arn, r).Del(Prefixed(prefix, ViewerKey(u, arn)));
      s.SRem(Prefixed(prefix, ViewerSetKey(arn)), u, now).Ok? &&
      s.SRem(Prefixed(prefix, ViewerSetKey(arn)), u, now).value.sets == Swept(ks, prefix, arn, r + {u}).sets
  {
    var setKey := Prefixed(prefix, ViewerSetKey(arn));
    var k := Prefixed(prefix, ViewerKey(u, arn));
    SessionKeyNotSetKey(prefix, u, arn, arn);
    var a := Swept(ks, prefix, arn, r);
    var s := a.Del(k);
    assert s.sets == a.sets;
    assert !s.HasString(setKey, now);
    var b := Swept(ks, prefix, arn, r + {u});
    assert s.TypeOf(setKey, now) != StringType;
    if setKey in ks.sets {
      var m := ks.sets[setKey];
      assert m - (r + {u}) == (m - r) - {u};
      if m - r == {} {
        assert setKey !in s.sets;
        assert b.sets == ks.sets - {setKey} == a.sets;
      } else if (m - r) - {u} == {} {
        assert s.sets[setKey] == m - r;
        assert a.sets - {setKey} == ks.sets - {setKey};
      } else {
        assert s.sets[setKey] == m - r;
        assert a.sets[setKey := (m - r) - {u}] == ks.sets[setKey := m - (r + {u})];
      }
    } else {
      assert setKey !in s.sets && b.sets == ks.sets == a.sets;
    }
  }

  /** One eviction inside the stage's pass: the leave of member u extends the
      removed set by u. */
  lemma SweptStep(ks: KeySpace, prefix: string, arn: string, r: set<string>, u: string, now: int)
    requires ks.Valid()
    requires ks.TypeOf(Prefixed(prefix, ViewerSetKey(arn)), now) != StringType
    requires Prefixed(prefix, ViewerKey(u, arn)) !in ks.sets
    ensures var s := Swept(ks, prefix, arn, r).Del(Prefixed(prefix, ViewerKey(u, arn)));
      s.SRem(Prefixed(prefix, ViewerSetKey(arn)), u, now) == Ok(Swept(ks, prefix, arn, r + {u}))
  {
    SweptStepStrings(ks, prefix, arn, r, u);
    SweptStepSets(ks, prefix, arn, r, u, now);
    var s := Swept(ks, prefix, arn, r).Del(Prefixed(prefix, ViewerKey(u, arn)));
    assert s.SRem(Prefixed(prefix, ViewerSetKey(arn)), u, now).value.strings == s.strings;
  }

  /** The outcome of one stage's pass when it does not throw. */
  function StageSwept(ks: KeySpace, prefix: string, arn: string, now: int): KeySpace {
    Swept(ks, prefix, arn, Evictees(ks, prefix, arn, now))
  }

  /** A member survives a pass exactly when its session is present and fresh;
      the sessions of the evicted members are gone. */
  lemma StageSweptMembers(ks: KeySpace, prefix: string, arn: string, now: int, u: string)
    requires !StageBlocked(ks, prefix, arn, now)
    requires u in ks.Members(Prefixed(prefix, ViewerSetKey(arn)))
    ensures u in StageSwept(ks, prefix, arn, now).Members(Prefixed(prefix, ViewerSetKey(arn)))
            <==> SessionVerdict(ks, prefix, arn, u, now) == Stay
    ensures SessionVerdict(ks, prefix, arn, u, now) == Evict
            ==> StageSwept(ks, prefix, arn, now).TypeOf(Prefixed(prefix, ViewerKey(u, arn)), now) != StringType
  {
  }

  /** A second pass at the same instant evicts nobody. */
  lemma {:induction false} StageSweptIdempotent(ks: KeySpace, prefix: string, arn: string, now: int)
    requires !StageBlocked(ks, prefix, arn, now)
    ensures Evictees(StageSwept(ks, prefix, arn, now), prefix, arn, now) == {}
  {
    var r := Evictees(ks, prefix, arn, now);
    var after := StageSwept(ks, prefix, arn, now);
    var setKey := Prefixed(prefix, ViewerSetKey(arn));
    forall u | u in after.Members(setKey)
      ensures SessionVerdict(after, prefix, arn, u, now) == Stay
    {
      assert u !in r;
      SweptGet(ks, prefix, arn, r, u, now);
    }
  }

  /** Where `cleanupInactiveViewers` looks: keys matching the glob
      `*stage:*:viewers`, i.e. ending in ":viewers" with "stage:" before that. */
  predicate SweepPattern(k: string) {
    EndsWith(k, ":viewers") && Contains(k[..|k| - 8], "stage:")
  }

  /** Every viewer-set key the service writes, under any prefix, matches the glob. */
  lemma SetKeyMatchesPattern(prefix: string, arn: string)
    ensures SweepPattern(Prefixed(prefix, ViewerSetKey(arn)))
  {
    var k := Prefixed(prefix, ViewerSetKey(arn));
    assert k == prefix + "stage:" + arn + ":viewers";
    assert k[..|k| - 8] == prefix + "stage:" + arn;
    ContainsInfix(prefix, "stage:", arn);
  }

  /** `parts.slice(a, b)`, empty when a > b. */
  function Slice(parts: seq<string>, a: nat, b: nat): (r: seq<string>)
    requires a <= |parts| && b <= |parts|
  {
    if a <= b then parts[a..b] else []
  }

  /** The stage ARN recovered from a viewer-set key: the segments strictly
      between the first "stage" and the first "viewers" segment, joined by
      ':'; None when either segment is missing or the result does not start
      with the IVS ARN prefix. */
  function ArnFromStageKey(key: string): (r: Option<string>)
    ensures r.Some? ==> StartsWith(r.value, IvsService.ARN_PREFIX)
  {
    var parts := Split(key);
    var vi := IndexOf(parts, "viewers");
    var si := IndexOf(parts, "stage");
    if vi == -1 || si == -1 then None
    else
      var arn := Join(Slice(parts, si + 1, vi));
      if arn != "" && StartsWith(arn, IvsService.ARN_PREFIX) then Some(arn) else None
  }

  /** The viewer-set key of a prefix and an ARN, each given by its segments,
      is the join of all the segments. */
  lemma {:induction false} StageKeySegments(ps: seq<string>, arnParts: seq<string>)
    requires |ps| >= 1 && |arnParts| >= 1
    ensures Prefixed(Join(ps) + ":", ViewerSetKey(Join(arnParts))) == Join(ps + ["stage"] + arnParts + ["viewers"])
  {
    var p, a := Join(ps), Join(arnParts);
    JoinAppend(ps, ["stage"]);
    assert Join(ps + ["stage"]) == p + ":" + "stage";
    JoinAppend(ps + ["stage"], arnParts);
    assert Join(ps + ["stage"] + arnParts) == p + ":" + "stage" + ":" + a;
    JoinAppend(ps + ["stage"] + arnParts, ["viewers"]);
    assert Join(ps + ["stage"] + arnParts + ["viewers"]) == p + ":" + "stage" + ":" + a + ":" + "viewers";
    StageKeyText(p, a);
  }

  lemma StageKeyText(p: string, a: string)
    ensures Prefixed(p + ":", ViewerSetKey(a)) == p + ":" + "stage" + ":" + a + ":" + "viewers"
  {
    assert "stage:" == "stage" + ":" && ":viewers" == ":" + "viewers";
  }

  /** `{prefix}stage:{arn}:viewers` parses back to arn, when the prefix's
      segments include no bare "stage" or "viewers" and the ARN's include no
      bare "viewers". The prefix is given by its segments: "ivs:prod:" is
      ["ivs", "prod"]. */
  lemma {:induction false} StageKeyRoundTrip(ps: seq<string>, arnParts: seq<string>)
    requires |ps| >= 1 && |arnParts| >= 1
    requires forall i :: 0 <= i < |ps| ==> ColonFree(ps[i])
    requires forall i :: 0 <= i < |arnParts| ==> ColonFree(arnParts[i])
    requires "stage" !in ps && "viewers" !in ps && "viewers" !in arnParts
    requires StartsWith(Join(arnParts), IvsService.ARN_PREFIX)
    ensures ArnFromStageKey(Prefixed(Join(ps) + ":", ViewerSetKey(Join(arnParts)))) == Some(Join(arnParts))
  {
    var parts := ps + ["stage"] + arnParts + ["viewers"];
    StageKeySegments(ps, arnParts);
    forall i | 0 <= i < |parts|
      ensures ColonFree(parts[i])
    {
      if i < |ps| {
        assert parts[i] == ps[i];
      } else if |ps| < i < |ps| + 1 + |arnParts| {
        assert parts[i] == arnParts[i - |ps| - 1];
      }
    }
    SplitJoin(parts);
    var last := |ps| + 1 + |arnParts|;
    assert parts[..|ps|] == ps;
    IndexOfAt(parts, "stage", |ps|);
    assert parts[..last] == ps + ["stage"] + arnParts;
    assert "viewers" !in parts[..last];
    IndexOfAt(parts, "viewers", last);
    assert Slice(parts, |ps| + 1, last) == arnParts;
  }

  /** The fold the sweep performs over the scanned keys in scan order: None
      when a stage's pass throws (the outer catch ends the sweep). */
  function SweepAll(ks: KeySpace, prefix: string, keys: seq<string>, now: int): Option<KeySpace>
    decreases |keys|
  {
    if keys == [] then Some(ks)
    else
      var arn := if Contains(keys[0], ":viewers") then ArnFromStageKey(keys[0]) else None;
      if arn.None? then SweepAll(ks, prefix, keys[1..], now)
      else if StageBlocked(ks, prefix, arn.value, now) then None
      else SweepAll(StageSwept(ks, prefix, arn.value, now), prefix, keys[1..], now)
  }

  /** The step of the fold on one key. */
  function SweepOne(ks: KeySpace, prefix: string, key: string, now: int): Option<KeySpace> {
    var arn := if Contains(key, ":viewers") then ArnFromStageKey(key) else None;
    if arn.None? then Some(ks)
    else if StageBlocked(ks, prefix, arn.value, now) then None
    else Some(StageSwept(ks, prefix, arn.value, now))
  }

  lemma SweepAllCons(ks: KeySpace, prefix: string, keys: seq<string>, now: int)
    requires keys != []
    ensures SweepAll(ks, prefix, keys, now) ==
      match SweepOne(ks, prefix, keys[0], now)
      case None => None
      case Some(next) => SweepAll(next, prefix, keys[1..], now)
  {
  }

  /** The sweep only ever removes: no member is added to any set, and no
      string key is added or rewritten. */
  lemma {:induction false} SweepAllOnlyRemoves(ks: KeySpace, prefix: string, keys: seq<string>, now: int)
    requires SweepAll(ks, prefix, keys, now).Some?
    ensures ks.Valid() ==> SweepAll(ks, prefix, keys, now).value.Valid()
    ensures var out := SweepAll(ks, prefix, keys, now).value;
      && (forall j :: out.Members(j) <= ks.Members(j))
      && (forall j :: j in out.strings ==> j in ks.strings && out.strings[j] == ks.strings[j])
    decreases |keys|
  {
    if keys != [] {
      var arn := if Contains(keys[0], ":viewers") then ArnFromStageKey(keys[0]) else None;
      if arn.None? {
        SweepAllOnlyRemoves(ks, prefix, keys[1..], now);
      } else {
        SweepAllOnlyRemoves(StageSwept(ks, prefix, arn.value, now), prefix, keys[1..], now);
      }
    }
  }

  /** Viewer sets of stages whose ARN is not an IVS ARN are never touched. */
  lemma {:induction false} SweepSparesForeignSets(ks: KeySpace, prefix: string, keys: seq<string>, now: int, a: string)
    requires SweepAll(ks, prefix, keys, now).Some?
    requires !StartsWith(a, IvsService.ARN_PREFIX)
    ensures SweepAll(ks, prefix, keys, now).value.Members(Prefixed(prefix, ViewerSetKey(a)))
            == ks.Members(Prefixed(prefix, ViewerSetKey(a)))
    decreases |keys|
  {
    if keys != [] {
      var arn := if Contains(keys[0], ":viewers") then ArnFromStageKey(keys[0]) else None;
      if arn.None? {
        SweepSparesForeignSets(ks, prefix, keys[1..], now, a);
      } else {
        if Prefixed(prefix, ViewerSetKey(arn.value)) == Prefixed(prefix, ViewerSetKey(a)) {
          SetKeyInjective(prefix, arn.value, a);
        }
        SweepSparesForeignSets(StageSwept(ks, prefix, arn.value, now), prefix, keys[1..], now, a);
      }
    }
  }

  // ---------------------------------------------------------------------
  // The service object

  class ViewerHeartbeatService {
    const redis: RedisService
    var isRunning: bool
    /** Whether a cleanup timer is set (`cleanupInterval` defined). */
    var hasTimer: bool

    /** The running flag and the timer are set and cleared together. */
    predicate Monitoring() reads this {
      isRunning == hasTimer
    }

    constructor (redis: RedisService)
      ensures this.redis == redis && !isRunning && !hasTimer && Monitoring()
    {
      this.redis := redis;
      isRunning := false;
      hasTimer := false;
    }

    /** `startMonitoring`: a second start while running does nothing. */
    method StartMonitoring()
      requires Monitoring()
      modifies this
      ensures Monitoring() && isRunning && hasTimer
      ensures old(isRunning) ==> isRunning == old(isRunning) && hasTimer == old(hasTimer)
    {
      if isRunning {
        return;
      }
      isRunning := true;
      hasTimer := true;
    }

    /** `stopMonitoring`: acts only when a timer is set. */
    method StopMonitoring()
      requires Monitoring()
      modifies this
      ensures Monitoring() && !isRunning && !hasTimer
      ensures !old(hasTimer) ==> isRunning == old(isRunning)
    {
      if hasTimer {
        hasTimer := false;
        isRunning := false;
      }
    }

    /** `recordViewerJoin` */
    method RecordViewerJoin(userId: string, stageArn: string, participantId: string, now: int)
      requires redis.Valid()
      modifies redis
      ensures redis.Valid()
      ensures redis.ks == JoinStore(old(redis.ks), redis.prefix, userId, stageArn, participantId, now)
    {
      redis.Set(ViewerKey(userId, stageArn), SessionText(Session(userId, stageArn, participantId, now, now)), SESSION_TTL, now);
      var added := redis.SAdd(ViewerSetKey(stageArn), userId, now);
    }

    /** `updateViewerHeartbeat`: false when there is no session or reading it throws. */
    method UpdateViewerHeartbeat(userId: string, stageArn: string, now: int) returns (ok: bool)
      requires redis.Valid()
      modifies redis
      ensures redis.Valid()
      ensures var r := BeatStore(old(redis.ks), redis.prefix, userId, stageArn, now);
        (ok <==> r.Some?) && redis.ks == (if ok then r.value else old(redis.ks))
    {
      var g := redis.Get(ViewerKey(userId, stageArn), now);
      match DecodeSession(g)
      case Parsed(s) =>
        redis.Set(ViewerKey(userId, stageArn), SessionText(s.(lastHeartbeat := now)), SESSION_TTL, now);
        ok := true;
      case _ =>
        ok := false;
    }

    /** `recordViewerLeave`, including the counter call that changes nothing. */
    method RecordViewerLeave(userId: string, stageArn: string, now: int)
      requires redis.Valid()
      modifies redis
      ensures redis.Valid()
      ensures redis.ks == LeaveStore(old(redis.ks), redis.prefix, userId, stageArn, now)
    {
      var g := redis.Get(ViewerKey(userId, stageArn), now);
      if DecodeSession(g).Corrupt? {
        return;
      }
      redis.Del(ViewerKey(userId, stageArn));
      var removed := redis.SRem(ViewerSetKey(stageArn), userId, now);
      if removed {
        var count := redis.DeprecatedCounterCall(Some(stageArn), now);
      }
    }

    /** One member of a stage's pass: read the session and evict the member
        when it is missing or stale. abort is true when the read throws.
        `ks0` is the store at the start of the pass and `gone` the members
        evicted so far. */
    method SweepMember(stageArn: string, u: string, now: int, ghost ks0: KeySpace, ghost gone: set<string>)
      returns (abort: bool)
      requires redis.Valid() && ks0.Valid()
      requires ks0.TypeOf(Prefixed(redis.prefix, ViewerSetKey(stageArn)), now) != StringType
      requires u !in gone
      requires redis.ks == Swept(ks0, redis.prefix, stageArn, gone)
      modifies redis
      ensures redis.Valid()
      ensures abort <==> SessionVerdict(ks0, redis.prefix, stageArn, u, now) == Abort
      ensures !abort ==> redis.ks == Swept(ks0, redis.prefix, stageArn,
        gone + if SessionVerdict(ks0, redis.prefix, stageArn, u, now) == Evict then {u} else {})
    {
      ghost var prefix := redis.prefix;
      SweptGet(ks0, prefix, stageArn, gone, u, now);
      var g := redis.Get(ViewerKey(u, stageArn), now);
      var d := DecodeSession(g);
      if d.Corrupt? {
        return true;
      }
      abort := false;
      if d.Absent? || now - d.value.lastHeartbeat > HEARTBEAT_TIMEOUT * 1000 {
        SweptStep(ks0, prefix, stageArn, gone, u, now);
        RecordViewerLeave(u, stageArn, now);
      } else {
        assert gone + {} == gone;
      }
    }

    /** One stage's pass of the sweep: every member of the set in SMEMBERS
        order. ok is false when the pass throws (store left partly swept). */
    method SweepStage(stageArn: string, now: int) returns (ok: bool)
      requires redis.Valid()
      modifies redis
      ensures redis.Valid()
      ensures ok <==> !StageBlocked(old(redis.ks), redis.prefix, stageArn, now)
      ensures ok ==> redis.ks == StageSwept(old(redis.ks), redis.prefix, stageArn, now)
    {
      ghost var ks0 := redis.ks;
      ghost var prefix := redis.prefix;
      ghost var setKey := Prefixed(prefix, ViewerSetKey(stageArn));
      var viewers := redis.SMembers(ViewerSetKey(stageArn), now);
      if viewers.WrongType? {
        return false;
      }
      var list := viewers.value;
      ghost var gone: set<string> := {};
      SweptNone(ks0, prefix, stageArn);
      var i := 0;
      while i < |list|
        invariant 0 <= i <= |list|
        invariant redis.Valid()
        invariant redis.ks == Swept(ks0, prefix, stageArn, gone)
        invariant gone == EvictedAmong(ks0, prefix, stageArn, now, list[..i])
        invariant forall j :: 0 <= j < i ==> SessionVerdict(ks0, prefix, stageArn, list[j], now) != Abort
      {
        var u := list[i];
        assert u !in list[..i];
        var abort := SweepMember(stageArn, u, now, ks0, gone);
        if abort {
          assert u in ks0.Members(setKey);
          return false;
        }
        EvictedAmongStep(ks0, prefix, stageArn, now, list, i);
        gone := gone + if SessionVerdict(ks0, prefix, stageArn, u, now) == Evict then {u} else {};
        i := i + 1;
      }
      PassCovers(ks0, prefix, stageArn, now, list);
      ok := true;
    }

    /** `cleanupInactiveViewers`: scan the raw (unprefixed) key space with the
        glob `*stage:*:viewers` and run a stage pass for each key whose ARN
        parses. `order` is the scan order; ok is false when a pass throws. */
    method CleanupInactiveViewers(now: int) returns (ok: bool, ghost order: seq<string>)
      requires redis.Valid()
      modifies redis
      ensures redis.Valid()
      ensures NoDups(order) && forall k :: k in order <==> k in old(redis.ks).LiveKeys(now) && SweepPattern(k)
      ensures ok <==> SweepAll(old(redis.ks), redis.prefix, order, now).Some?
      ensures ok ==> redis.ks == SweepAll(old(redis.ks), redis.prefix, order, now).value
    {
      ghost var ks0 := redis.ks;
      var keys := Enumerate(set k | k in redis.ks.LiveKeys(now) && SweepPattern(k));
      order := keys;
      var i := 0;
      while i < |keys|
        invariant 0 <= i <= |keys|
        invariant redis.Valid()
        invariant SweepAll(ks0, redis.prefix, keys, now) == SweepAll(redis.ks, redis.prefix, keys[i..], now)
      {
        ghost var before := redis.ks;
        SweepAllCons(before, redis.prefix, keys[i..], now);
        assert keys[i..][1..] == keys[i + 1..] && keys[i..][0] == keys[i];
        var passed := SweepKey(keys[i], now);
        if !passed {
          return false, order;
        }
        i := i + 1;
      }
      ok := true;
    }

    /** One scanned key: the stage pass for its ARN, if it parses. */
    method SweepKey(key: string, now: int) returns (ok: bool)
      requires redis.Valid()
      modifies redis
      ensures redis.Valid()
      ensures ok <==> SweepOne(old(redis.ks), redis.prefix, key, now).Some?
      ensures ok ==> redis.ks == SweepOne(old(redis.ks), redis.prefix, key, now).value
    {
      var arn := if Contains(key, ":viewers") then ArnFromStageKey(key) else None;
      ok := true;
      if arn.Some? {
        ok := SweepStage(arn.value, now);
      }
    }

    /** `getActiveViewers`: the set's members, [] when SMEMBERS throws. */
    method GetActiveViewers(stageArn: string, now: int) returns (r: seq<string>)
      ensures var k := Prefixed(redis.prefix, ViewerSetKey(stageArn));
        && NoDups(r)
        && (redis.ks.TypeOf(k, now) != StringType ==> (forall u :: u in r <==> u in redis.ks.Members(k)) && |r| == |redis.ks.Members(k)|)
        && (redis.ks.TypeOf(k, now) == StringType ==> r == [])
    {
      var m := redis.SMembers(ViewerSetKey(stageArn), now);
      match m
      case Ok(list) => r := list;
      case WrongType => r := [];
    }

    /** `getViewerWatchDuration`: whole seconds since joinedAt (rounded down),
        0 when there is no session or the read throws. */
    method GetViewerWatchDuration(userId: string, stageArn: string, now: int) returns (d: int)
      ensures var s := DecodeSession(redis.ks.Get(Prefixed(redis.prefix, ViewerKey(userId, stageArn)), now));
        && (s.Parsed? ==> d * 1000 <= now - s.value.joinedAt < d * 1000 + 1000)
        && (!s.Parsed? ==> d == 0)
    {
      var g := redis.Get(ViewerKey(userId, stageArn), now);
      match DecodeSession(g)
      case Parsed(s) => d := (now - s.joinedAt) / 1000;
      case _ => d := 0;
    }
  }
}
