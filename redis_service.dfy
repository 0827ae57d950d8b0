/** The Redis key space behind the API server and the RedisService wrapper
    (api-server/src/services/RedisService.ts). The store is a pair of maps:
    string keys carrying a value and an optional expiry instant, and set keys.
    Each command is one atomic step at a given instant `now` (milliseconds);
    a string whose expiry instant has passed reads as absent (Redis keeps a
    key readable at its exact expiry millisecond). */
module RedisService {
  import opened Common

  const DEFAULT_PREFIX := "ivs:prod:"
  const STAGE_INFO_TTL := 3600
  const PUBLISHER_TTL := 86400
  const REPLICATION_TTL := 86400
  const TOTAL_VIEWERS := "total_viewers"
  const PUBLISHER_STATUS := "publisher:status"
  const PUBLISHER_INFO := "publisher:info"

  /** Short (unprefixed) key names used by the services. */
  function ViewerSetKey(stageArn: string): string { "stage:" + stageArn + ":viewers" }
  function StageInfoKey(stageId: string): string { "stage:" + stageId }
  function ViewerCounterKey(stageId: string): string { "viewers:" + stageId }
  function ReplicationKey(destStageArn: string): string { "replication:" + destStageArn }

  /** A viewer's heartbeat session. */
  datatype Session = Session(userId: string, stageArn: string, participantId: string,
                             joinedAt: int, lastHeartbeat: int)

  /** The record kept under `stage:{id}`; the scaler writes autoScaled and
      parentStage, the stage route writes managedBy. */
  datatype StageInfo = StageInfo(name: string, arn: Option<string>, autoScaled: bool, createdAt: int,
                                 parentStage: Option<string>, managedBy: Option<string>)

  datatype PublisherInfo = PublisherInfo(participantId: string, stageArn: string, userId: string, joinedAt: int)

  datatype ReplicationInfo = ReplicationInfo(sourceStageArn: string, destStageArn: string,
                                             participantId: string, startedAt: int)

  /** The text held by a string key: one of the JSON records above, or any
      other text (which JSON.parse rejects). */
  datatype Text =
    | Plain(s: string)
    | SessionText(session: Session)
    | StageInfoText(info: StageInfo)
    | PublisherText(publisher: PublisherInfo)
    | ReplicationText(replication: ReplicationInfo)

  datatype Entry = Entry(text: Text, expiresAt: Option<int>) {
    predicate LiveAt(now: int) { expiresAt.None? || now <= expiresAt.value }
  }

  datatype KeyType = NoneType | StringType | SetType

  /** The message of the error Redis raises for a command on a key that
      holds the other type. */
  const WRONGTYPE_MESSAGE := "WRONGTYPE " + "Operation against " + "a key holding " + "the wrong kind of value"

  /** Reply of GET: nil, a value, or the WRONGTYPE error when the key holds a set. */
  datatype GetReply = Nil | Value(text: Text) | GetWrongType

  /** Reply of a set command: a value, or the WRONGTYPE error when the key holds a string. */
  datatype Reply<+T> = Ok(value: T) | WrongType

  /** Expiry instant of `SETEX key ttl` issued at `now`; ttl 0 is a plain SET. */
  function ExpiryFor(ttl: nat, now: int): Option<int> {
    if ttl > 0 then Some(now + ttl * 1000) else None
  }

  datatype KeySpace = KeySpace(strings: map<string, Entry>, sets: map<string, set<string>>) {

    /** A key holds one type, and Redis never keeps an empty set. */
    predicate Valid() {
      forall k :: k in sets ==> k !in strings && sets[k] != {}
    }

    predicate HasString(k: string, now: int) {
      k in strings && strings[k].LiveAt(now)
    }

    /** TYPE */
    function TypeOf(k: string, now: int): KeyType {
      if k in sets then SetType else if HasString(k, now) then StringType else NoneType
    }

    /** The members of a set key, {} when there is none. */
    function Members(k: string): set<string> {
      if k in sets then sets[k] else {}
    }

    /** KEYS *: every key that exists at `now`. */
    function LiveKeys(now: int): (r: set<string>)
      ensures forall k :: k in r <==> TypeOf(k, now) != NoneType
    {
      sets.Keys + set k | k in strings && strings[k].LiveAt(now)
    }

    /** GET */
    function Get(k: string, now: int): GetReply {
      if k in sets then GetWrongType else if HasString(k, now) then Value(strings[k].text) else Nil
    }

    /** SET / SETEX: overwrites whatever the key held. */
    function SetText(k: string, t: Text, ttl: nat, now: int): (r: KeySpace)
      ensures Valid() ==> r.Valid()
      ensures r.Get(k, now) == Value(t) && r.TypeOf(k, now) == StringType
      ensures forall j :: j != k ==> r.Get(j, now) == Get(j, now) && r.Members(j) == Members(j)
    {
      KeySpace(strings[k := Entry(t, ExpiryFor(ttl, now))], sets - {k})
    }

    /** DEL */
    function Del(k: string): (r: KeySpace)
      ensures Valid() ==> r.Valid()
      ensures forall now :: r.TypeOf(k, now) == NoneType
      ensures forall j, now :: j != k ==> r.TypeOf(j, now) == TypeOf(j, now) && r.Get(j, now) == Get(j, now)
      ensures forall j :: j != k ==> r.Members(j) == Members(j)
    {
      KeySpace(strings - {k}, sets - {k})
    }

    /** SADD of one member; a dead (expired) string at the key is dropped. */
    function SAdd(k: string, m: string, now: int): (r: Reply<KeySpace>)
      ensures r.WrongType? <==> TypeOf(k, now) == StringType
      ensures r.Ok? ==> Valid() ==> r.value.Valid()
      ensures r.Ok? ==> r.value.Members(k) == Members(k) + {m}
      ensures r.Ok? ==> r.value.TypeOf(k, now) == SetType
      ensures r.Ok? ==> forall j :: j != k ==> r.value.Members(j) == Members(j)
      ensures r.Ok? ==> forall j, t :: j != k ==> r.value.Get(j, t) == Get(j, t)
    {
      if TypeOf(k, now) == StringType then WrongType
      else Ok(KeySpace(strings - {k}, sets[k := Members(k) + {m}]))
    }

    /** SREM of one member; removing the last member deletes the key. */
    function SRem(k: string, m: string, now: int): (r: Reply<KeySpace>)
      ensures r.WrongType? <==> TypeOf(k, now) == StringType
      ensures r.Ok? ==> Valid() ==> r.value.Valid()
      ensures r.Ok? ==> r.value.Members(k) == Members(k) - {m}
      ensures r.Ok? ==> forall j :: j != k ==> r.value.Members(j) == Members(j)
      ensures r.Ok? ==> forall j, t :: j != k ==> r.value.Get(j, t) == Get(j, t)
    {
      if TypeOf(k, now) == StringType then WrongType
      else if k !in sets then Ok(this)
      else if sets[k] - {m} == {} then Ok(KeySpace(strings, sets - {k}))
      else Ok(KeySpace(strings, sets[k := sets[k] - {m}]))
    }

    /** SCARD */
    function SCard(k: string, now: int): (r: Reply<nat>)
      ensures r.WrongType? <==> TypeOf(k, now) == StringType
      ensures r.Ok? ==> r.value == |Members(k)|
    {
      if TypeOf(k, now) == StringType then WrongType else Ok(|Members(k)|)
    }

    /** SMEMBERS */
    function SMembers(k: string, now: int): (r: Reply<set<string>>)
      ensures r.WrongType? <==> TypeOf(k, now) == StringType
      ensures r.Ok? ==> r.value == Members(k)
    {
      if TypeOf(k, now) == StringType then WrongType else Ok(Members(k))
    }

    /** Keys deleted all at once. */
    function DelAll(d: set<string>): (r: KeySpace)
      ensures Valid() ==> r.Valid()
    {
      KeySpace(strings - d, sets - d)
    }
  }

  /** The key space before anything is written. */
  const EmptyStore := KeySpace(map[], map[])

  /** `getPrefixedKey`. */
  function Prefixed(prefix: string, key: string): (r: string)
    ensures StartsWith(r, prefix) && r[|prefix|..] == key
  {
    assert (prefix + key)[..|prefix|] == prefix;
    prefix + key
  }

  lemma PrefixedInjective(prefix: string, a: string, b: string)
    requires Prefixed(prefix, a) == Prefixed(prefix, b)
    ensures a == b
  {
    assert a == Prefixed(prefix, a)[|prefix|..];
  }

  // ---------------------------------------------------------------------
  // Record decoding: how each reader turns a GET reply into a value.

  /** Session read (`if (!data) … JSON.parse(data)`): empty text is falsy. */
  function DecodeSession(g: GetReply): Read<Session> {
    match g
    case Nil => Absent
    case GetWrongType => Corrupt
    case Value(t) =>
      if t == Plain("") then Absent else if t.SessionText? then Parsed(t.session) else Corrupt
  }

  /** `getStageInfo`: `info ? JSON.parse(info) : null`. */
  function DecodeStageInfo(g: GetReply): Read<StageInfo> {
    match g
    case Nil => Absent
    case GetWrongType => Corrupt
    case Value(t) =>
      if t == Plain("") then Absent else if t.StageInfoText? then Parsed(t.info) else Corrupt
  }

  /** `getReplicationStatus`: `info ? JSON.parse(info) : null`. */
  function DecodeReplication(g: GetReply): Read<ReplicationInfo> {
    match g
    case Nil => Absent
    case GetWrongType => Corrupt
    case Value(t) =>
      if t == Plain("") then Absent else if t.ReplicationText? then Parsed(t.replication) else Corrupt
  }

  /** `getPublisherInfo`: the GET itself may throw, but a text that does not
      parse is caught and reads as null. */
  function DecodePublisher(g: GetReply): Read<PublisherInfo> {
    match g
    case Nil => Absent
    case GetWrongType => Corrupt
    case Value(t) => if t.PublisherText? then Parsed(t.publisher) else Absent
  }

  /** `getStageViewerCount`: SCARD of the viewer set, 0 when the command fails. */
  function ViewerCount(ks: KeySpace, prefix: string, stageArn: string, now: int): nat {
    match ks.SCard(Prefixed(prefix, ViewerSetKey(stageArn)), now)
    case Ok(n) => n
    case WrongType => 0
  }

  lemma ViewerCountIsCardinality(ks: KeySpace, prefix: string, stageArn: string, now: int)
    ensures var k := Prefixed(prefix, ViewerSetKey(stageArn));
      ViewerCount(ks, prefix, stageArn, now) == if ks.TypeOf(k, now) == StringType then 0 else |ks.Members(k)|
  {
  }

  // ---------------------------------------------------------------------
  // getActiveStages and getTotalViewerCount

  /** What `getActiveStages` may return: each non-empty suffix of a key that
      starts with `{prefix}viewers:`, once each, in the store's key order. */
  ghost predicate ActiveStageList(ks: KeySpace, prefix: string, now: int, stages: seq<string>) {
    NoDups(stages) &&
    forall a :: a in stages <==> a != "" && Prefixed(prefix, ViewerCounterKey(a)) in ks.LiveKeys(now)
  }

  /** The map/filter of `getActiveStages`: strip the leading prefix from each
      matched key (`key.replace(prefix, '')` replaces its first occurrence,
      which is at the start) and drop empty results. */
  function StagesFromKeys(keys: seq<string>, p: string): (r: seq<string>)
    requires forall k :: k in keys ==> StartsWith(k, p)
    ensures forall a :: a in r <==> a != "" && p + a in keys
    ensures NoDups(keys) ==> NoDups(r)
  {
    if keys == [] then []
    else
      var rest := StagesFromKeys(keys[1..], p);
      assert keys[0] in keys;
      assert StartsWith(keys[0], p);
      var a := keys[0][|p|..];
      assert keys[0] == p + a;
      assert forall b :: p + b in keys <==> p + b == keys[0] || p + b in keys[1..];
      assert NoDups(keys) ==> NoDups(keys[1..]) && keys[0] !in keys[1..];
      if a == "" then rest else [a] + rest
  }

  /** Sum of the per-stage viewer counts over a list of stages. */
  function SumCounts(ks: KeySpace, prefix: string, stages: seq<string>, now: int): nat {
    if stages == [] then 0
    else SumCounts(ks, prefix, stages[..|stages| - 1], now) + ViewerCount(ks, prefix, stages[|stages| - 1], now)
  }

  /** A stage count of zero everywhere makes the total zero. */
  lemma {:induction false} SumCountsZero(ks: KeySpace, prefix: string, stages: seq<string>, now: int)
    requires forall i :: 0 <= i < |stages| ==> ViewerCount(ks, prefix, stages[i], now) == 0
    ensures SumCounts(ks, prefix, stages, now) == 0
  {
    if stages != [] {
      SumCountsZero(ks, prefix, stages[..|stages| - 1], now);
    }
  }

  /** The total is at least any one listed stage's count. */
  lemma {:induction false} SumCountsBound(ks: KeySpace, prefix: string, stages: seq<string>, now: int, i: nat)
    requires i < |stages|
    ensures ViewerCount(ks, prefix, stages[i], now) <= SumCounts(ks, prefix, stages, now)
  {
    if i < |stages| - 1 {
      SumCountsBound(ks, prefix, stages[..|stages| - 1], now, i);
    }
  }

  /** The scan of `getActiveStages` looks at `viewers:{arn}` keys, which the
      current code never writes; the viewer sets live under `stage:{arn}:viewers`.
      So once the old counters are gone the active-stage list is empty and the
      total viewer count is 0, whatever the viewer sets hold. */
  lemma CounterKeyShape(prefix: string, a: string)
    ensures StartsWith(Prefixed(prefix, ViewerCounterKey(a)), prefix + "viewers:")
  {
    var k := Prefixed(prefix, ViewerCounterKey(a));
    assert k == (prefix + "viewers:") + a;
    assert k[..|prefix + "viewers:"|] == prefix + "viewers:";
  }

  lemma NoCountersNoActiveStages(ks: KeySpace, prefix: string, now: int, stages: seq<string>)
    requires forall k :: k in ks.LiveKeys(now) ==> !StartsWith(k, prefix + "viewers:")
    requires ActiveStageList(ks, prefix, now, stages)
    ensures stages == [] && SumCounts(ks, prefix, stages, now) == 0
  {
    if stages != [] {
      CounterKeyShape(prefix, stages[0]);
    }
  }

  // ---------------------------------------------------------------------
  // cleanupInvalidKeys

  datatype CleanupReason = Keep | Deprecated | WrongTypeKey | EmptySet

  /** The rules of `cleanupInvalidKeys`, first match wins. */
  function CleanupRule(shortKey: string, t: KeyType, card: nat): (r: CleanupReason)
    ensures r == Deprecated <==> t == StringType && (StartsWith(shortKey, "viewers:") || shortKey == TOTAL_VIEWERS)
    ensures r == WrongTypeKey <==>
      t != SetType && Contains(shortKey, ":viewers") && !(t == StringType && (StartsWith(shortKey, "viewers:") || shortKey == TOTAL_VIEWERS))
    ensures r == EmptySet <==> t == SetType && Contains(shortKey, ":viewers") && card == 0
  {
    if StartsWith(shortKey, "viewers:") && t == StringType then Deprecated
    else if shortKey == TOTAL_VIEWERS && t == StringType then Deprecated
    else if Contains(shortKey, ":viewers") && t != SetType then WrongTypeKey
    else if t == SetType && Contains(shortKey, ":viewers") && card == 0 then EmptySet
    else Keep
  }

  /** The keys `KEYS {prefix}*` lists (the prefix taken literally). */
  function PrefixScan(ks: KeySpace, prefix: string, now: int): set<string> {
    set k | k in ks.LiveKeys(now) && StartsWith(k, prefix)
  }

  /** The rule a scanned key falls under (keys outside the prefix are never scanned). */
  function ReasonAt(ks: KeySpace, prefix: string, k: string, now: int): CleanupReason {
    if StartsWith(k, prefix) then CleanupRule(k[|prefix|..], ks.TypeOf(k, now), |ks.Members(k)|) else Keep
  }

  /** The keys of s that fall under `why`. */
  function WithReason(ks: KeySpace, prefix: string, now: int, s: set<string>, why: CleanupReason): set<string> {
    set k | k in s && ReasonAt(ks, prefix, k, now) == why
  }

  /** The keys of s that some rule deletes. */
  function Doomed(ks: KeySpace, prefix: string, now: int, s: set<string>): set<string> {
    set k | k in s && ReasonAt(ks, prefix, k, now) != Keep
  }

  lemma DoomedAdd(ks: KeySpace, prefix: string, now: int, s: set<string>, k: string)
    ensures Doomed(ks, prefix, now, s + {k})
         == Doomed(ks, prefix, now, s) + (if ReasonAt(ks, prefix, k, now) != Keep then {k} else {})
  {
  }

  lemma WithReasonAdd(ks: KeySpace, prefix: string, now: int, s: set<string>, k: string, why: CleanupReason)
    requires k !in s
    ensures |WithReason(ks, prefix, now, s + {k}, why)|
         == |WithReason(ks, prefix, now, s, why)| + (if ReasonAt(ks, prefix, k, now) == why then 1 else 0)
  {
    var before := WithReason(ks, prefix, now, s, why);
    if ReasonAt(ks, prefix, k, now) == why {
      assert WithReason(ks, prefix, now, s + {k}, why) == before + {k};
    } else {
      assert WithReason(ks, prefix, now, s + {k}, why) == before;
    }
  }

  lemma NotSeenYet(keys: seq<string>, i: nat)
    requires NoDups(keys) && i < |keys|
    ensures keys[i] !in keys[..i]
  {
  }

  /** Deleting other keys does not change what a key holds. */
  lemma DelAllOutside(ks: KeySpace, d: set<string>, k: string, now: int)
    requires k !in d
    ensures ks.DelAll(d).TypeOf(k, now) == ks.TypeOf(k, now)
    ensures ks.DelAll(d).Members(k) == ks.Members(k)
  {
  }

  lemma DelAllAdd(ks: KeySpace, d: set<string>, k: string)
    ensures ks.DelAll(d).Del(k) == ks.DelAll(d + {k})
  {
    assert ks.strings - d - {k} == ks.strings - (d + {k});
    assert ks.sets - d - {k} == ks.sets - (d + {k});
  }

  /** One iteration of the cleanup loop, on the key space as left by the
      keys already handled. */
  lemma CleanupStep(ks0: KeySpace, prefix: string, now: int, seen: set<string>, k: string)
    requires k !in seen
    ensures var d := Doomed(ks0, prefix, now, seen);
      (if ReasonAt(ks0, prefix, k, now) != Keep then ks0.DelAll(d).Del(k) else ks0.DelAll(d))
        == ks0.DelAll(Doomed(ks0, prefix, now, seen + {k}))
  {
    var d := Doomed(ks0, prefix, now, seen);
    DoomedAdd(ks0, prefix, now, seen, k);
    DelAllAdd(ks0, d, k);
  }

  /** Deleting other keys does not change the rule a key falls under. */
  lemma ReasonOutside(ks: KeySpace, prefix: string, d: set<string>, k: string, now: int)
    requires k !in d
    ensures ReasonAt(ks.DelAll(d), prefix, k, now) == ReasonAt(ks, prefix, k, now)
  {
    DelAllOutside(ks, d, k, now);
  }

  /** One iteration of the cleanup loop, for its counters. */
  lemma TallyStep(ks0: KeySpace, prefix: string, now: int, seen: set<string>, k: string)
    requires k !in seen
    ensures Tally(ks0, prefix, now, seen + {k}) == Counted(Tally(ks0, prefix, now, seen), ReasonAt(ks0, prefix, k, now))
  {
    WithReasonAdd(ks0, prefix, now, seen, k, Deprecated);
    WithReasonAdd(ks0, prefix, now, seen, k, WrongTypeKey);
    WithReasonAdd(ks0, prefix, now, seen, k, EmptySet);
  }

  /** The loop of `cleanupInvalidKeys` over the keys `KEYS {prefix}*` lists,
      on the key space as a value: delete each key some rule matches and
      count why. */
  method CleanupPass(ks0: KeySpace, prefix: string, now: int) returns (store: KeySpace, stats: CleanupStats)
    ensures store == AfterCleanup(ks0, prefix, now)
    ensures stats == Tally(ks0, prefix, now, PrefixScan(ks0, prefix, now))
  {
    store := ks0;
    ghost var scan := PrefixScan(ks0, prefix, now);
    var todo := set k | k in store.LiveKeys(now) && StartsWith(k, prefix);
    stats := CleanupStats(0, 0, 0, 0);
    ghost var seen: set<string> := {};
    CleanupStart(ks0, prefix, now);
    while todo != {}
      invariant todo <= scan && seen !! todo && seen + todo == scan
      invariant store == ks0.DelAll(Doomed(ks0, prefix, now, seen))
      invariant stats == Tally(ks0, prefix, now, seen)
      decreases |todo|
    {
      var k :| k in todo;
      ReasonOutside(ks0, prefix, Doomed(ks0, prefix, now, seen), k, now);
      CleanupStep(ks0, prefix, now, seen, k);
      TallyStep(ks0, prefix, now, seen, k);
      MoveOne(seen, todo, k);
      var why := ReasonAt(store, prefix, k, now);
      if why != Keep {
        store := store.Del(k);
      }
      stats := Counted(stats, why);
      seen := seen + {k};
      todo := todo - {k};
    }
    assert seen == scan;
  }

  /** Before the first key nothing is deleted and nothing counted. */
  lemma CleanupStart(ks0: KeySpace, prefix: string, now: int)
    ensures ks0.DelAll(Doomed(ks0, prefix, now, {})) == ks0
    ensures Tally(ks0, prefix, now, {}) == CleanupStats(0, 0, 0, 0)
  {
    assert Doomed(ks0, prefix, now, {}) == {};
    assert ks0.strings - {} == ks0.strings;
    assert ks0.sets - {} == ks0.sets;
    assert WithReason(ks0, prefix, now, {}, Deprecated) == {};
    assert WithReason(ks0, prefix, now, {}, WrongTypeKey) == {};
    assert WithReason(ks0, prefix, now, {}, EmptySet) == {};
  }


  function CleanupDoomed(ks: KeySpace, prefix: string, now: int): set<string> {
    Doomed(ks, prefix, now, PrefixScan(ks, prefix, now))
  }

  function CountReason(ks: KeySpace, prefix: string, now: int, why: CleanupReason): nat {
    |WithReason(ks, prefix, now, PrefixScan(ks, prefix, now), why)|
  }

  /** The key space after a cleanup pass. */
  function AfterCleanup(ks: KeySpace, prefix: string, now: int): (r: KeySpace)
    ensures ks.Valid() ==> r.Valid()
  {
    ks.DelAll(CleanupDoomed(ks, prefix, now))
  }

  datatype CleanupStats = CleanupStats(cleaned: nat, deprecated: nat, wrongType: nat, emptySet: nat)

  /** The counts a pass reports after handling the keys of s. */
  function Tally(ks: KeySpace, prefix: string, now: int, s: set<string>): (r: CleanupStats)
    ensures r.cleaned == r.deprecated + r.wrongType + r.emptySet
  {
    var d := |WithReason(ks, prefix, now, s, Deprecated)|;
    var w := |WithReason(ks, prefix, now, s, WrongTypeKey)|;
    var e := |WithReason(ks, prefix, now, s, EmptySet)|;
    CleanupStats(d + w + e, d, w, e)
  }

  /** The counters after one more key: a deleted key counts once in the total
      and once under its reason. */
  function Counted(st: CleanupStats, why: CleanupReason): CleanupStats {
    match why
    case Keep => st
    case Deprecated => st.(cleaned := st.cleaned + 1, deprecated := st.deprecated + 1)
    case WrongTypeKey => st.(cleaned := st.cleaned + 1, wrongType := st.wrongType + 1)
    case EmptySet => st.(cleaned := st.cleaned + 1, emptySet := st.emptySet + 1)
  }

  /** Every non-empty viewer set survives a cleanup, and so does every key
      outside the prefix. */
  lemma CleanupKeepsViewerSets(ks: KeySpace, prefix: string, now: int, k: string)
    requires k in ks.sets && ks.sets[k] != {}
    ensures k in AfterCleanup(ks, prefix, now).sets
    ensures AfterCleanup(ks, prefix, now).Members(k) == ks.Members(k)
  {
    if StartsWith(k, prefix) {
      assert ReasonAt(ks, prefix, k, now) == Keep;
    }
  }

  /** After a cleanup no deprecated counter and no wrongly typed viewer key is left. */
  lemma CleanupLeavesNoCounters(ks: KeySpace, prefix: string, now: int, k: string)
    requires k in AfterCleanup(ks, prefix, now).LiveKeys(now) && StartsWith(k, prefix)
    ensures var after := AfterCleanup(ks, prefix, now);
      after.TypeOf(k, now) == StringType ==>
        !StartsWith(k[|prefix|..], "viewers:") && k[|prefix|..] != TOTAL_VIEWERS && !Contains(k[|prefix|..], ":viewers")
  {
    var after := AfterCleanup(ks, prefix, now);
    assert k !in CleanupDoomed(ks, prefix, now);
    assert after.TypeOf(k, now) == ks.TypeOf(k, now);
  }

  /** A second pass finds nothing to delete. */
  lemma {:induction false} CleanupIdempotent(ks: KeySpace, prefix: string, now: int)
    ensures CleanupDoomed(AfterCleanup(ks, prefix, now), prefix, now) == {}
  {
    var after := AfterCleanup(ks, prefix, now);
    var d := CleanupDoomed(ks, prefix, now);
    forall k | k in PrefixScan(after, prefix, now)
      ensures ReasonAt(after, prefix, k, now) == Keep
    {
      assert k !in d;
      assert after.TypeOf(k, now) == ks.TypeOf(k, now);
      assert after.Members(k) == ks.Members(k);
      assert k in PrefixScan(ks, prefix, now);
    }
  }

  /** On a store that keeps no empty sets the empty-set rule never fires. */
  lemma NoEmptySetsCleaned(ks: KeySpace, prefix: string, now: int)
    requires ks.Valid()
    ensures CountReason(ks, prefix, now, EmptySet) == 0
  {
    forall k | k in PrefixScan(ks, prefix, now)
      ensures ReasonAt(ks, prefix, k, now) != EmptySet
    {
      if ks.TypeOf(k, now) == SetType {
        assert |ks.Members(k)| > 0;
      }
    }
    assert WithReason(ks, prefix, now, PrefixScan(ks, prefix, now), EmptySet) == {};
  }

  // ---------------------------------------------------------------------
  // The service object

  datatype AddResult = AddResult(isNew: bool, count: nat)
  datatype RemoveResult = RemoveResult(removed: bool, count: nat)

  class RedisService {
    /** REDIS_KEY_PREFIX, "ivs:prod:" by default. */
    const prefix: string
    var ks: KeySpace

    ghost predicate Valid() reads this { ks.Valid() }

    constructor (prefix: string, ks: KeySpace)
      requires ks.Valid()
      ensures this.prefix == prefix && this.ks == ks && Valid()
    {
      this.prefix := prefix;
      this.ks := ks;
    }

    function Key(key: string): (r: string)
      ensures StartsWith(r, prefix) && r[|prefix|..] == key
    {
      Prefixed(prefix, key)
    }

    /** `get` */
    method Get(key: string, now: int) returns (g: GetReply)
      ensures g == ks.Get(Key(key), now)
    {
      g := ks.Get(Key(key), now);
    }

    /** `set`: SETEX when ttl is non-zero, SET otherwise. */
    method Set(key: string, t: Text, ttl: nat, now: int)
      requires Valid()
      modifies this
      ensures Valid() && ks == old(ks).SetText(Key(key), t, ttl, now)
    {
      ks := ks.SetText(Key(key), t, ttl, now);
    }

    /** `del` */
    method Del(key: string)
      requires Valid()
      modifies this
      ensures Valid() && ks == old(ks).Del(Key(key))
    {
      ks := ks.Del(Key(key));
    }

    /** `sadd`; returns false when the command throws WRONGTYPE. */
    method SAdd(key: string, member: string, now: int) returns (ok: bool)
      requires Valid()
      modifies this
      ensures Valid()
      ensures ok <==> old(ks).TypeOf(Key(key), now) != StringType
      ensures ks == if ok then old(ks).SAdd(Key(key), member, now).value else old(ks)
    {
      var r := ks.SAdd(Key(key), member, now);
      ok := r.Ok?;
      if ok {
        ks := r.value;
      }
    }

    /** `srem`; returns false when the command throws WRONGTYPE. */
    method SRem(key: string, member: string, now: int) returns (ok: bool)
      requires Valid()
      modifies this
      ensures Valid()
      ensures ok <==> old(ks).TypeOf(Key(key), now) != StringType
      ensures ks == if ok then old(ks).SRem(Key(key), member, now).value else old(ks)
    {
      var r := ks.SRem(Key(key), member, now);
      ok := r.Ok?;
      if ok {
        ks := r.value;
      }
    }

    /** `smembers`, listed in the store's order. */
    method SMembers(key: string, now: int) returns (r: Reply<seq<string>>)
      ensures r.WrongType? <==> ks.TypeOf(Key(key), now) == StringType
      ensures r.Ok? ==> NoDups(r.value) && forall u :: u in r.value <==> u in ks.Members(Key(key))
      ensures r.Ok? ==> |r.value| == |ks.Members(Key(key))|
    {
      match ks.SMembers(Key(key), now)
      case WrongType => r := WrongType;
      case Ok(m) =>
        var list := Enumerate(m);
        r := Ok(list);
    }

    /** `addViewerToStage`: SADD then SCARD on `stage:{arn}:viewers`. */
    method AddViewerToStage(userId: string, stageArn: string, now: int) returns (r: Reply<AddResult>)
      requires Valid()
      modifies this
      ensures Valid()
      ensures var k := Key(ViewerSetKey(stageArn));
        && (r.WrongType? <==> old(ks).TypeOf(k, now) == StringType)
        && (r.WrongType? ==> ks == old(ks))
        && (r.Ok? ==> ks == old(ks).SAdd(k, userId, now).value
                      && r.value.isNew == (userId !in old(ks).Members(k))
                      && r.value.count == |ks.Members(k)|)
    {
      var k := Key(ViewerSetKey(stageArn));
      var before := ks.Members(k);
      var added := SAdd(ViewerSetKey(stageArn), userId, now);
      if !added {
        r := WrongType;
      } else {
        var count := ViewerCountOf(k, now);
        r := Ok(AddResult(userId !in before, count));
      }
    }

    /** SCARD on a key known to hold no string. */
    method ViewerCountOf(k: string, now: int) returns (n: nat)
      requires ks.TypeOf(k, now) != StringType
      ensures n == |ks.Members(k)|
    {
      n := ks.SCard(k, now).value;
    }

    /** `removeViewerFromStage`: SREM then SCARD. */
    method RemoveViewerFromStage(userId: string, stageArn: string, now: int) returns (r: Reply<RemoveResult>)
      requires Valid()
      modifies this
      ensures Valid()
      ensures var k := Key(ViewerSetKey(stageArn));
        && (r.WrongType? <==> old(ks).TypeOf(k, now) == StringType)
        && (r.WrongType? ==> ks == old(ks))
        && (r.Ok? ==> ks == old(ks).SRem(k, userId, now).value
                      && r.value.removed == (userId in old(ks).Members(k))
                      && r.value.count == |ks.Members(k)|)
    {
      var k := Key(ViewerSetKey(stageArn));
      var before := ks.Members(k);
      var removed := SRem(ViewerSetKey(stageArn), userId, now);
      if !removed {
        r := WrongType;
      } else {
        assert ks.TypeOf(k, now) != StringType;
        var count := ViewerCountOf(k, now);
        r := Ok(RemoveResult(userId in before, count));
      }
    }

    /** `getStageViewerCount` */
    method GetStageViewerCount(stageArn: string, now: int) returns (n: nat)
      ensures n == ViewerCount(ks, prefix, stageArn, now)
      ensures ks.TypeOf(Key(ViewerSetKey(stageArn)), now) != StringType ==> n == |ks.Members(Key(ViewerSetKey(stageArn)))|
    {
      match ks.SCard(Key(ViewerSetKey(stageArn)), now)
      case Ok(c) => n := c;
      case WrongType => n := 0;
    }

    /** `incrementViewerCount` / `decrementViewerCount`: kept for callers of the
        old counter API; they change nothing and report the current count. */
    method DeprecatedCounterCall(stageId: Option<string>, now: int) returns (n: nat)
      ensures !Present(stageId) ==> n == 0
      ensures Present(stageId) ==> n == ViewerCount(ks, prefix, stageId.value, now)
    {
      if !Present(stageId) {
        n := 0;
      } else {
        n := GetStageViewerCount(stageId.value, now);
      }
    }

    /** `getActiveStages` */
    method GetActiveStages(now: int) returns (stages: seq<string>)
      ensures ActiveStageList(ks, prefix, now, stages)
    {
      var p := Key("viewers:");
      var keys := Enumerate(set k | k in ks.LiveKeys(now) && StartsWith(k, p));
      stages := StagesFromKeys(keys, p);
      forall a
        ensures a in stages <==> a != "" && Prefixed(prefix, ViewerCounterKey(a)) in ks.LiveKeys(now)
      {
        CounterKeyShape(prefix, a);
        assert Prefixed(prefix, ViewerCounterKey(a)) == p + a;
      }
    }

    /** `getTotalViewerCount`: the per-stage counts summed over the active-stage list. */
    method GetTotalViewerCount(now: int) returns (total: nat, ghost stages: seq<string>)
      ensures ActiveStageList(ks, prefix, now, stages)
      ensures total == SumCounts(ks, prefix, stages, now)
    {
      var list := GetActiveStages(now);
      stages := list;
      total := 0;
      var i := 0;
      while i < |list|
        invariant 0 <= i <= |list|
        invariant total == SumCounts(ks, prefix, list[..i], now)
      {
        var c := GetStageViewerCount(list[i], now);
        assert list[..i + 1][..i] == list[..i];
        total := total + c;
        i := i + 1;
      }
      assert list[..i] == list;
    }

    /** `setStageInfo` (one hour TTL). */
    method SetStageInfo(stageId: string, info: StageInfo, now: int)
      requires Valid()
      modifies this
      ensures Valid() && ks == old(ks).SetText(Key(StageInfoKey(stageId)), StageInfoText(info), STAGE_INFO_TTL, now)
    {
      Set(StageInfoKey(stageId), StageInfoText(info), STAGE_INFO_TTL, now);
    }

    /** `getStageInfo`; Corrupt stands for the throw of JSON.parse or GET. */
    method GetStageInfo(stageId: string, now: int) returns (r: Read<StageInfo>)
      ensures r == DecodeStageInfo(ks.Get(Key(StageInfoKey(stageId)), now))
    {
      var g := Get(StageInfoKey(stageId), now);
      r := DecodeStageInfo(g);
    }

    /** `setPublisherStatus` */
    method SetPublisherStatus(isLive: bool, now: int)
      requires Valid()
      modifies this
      ensures Valid()
      ensures ks == old(ks).SetText(Key(PUBLISHER_STATUS), Plain(if isLive then "live" else "offline"), PUBLISHER_TTL, now)
    {
      Set(PUBLISHER_STATUS, Plain(if isLive then "live" else "offline"), PUBLISHER_TTL, now);
    }

    /** `getPublisherStatus`; WrongType when GET throws. */
    method GetPublisherStatus(now: int) returns (r: Reply<bool>)
      ensures r == PublisherLive(ks.Get(Key(PUBLISHER_STATUS), now))
    {
      var g := Get(PUBLISHER_STATUS, now);
      r := PublisherLive(g);
    }

    /** `setPublisherInfo` */
    method SetPublisherInfo(participantId: string, stageArn: string, userId: string, now: int)
      requires Valid()
      modifies this
      ensures Valid()
      ensures ks == old(ks).SetText(Key(PUBLISHER_INFO),
        PublisherText(PublisherInfo(participantId, stageArn, userId, now)), PUBLISHER_TTL, now)
    {
      Set(PUBLISHER_INFO, PublisherText(PublisherInfo(participantId, stageArn, userId, now)), PUBLISHER_TTL, now);
    }

    /** `getPublisherInfo` */
    method GetPublisherInfo(now: int) returns (r: Read<PublisherInfo>)
      ensures r == DecodePublisher(ks.Get(Key(PUBLISHER_INFO), now))
    {
      var g := Get(PUBLISHER_INFO, now);
      r := DecodePublisher(g);
    }

    /** `clearPublisherInfo` */
    method ClearPublisherInfo()
      requires Valid()
      modifies this
      ensures Valid() && ks == old(ks).Del(Key(PUBLISHER_INFO))
    {
      Del(PUBLISHER_INFO);
    }

    /** `setReplicationStatus`: keyed by the destination stage. */
    method SetReplicationStatus(sourceStageArn: string, destStageArn: string, participantId: string, now: int)
      requires Valid()
      modifies this
      ensures Valid()
      ensures ks == old(ks).SetText(Key(ReplicationKey(destStageArn)),
        ReplicationText(ReplicationInfo(sourceStageArn, destStageArn, participantId, now)), REPLICATION_TTL, now)
    {
      Set(ReplicationKey(destStageArn),
        ReplicationText(ReplicationInfo(sourceStageArn, destStageArn, participantId, now)), REPLICATION_TTL, now);
    }

    /** `getReplicationStatus` */
    method GetReplicationStatus(destStageArn: string, now: int) returns (r: Read<ReplicationInfo>)
      ensures r == DecodeReplication(ks.Get(Key(ReplicationKey(destStageArn)), now))
    {
      var g := Get(ReplicationKey(destStageArn), now);
      r := DecodeReplication(g);
    }

    /** `clearReplicationStatus` */
    method ClearReplicationStatus(destStageArn: string)
      requires Valid()
      modifies this
      ensures Valid() && ks == old(ks).Del(Key(ReplicationKey(destStageArn)))
    {
      Del(ReplicationKey(destStageArn));
    }

    /** `cleanupInvalidKeys`: one pass over `KEYS {prefix}*`, deleting every
        key that some rule matches and counting why. */
    method CleanupInvalidKeys(now: int) returns (stats: CleanupStats)
      requires Valid()
      modifies this
      ensures Valid()
      ensures ks == AfterCleanup(old(ks), prefix, now)
      ensures stats.deprecated == CountReason(old(ks), prefix, now, Deprecated)
      ensures stats.wrongType == CountReason(old(ks), prefix, now, WrongTypeKey)
      ensures stats.emptySet == CountReason(old(ks), prefix, now, EmptySet)
      ensures stats.cleaned == stats.deprecated + stats.wrongType + stats.emptySet
    {
      var p := Key("");
      assert p == prefix;
      var store;
      store, stats := CleanupPass(ks, p, now);
      ks := store;
    }
  }

  /** `getPublisherStatus`: live exactly when the text is "live". */
  function PublisherLive(g: GetReply): Reply<bool> {
    match g
    case GetWrongType => WrongType
    case Nil => Ok(false)
    case Value(t) => Ok(t == Plain("live"))
  }

  // ---------------------------------------------------------------------
  // Properties of the presence set and the records

  /** Adding a user twice: the second SADD adds nothing and changes nothing. */
  lemma AddTwice(ks: KeySpace, k: string, u: string, now: int)
    requires ks.TypeOf(k, now) != StringType
    ensures ks.SAdd(k, u, now).Ok?
    ensures var once := ks.SAdd(k, u, now).value;
      u in once.Members(k) && once.SAdd(k, u, now) == Ok(once)
  {
    var once := ks.SAdd(k, u, now).value;
    assert once.Members(k) + {u} == once.Members(k);
    assert once.strings - {k} == once.strings;
    assert once.sets[k := once.Members(k) + {u}] == once.sets;
  }

  /** SADD of a new member then SREM of it gives back the original key space
      (when no string, live or expired, sits at the key). */
  lemma AddThenRemoveRestores(ks: KeySpace, k: string, u: string, now: int)
    requires ks.Valid() && k !in ks.strings && u !in ks.Members(k)
    ensures ks.SAdd(k, u, now).Ok?
    ensures var added := ks.SAdd(k, u, now).value;
      added.SRem(k, u, now) == Ok(ks)
  {
    var added := ks.SAdd(k, u, now).value;
    assert added.strings == ks.strings;
    if k in ks.sets {
      assert ks.sets[k] - {u} == ks.sets[k];
      assert added.sets[k := ks.sets[k]] == ks.sets;
    } else {
      assert added.sets - {k} == ks.sets;
    }
  }

  /** Stage info written at `now` reads back through the last millisecond of
      its hour and as null after it, so scale-down stops seeing it as
      auto-scaled. */
  lemma StageInfoExpires(ks: KeySpace, prefix: string, id: string, info: StageInfo, now: int, later: int)
    requires now <= later
    ensures var after := ks.SetText(Prefixed(prefix, StageInfoKey(id)), StageInfoText(info), STAGE_INFO_TTL, now);
      DecodeStageInfo(after.Get(Prefixed(prefix, StageInfoKey(id)), later))
        == if later <= now + STAGE_INFO_TTL * 1000 then Parsed(info) else Absent
  {
  }

  /** Replication records are keyed by destination: set-then-get gives the
      record back within its TTL, clear-then-get gives null. */
  lemma ReplicationRoundTrip(ks: KeySpace, prefix: string, src: string, dest: string, pid: string, now: int, later: int)
    requires now <= later <= now + REPLICATION_TTL * 1000
    ensures var k := Prefixed(prefix, ReplicationKey(dest));
      var r := DecodeReplication(ks.SetText(k, ReplicationText(ReplicationInfo(src, dest, pid, now)), REPLICATION_TTL, now).Get(k, later));
      r.Parsed? && r.value.sourceStageArn == src && r.value.destStageArn == dest && r.value.participantId == pid
    ensures DecodeReplication(ks.Del(Prefixed(prefix, ReplicationKey(dest))).Get(Prefixed(prefix, ReplicationKey(dest)), later)) == Absent
  {
  }

  /** Replication records of different destinations do not interfere. */
  lemma ReplicationKeysDistinct(prefix: string, a: string, b: string)
    requires a != b
    ensures Prefixed(prefix, ReplicationKey(a)) != Prefixed(prefix, ReplicationKey(b))
  {
    assert Prefixed(prefix, ReplicationKey(a))[|prefix| + 12..] == a;
    assert Prefixed(prefix, ReplicationKey(b))[|prefix| + 12..] == b;
  }

  /** `getPublisherInfo` yields null for missing data and for text that is
      not a publisher record, and the stored record otherwise. */
  lemma PublisherInfoRead(g: GetReply)
    ensures DecodePublisher(g).Corrupt? <==> g.GetWrongType?
    ensures DecodePublisher(g).Parsed? <==> g.Value? && g.text.PublisherText?
  {
  }

  /** Publisher status: set-then-get within a day reads back the same flag. */
  lemma PublisherStatusRoundTrip(ks: KeySpace, prefix: string, isLive: bool, now: int, later: int)
    requires now <= later <= now + PUBLISHER_TTL * 1000
    ensures var k := Prefixed(prefix, PUBLISHER_STATUS);
      PublisherLive(ks.SetText(k, Plain(if isLive then "live" else "offline"), PUBLISHER_TTL, now).Get(k, later)) == Ok(isLive)
  {
  }
}
