/** The viewer-counting migration script
    (api-server/scripts/migrate-viewer-counting.ts). It scans every key under
    the prefix and sorts it into old counters, viewer sets, viewer sessions
    and the rest; checks each viewer set against the sessions of its members;
    deletes the old counters; and reports the active stages and the total
    viewer count as the service computes them. The whole run happens at one
    instant `now`; the console output is not modelled. */
module Migration {
  import opened Common
  import opened RedisService
  import IvsService
  import ViewerHeartbeat

  // ---------------------------------------------------------------------
  // Classifying a key

  datatype KeyClass = OldCounter | ViewerSet | ViewerSession | Other

  /** A deprecated counter: `total_viewers`, or a `viewers:` key, as a string. */
  predicate IsOldCounter(shortKey: string, t: KeyType) {
    t == StringType && (shortKey == TOTAL_VIEWERS || StartsWith(shortKey, "viewers:"))
  }

  /** The classification of step 1, first matching rule wins. Each class is
      characterised on its own, so the rules never overlap and their order
      does not matter. */
  function ClassOf(shortKey: string, t: KeyType): (c: KeyClass)
    ensures c == OldCounter <==> IsOldCounter(shortKey, t)
    ensures c == ViewerSet <==> t == SetType && Contains(shortKey, ":viewers")
    ensures c == ViewerSession <==> t == StringType && StartsWith(shortKey, "viewer:")
    ensures c == Other <==>
      !IsOldCounter(shortKey, t) && !(t == SetType && Contains(shortKey, ":viewers"))
      && !(t == StringType && StartsWith(shortKey, "viewer:"))
  {
    SessionNotCounter(shortKey);
    if shortKey == TOTAL_VIEWERS && t == StringType then OldCounter
    else if StartsWith(shortKey, "viewers:") && t == StringType then OldCounter
    else if Contains(shortKey, ":viewers") && t == SetType then ViewerSet
    else if StartsWith(shortKey, "viewer:") && t == StringType then ViewerSession
    else Other
  }

  /** A `viewer:` key is never `total_viewers` nor a `viewers:` key. */
  lemma SessionNotCounter(s: string)
    ensures StartsWith(s, "viewer:") ==> s != TOTAL_VIEWERS && !StartsWith(s, "viewers:")
  {
    if StartsWith(s, "viewer:") {
      assert s[0] == 'v' && s[6] == ':';
      assert TOTAL_VIEWERS[0] == 't';
      assert |s| >= 8 ==> s[..8][6] == ':' != "viewers:"[6];
    }
  }

  /** The keys the services write fall into the class meant for them: the
      stage viewer set, a viewer session, an old counter, and the stage
      record (which the script leaves alone). */
  lemma ClassifiesWrites(u: string, arn: string, id: string)
    ensures ClassOf(ViewerSetKey(arn), SetType) == ViewerSet
    ensures ClassOf(ViewerHeartbeat.ViewerKey(u, arn), StringType) == ViewerSession
    ensures ClassOf(ViewerCounterKey(id), StringType) == OldCounter
    ensures ClassOf(TOTAL_VIEWERS, StringType) == OldCounter
    ensures ClassOf(StageInfoKey(id), StringType) == Other
  {
    ContainsInfix("stage:" + arn, ":viewers", "");
    assert ViewerSetKey(arn) == "stage:" + arn + ":viewers" + "";
    var v := ViewerHeartbeat.ViewerKey(u, arn);
    assert v[..7] == "viewer:";
    var c := ViewerCounterKey(id);
    assert c[..8] == "viewers:";
    var s := StageInfoKey(id);
    assert s[0] == 's';
    assert !StartsWith(s, "viewer:") && !StartsWith(s, "viewers:") && s != TOTAL_VIEWERS;
  }

  /** The old-counter class is exactly the rule under which the service's
      own cleanup deletes a key as deprecated. */
  lemma OldCounterIsDeprecated(shortKey: string, t: KeyType, card: nat)
    ensures ClassOf(shortKey, t) == OldCounter <==> CleanupRule(shortKey, t, card) == Deprecated
  {
  }

  /** `key.replace(prefix, '')` on a scanned key: every scanned key starts
      with the prefix, so its first occurrence is the leading one. */
  function Unprefixed(prefix: string, k: string): (r: string)
    ensures StartsWith(k, prefix) ==> k == prefix + r
  {
    if StartsWith(k, prefix) then k[|prefix|..] else k
  }

  /** The class of a scanned key, from its unprefixed name and its TYPE. */
  function ClassAt(ks: KeySpace, prefix: string, k: string, now: int): KeyClass {
    if StartsWith(k, prefix) then ClassOf(Unprefixed(prefix, k), ks.TypeOf(k, now)) else Other
  }

  /** The four lists of step 1. */
  datatype KeyStats = KeyStats(oldCounters: seq<string>, viewerSets: seq<string>,
                               viewerSessions: seq<string>, others: seq<string>)
  {
    function Bucket(c: KeyClass): seq<string> {
      match c
      case OldCounter => oldCounters
      case ViewerSet => viewerSets
      case ViewerSession => viewerSessions
      case Other => others
    }

    function Total(): nat {
      |oldCounters| + |viewerSets| + |viewerSessions| + |others|
    }

    /** Pushes k onto the list of class c. */
    function Push(c: KeyClass, k: string): (r: KeyStats)
      ensures r.Bucket(c) == Bucket(c) + [k]
      ensures forall d :: d != c ==> r.Bucket(d) == Bucket(d)
      ensures r.Total() == Total() + 1
    {
      match c
      case OldCounter => this.(oldCounters := oldCounters + [k])
      case ViewerSet => this.(viewerSets := viewerSets + [k])
      case ViewerSession => this.(viewerSessions := viewerSessions + [k])
      case Other => this.(others := others + [k])
    }
  }

  /** Each list holds, once each, exactly the keys of `keys` in its class. */
  ghost predicate Sorted(ks: KeySpace, prefix: string, now: int, keys: set<string>, stats: KeyStats) {
    forall c :: NoDups(stats.Bucket(c)) &&
      forall k :: k in stats.Bucket(c) <==> k in keys && ClassAt(ks, prefix, k, now) == c
  }

  /** The outcome of step 1: every scanned key lands in exactly one list. */
  ghost predicate Classified(ks: KeySpace, prefix: string, now: int, stats: KeyStats) {
    Sorted(ks, prefix, now, PrefixScan(ks, prefix, now), stats)
    && stats.Total() == |PrefixScan(ks, prefix, now)|
  }

  /** Before the first key every list is empty. */
  lemma SortedStart(ks: KeySpace, prefix: string, now: int)
    ensures Sorted(ks, prefix, now, {}, KeyStats([], [], [], []))
  {
  }

  /** Pushing a key not seen before onto the list of its class. */
  lemma SortedStep(ks: KeySpace, prefix: string, now: int, seen: set<string>, key: string, stats: KeyStats)
    requires key !in seen
    requires Sorted(ks, prefix, now, seen, stats)
    ensures Sorted(ks, prefix, now, seen + {key}, stats.Push(ClassAt(ks, prefix, key, now), key))
  {
    var c := ClassAt(ks, prefix, key, now);
    var next := stats.Push(c, key);
    assert key !in stats.Bucket(c);
    forall d
      ensures NoDups(next.Bucket(d))
      ensures forall k :: k in next.Bucket(d) <==> k in seen + {key} && ClassAt(ks, prefix, k, now) == d
    {
    }
  }

  // ---------------------------------------------------------------------
  // extractStageArnFromKey

  /** The fixed text before the region in
      /stage:(arn:aws:ivs:[^:]+:[^:]+:[^:]+\/[^:]+):viewers/. */
  const MATCH_LEAD := "stage:" + IvsService.ARN_PREFIX

  /** `[^:]+\/[^:]+` on a colon-free segment: a '/' with text on both sides. */
  predicate SlashInside(s: string) {
    exists j :: 1 <= j < |s| - 1 && s[j] == '/'
  }

  /** The capture of a match of the pattern starting at index i, if one
      starts there. Every `[^:]+` stops only at a ':', so each group is a
      whole ':'-separated field: region, account, and a field with an inner
      '/', which ":viewers" must follow. */
  function MatchAt(key: string, i: nat): Option<string>
    requires i <= |key|
  {
    if !StartsWith(key[i..], MATCH_LEAD) then None
    else
      var parts := Split(key[i + |MATCH_LEAD|..]);
      if |parts| >= 4 && parts[0] != "" && parts[1] != "" && SlashInside(parts[2])
         && StartsWith(parts[3], "viewers")
      then Some(IvsService.ARN_PREFIX + parts[0] + ":" + parts[1] + ":" + parts[2])
      else None
  }

  /** The leftmost match at or after i. */
  function FirstMatch(key: string, i: nat): Option<string>
    requires i <= |key|
    decreases |key| - i
  {
    if MatchAt(key, i).Some? then MatchAt(key, i)
    else if i == |key| then None
    else FirstMatch(key, i + 1)
  }

  /** `extractStageArnFromKey`: the captured ARN, or "" when nothing matches. */
  function ExtractStageArn(key: string): string {
    match FirstMatch(key, 0)
    case Some(a) => a
    case None => ""
  }

  lemma {:induction false} JoinStartsWith(parts: seq<string>)
    requires |parts| >= 1
    ensures StartsWith(Join(parts), parts[0])
  {
    if |parts| > 1 {
      var j := Join(parts);
      assert j == parts[0] + (":" + Join(parts[1..]));
      assert j[..|parts[0]|] == parts[0];
    }
  }

  /** The first three fields of a split, with a fourth that starts with
      "viewers", rejoined. */
  function Fields(parts: seq<string>): string
    requires |parts| >= 3
  {
    parts[0] + ":" + parts[1] + ":" + parts[2] + ":" + "viewers"
  }

  lemma PrefixAppend(a: string, y: string, x: string)
    requires StartsWith(y, x)
    ensures StartsWith(a + y, a + x)
  {
    assert (a + y)[..|a + x|] == a + y[..|x|];
  }

  lemma JoinFields(parts: seq<string>)
    requires |parts| >= 4 && StartsWith(parts[3], "viewers")
    ensures StartsWith(Join(parts), Fields(parts))
  {
    var tail := Join(parts[3..]);
    JoinStartsWith(parts[3..]);
    assert parts[3..][0] == parts[3];
    assert StartsWith(tail, "viewers") by {
      assert tail[..7] == parts[3][..7];
    }
    assert parts[2..][1..] == parts[3..];
    var j2 := Join(parts[2..]);
    assert j2 == parts[2] + ":" + tail;
    PrefixAppend(parts[2] + ":", tail, "viewers");
    assert parts[1..][1..] == parts[2..];
    var j1 := Join(parts[1..]);
    assert j1 == parts[1] + ":" + j2;
    PrefixAppend(parts[1] + ":", j2, parts[2] + ":" + "viewers");
    assert Join(parts) == parts[0] + ":" + j1;
    PrefixAppend(parts[0] + ":", j1, parts[1] + ":" + (parts[2] + ":" + "viewers"));
    FieldsNested(parts[0], parts[1], parts[2]);
  }

  /** The fields string, regrouped to the right. */
  lemma FieldsNested(a: string, b: string, c: string)
    ensures Fields([a, b, c]) == a + ":" + (b + ":" + (c + ":" + "viewers"))
  {
  }

  /** A match at i sits in the key as "stage:" + capture + ":viewers". */
  lemma LeadFields(f: string)
    ensures "stage:" + (IvsService.ARN_PREFIX + f) + ":viewers" == MATCH_LEAD + (f + ":" + "viewers")
  {
  }

  lemma MatchAtSound(key: string, i: nat)
    requires i <= |key| && MatchAt(key, i).Some?
    ensures var t := "stage:" + MatchAt(key, i).value + ":viewers";
      i + |t| <= |key| && key[i..i + |t|] == t
  {
    var rest := key[i + |MATCH_LEAD|..];
    var parts := Split(rest);
    JoinSplit(rest);
    JoinFields(parts);
    var f := parts[0] + ":" + parts[1] + ":" + parts[2];
    var x := Fields(parts);
    assert x == f + ":" + "viewers";
    var t := "stage:" + MatchAt(key, i).value + ":viewers";
    PrefixGroup(IvsService.ARN_PREFIX, parts[0], parts[1], parts[2]);
    LeadFields(f);
    Unslice(key, i, MATCH_LEAD);
    PrefixAppend(MATCH_LEAD, rest, x);
    SliceOfSlice(key, i, |t|);
  }

  /** The ARN prefix glued to three fields, regrouped. */
  lemma PrefixGroup(p: string, a: string, b: string, c: string)
    ensures p + a + ":" + b + ":" + c == p + (a + ":" + b + ":" + c)
  {
  }

  /** A suffix of key that starts with lead is lead followed by the rest. */
  lemma Unslice(key: string, i: nat, lead: string)
    requires i <= |key| && StartsWith(key[i..], lead)
    ensures key[i..] == lead + key[i + |lead|..]
  {
  }

  lemma SliceOfSlice(key: string, i: nat, n: nat)
    requires i + n <= |key|
    ensures key[i..i + n] == key[i..][..n]
  {
  }

  lemma {:induction false} FirstMatchSound(key: string, i: nat)
    requires i <= |key| && FirstMatch(key, i).Some?
    ensures Contains(key, "stage:" + FirstMatch(key, i).value + ":viewers")
    decreases |key| - i
  {
    if MatchAt(key, i).Some? {
      MatchAtSound(key, i);
      ContainsAt(key, "stage:" + FirstMatch(key, i).value + ":viewers", i);
    } else {
      FirstMatchSound(key, i + 1);
    }
  }

  /** A non-empty result is an ARN the key holds between "stage:" and ":viewers". */
  lemma ExtractSound(key: string)
    ensures var a := ExtractStageArn(key);
      a != "" ==> StartsWith(a, IvsService.ARN_PREFIX) && Contains(key, "stage:" + a + ":viewers")
  {
    if FirstMatch(key, 0).Some? {
      FirstMatchSound(key, 0);
      FirstMatchPrefix(key, 0);
    }
  }

  lemma {:induction false} FirstMatchPrefix(key: string, i: nat)
    requires i <= |key| && FirstMatch(key, i).Some?
    ensures StartsWith(FirstMatch(key, i).value, IvsService.ARN_PREFIX)
    decreases |key| - i
  {
    if MatchAt(key, i).Some? {
      var a := MatchAt(key, i).value;
      assert a[..|IvsService.ARN_PREFIX|] == IvsService.ARN_PREFIX;
    } else {
      FirstMatchPrefix(key, i + 1);
    }
  }

  /** A key made of the lead and four colon-free fields of the right shape
      matches at its start. */
  lemma MatchAtStart(key: string, parts: seq<string>)
    requires |parts| == 4 && forall i :: 0 <= i < 4 ==> ColonFree(parts[i])
    requires parts[0] != "" && parts[1] != "" && SlashInside(parts[2]) && parts[3] == "viewers"
    requires key == MATCH_LEAD + Join(parts)
    ensures MatchAt(key, 0) == Some(IvsService.ARN_PREFIX + parts[0] + ":" + parts[1] + ":" + parts[2])
  {
    SplitJoin(parts);
    assert key[0..] == key;
    assert key[..|MATCH_LEAD|] == MATCH_LEAD;
    assert key[0 + |MATCH_LEAD|..] == Join(parts);
    assert StartsWith(parts[3], "viewers");
  }

  lemma JoinFour(a: string, b: string, c: string, d: string)
    ensures Join([a, b, c, d]) == a + ":" + b + ":" + c + ":" + d
  {
    var parts := [a, b, c, d];
    assert parts[1..] == [b, c, d] && parts[1..][1..] == [c, d] && parts[1..][1..][1..] == [d];
    assert Join([c, d]) == c + ":" + d;
    assert Join([b, c, d]) == b + ":" + (c + ":" + d);
    assert Join(parts) == a + ":" + (b + ":" + (c + ":" + d));
  }

  /** The viewer set key of an ARN, laid out as the lead and four fields. */
  lemma ViewerSetKeyFields(p: IvsService.ArnParts)
    requires IvsService.WellFormed(p)
    ensures var parts := [p.region, p.accountId, "stage/" + p.stageId, "viewers"];
      (forall i :: 0 <= i < 4 ==> ColonFree(parts[i]))
      && ViewerSetKey(IvsService.BuildStageArn(p)) == MATCH_LEAD + Join(parts)
  {
    var s := "stage/" + p.stageId;
    IvsService.StageSegmentColonFree(p.stageId);
    assert ColonFree(p.region) && ColonFree(p.accountId) && ColonFree("viewers");
    JoinFour(p.region, p.accountId, s, "viewers");
    var fields := p.region + ":" + p.accountId + ":" + s;
    assert IvsService.BuildStageArn(p) == IvsService.ARN_PREFIX + fields;
    assert ViewerSetKey(IvsService.BuildStageArn(p)) == MATCH_LEAD + (fields + ":" + "viewers");
  }

  /** The viewer set key of any well-formed stage ARN yields that ARN back. */
  lemma ExtractViewerSetKey(p: IvsService.ArnParts)
    requires IvsService.WellFormed(p)
    ensures ExtractStageArn(ViewerSetKey(IvsService.BuildStageArn(p))) == IvsService.BuildStageArn(p)
  {
    var s := "stage/" + p.stageId;
    var parts := [p.region, p.accountId, s, "viewers"];
    ViewerSetKeyFields(p);
    assert s[5] == '/' && 1 <= 5 < |s| - 1;
    MatchAtStart(ViewerSetKey(IvsService.BuildStageArn(p)), parts);
    assert IvsService.BuildStageArn(p) == IvsService.ARN_PREFIX + p.region + ":" + p.accountId + ":" + s;
  }

  // ---------------------------------------------------------------------
  // Step 2: each viewer set against its members' sessions

  /** The key the check looks up: `{prefix}viewer:{userId}:{stageArn}`, the
      heartbeat service's session key. */
  function SessionKeyOf(prefix: string, u: string, arn: string): string {
    Prefixed(prefix, ViewerHeartbeat.ViewerKey(u, arn))
  }

  /** The members whose session key exists (EXISTS). */
  function WithSession(ks: KeySpace, prefix: string, members: set<string>, arn: string, now: int): set<string> {
    set u | u in members && ks.TypeOf(SessionKeyOf(prefix, u, arn), now) != NoneType
  }

  lemma WithSessionAdd(ks: KeySpace, prefix: string, seen: set<string>, u: string, arn: string, now: int)
    requires u !in seen
    ensures |WithSession(ks, prefix, seen + {u}, arn, now)| ==
      |WithSession(ks, prefix, seen, arn, now)| + (if ks.TypeOf(SessionKeyOf(prefix, u, arn), now) != NoneType then 1 else 0)
  {
    var before := WithSession(ks, prefix, seen, arn, now);
    if ks.TypeOf(SessionKeyOf(prefix, u, arn), now) != NoneType {
      assert WithSession(ks, prefix, seen + {u}, arn, now) == before + {u};
    } else {
      assert WithSession(ks, prefix, seen + {u}, arn, now) == before;
    }
  }

  /** What the check finds for one set: its size and how many of its
      members have a session. */
  datatype SetCheck = SetCheck(setKey: string, setCount: nat, sessionCount: nat) {
    predicate Consistent() { setCount == sessionCount }
  }

  /** The check of a scanned set key: the ARN is extracted from the
      unprefixed key and each member's session is looked up under it. */
  function CheckOf(ks: KeySpace, prefix: string, setKey: string, now: int): SetCheck {
    var m := ks.Members(setKey);
    SetCheck(setKey, |m|, |WithSession(ks, prefix, m, ExtractStageArn(Unprefixed(prefix, setKey)), now)|)
  }

  /** One more check, for the next set, keeps the checks in step with the sets. */
  lemma ChecksSnoc(ks: KeySpace, prefix: string, sets: seq<string>, now: int, checks: seq<SetCheck>, c: SetCheck)
    requires |checks| < |sets|
    requires forall j :: 0 <= j < |checks| ==> checks[j] == CheckOf(ks, prefix, sets[j], now)
    requires c == CheckOf(ks, prefix, sets[|checks|], now)
    ensures forall j :: 0 <= j < |checks| + 1 ==> (checks + [c])[j] == CheckOf(ks, prefix, sets[j], now)
  {
  }

  /** The session count never exceeds the set size, and the two agree
      exactly when every member has a session. */
  lemma CheckMeaning(ks: KeySpace, prefix: string, setKey: string, now: int)
    ensures CheckOf(ks, prefix, setKey, now).sessionCount <= CheckOf(ks, prefix, setKey, now).setCount
    ensures CheckOf(ks, prefix, setKey, now).Consistent() <==>
      forall u :: u in ks.Members(setKey) ==>
        ks.TypeOf(SessionKeyOf(prefix, u, ExtractStageArn(Unprefixed(prefix, setKey))), now) != NoneType
  {
    var m := ks.Members(setKey);
    var arn := ExtractStageArn(Unprefixed(prefix, setKey));
    var w := WithSession(ks, prefix, m, arn, now);
    SubsetSize(w, m);
    if |w| == |m| {
      SubsetSameSize(w, m);
    }
    if forall u :: u in m ==> ks.TypeOf(SessionKeyOf(prefix, u, arn), now) != NoneType {
      assert w == m;
    }
  }

  /** For the viewer set of a well-formed stage ARN, the check looks up
      exactly the sessions the heartbeat service writes for that stage. */
  lemma HeartbeatSetChecked(ks: KeySpace, prefix: string, p: IvsService.ArnParts, now: int)
    requires IvsService.WellFormed(p)
    ensures var arn := IvsService.BuildStageArn(p);
      var setKey := Prefixed(prefix, ViewerSetKey(arn));
      CheckOf(ks, prefix, setKey, now).Consistent() <==>
        forall u :: u in ks.Members(setKey) ==>
          ks.TypeOf(Prefixed(prefix, ViewerHeartbeat.ViewerKey(u, arn)), now) != NoneType
  {
    var arn := IvsService.BuildStageArn(p);
    var setKey := Prefixed(prefix, ViewerSetKey(arn));
    ExtractViewerSetKey(p);
    assert Unprefixed(prefix, setKey) == ViewerSetKey(arn);
    CheckMeaning(ks, prefix, setKey, now);
  }

  // ---------------------------------------------------------------------
  // Step 3: deleting the old counters

  /** The scanned keys classified as old counters. */
  function OldCountersOf(ks: KeySpace, prefix: string, now: int): set<string> {
    set k | k in PrefixScan(ks, prefix, now) && ClassAt(ks, prefix, k, now) == OldCounter
  }

  /** The key space the migration leaves. */
  function AfterMigration(ks: KeySpace, prefix: string, now: int): (r: KeySpace)
    ensures ks.Valid() ==> r.Valid()
  {
    ks.DelAll(OldCountersOf(ks, prefix, now))
  }

  /** The migration deletes exactly what the service's cleanup deletes as
      deprecated. */
  lemma OldCountersAreDeprecated(ks: KeySpace, prefix: string, now: int)
    ensures OldCountersOf(ks, prefix, now) == WithReason(ks, prefix, now, PrefixScan(ks, prefix, now), Deprecated)
  {
    forall k | k in PrefixScan(ks, prefix, now)
      ensures ClassAt(ks, prefix, k, now) == OldCounter <==> ReasonAt(ks, prefix, k, now) == Deprecated
    {
      OldCounterIsDeprecated(Unprefixed(prefix, k), ks.TypeOf(k, now), |ks.Members(k)|);
    }
  }

  /** Every key that is not an old counter keeps its type, value and members:
      in particular every viewer set and every session. */
  lemma MigrationKeepsOthers(ks: KeySpace, prefix: string, now: int, k: string)
    requires ClassAt(ks, prefix, k, now) != OldCounter
    ensures AfterMigration(ks, prefix, now).TypeOf(k, now) == ks.TypeOf(k, now)
    ensures AfterMigration(ks, prefix, now).Get(k, now) == ks.Get(k, now)
    ensures AfterMigration(ks, prefix, now).Members(k) == ks.Members(k)
  {
    assert k !in OldCountersOf(ks, prefix, now);
    DelAllOutside(ks, OldCountersOf(ks, prefix, now), k, now);
  }

  /** A second run finds no old counter. */
  lemma MigrationIdempotent(ks: KeySpace, prefix: string, now: int)
    ensures OldCountersOf(AfterMigration(ks, prefix, now), prefix, now) == {}
  {
    var after := AfterMigration(ks, prefix, now);
    forall k | k in PrefixScan(after, prefix, now)
      ensures ClassAt(after, prefix, k, now) != OldCounter
    {
      assert k !in OldCountersOf(ks, prefix, now);
      DelAllOutside(ks, OldCountersOf(ks, prefix, now), k, now);
    }
  }

  lemma StartsWithConcat(k: string, p: string, q: string)
    ensures StartsWith(k, p + q) ==> StartsWith(k, p) && StartsWith(Unprefixed(p, k), q)
  {
    if StartsWith(k, p + q) {
      assert k[..|p|] == (p + q)[..|p|] == p;
      assert k[|p|..][..|q|] == k[..|p + q|][|p|..] == q;
    }
  }

  /** A key left after the migration is no `viewers:` key, unless it holds a set. */
  lemma NoCounterLeft(ks: KeySpace, prefix: string, now: int, k: string)
    requires k in AfterMigration(ks, prefix, now).LiveKeys(now) && k !in ks.sets
    ensures !StartsWith(k, prefix + "viewers:")
  {
    var d := OldCountersOf(ks, prefix, now);
    assert k !in d;
    DelAllOutside(ks, d, k, now);
    StartsWithConcat(k, prefix, "viewers:");
    assert StartsWith(k, prefix + "viewers:") ==> ClassAt(ks, prefix, k, now) == OldCounter;
  }

  /** Step 4 lists active stages by their `viewers:` keys, which step 3 has
      just deleted: unless some `viewers:` key holds a set, it reports no
      active stage and a total of 0, whatever the viewer sets hold. */
  lemma MigrationEmptiesActiveStages(ks: KeySpace, prefix: string, now: int, stages: seq<string>)
    requires forall k :: k in ks.sets ==> !StartsWith(k, prefix + "viewers:")
    requires ActiveStageList(AfterMigration(ks, prefix, now), prefix, now, stages)
    ensures stages == [] && SumCounts(AfterMigration(ks, prefix, now), prefix, stages, now) == 0
  {
    var after := AfterMigration(ks, prefix, now);
    forall k | k in after.LiveKeys(now)
      ensures !StartsWith(k, prefix + "viewers:")
    {
      if k !in ks.sets {
        NoCounterLeft(ks, prefix, now, k);
      }
    }
    NoCountersNoActiveStages(after, prefix, now, stages);
  }

  /** Every key step 1 files as a viewer set holds a set, so the SMEMBERS of
      step 2, issued at the same instant, never fails. */
  lemma ViewerSetsAreSets(ks: KeySpace, prefix: string, now: int, stats: KeyStats, k: string)
    requires Classified(ks, prefix, now, stats)
    requires k in stats.viewerSets
    ensures StartsWith(k, prefix) && ks.TypeOf(k, now) == SetType
  {
    assert k in stats.Bucket(ViewerSet);
  }

  // ---------------------------------------------------------------------
  // The script

  datatype MigrationReport = MigrationReport(stats: KeyStats, checks: seq<SetCheck>,
                                             activeStages: seq<string>, totalViewers: nat)

  class Migrator {
    const redis: RedisService

    constructor (redis: RedisService)
      ensures this.redis == redis
    {
      this.redis := redis;
    }

    /** Step 1: KEYS {prefix}*, then TYPE of each key and its class. */
    method Scan(now: int) returns (stats: KeyStats)
      ensures Classified(redis.ks, redis.prefix, now, stats)
    {
      ghost var ks := redis.ks;
      ghost var scan := PrefixScan(ks, redis.prefix, now);
      var todo := set k | k in redis.ks.LiveKeys(now) && StartsWith(k, redis.prefix);
      stats := KeyStats([], [], [], []);
      ghost var seen: set<string> := {};
      SortedStart(ks, redis.prefix, now);
      while todo != {}
        invariant todo <= scan && seen !! todo && seen + todo == scan
        invariant stats.Total() == |seen|
        invariant Sorted(ks, redis.prefix, now, seen, stats)
        decreases |todo|
      {
        var key :| key in todo;
        var shortKey := Unprefixed(redis.prefix, key);
        var c := ClassOf(shortKey, redis.ks.TypeOf(key, now));
        SortedStep(ks, redis.prefix, now, seen, key, stats);
        MoveOne(seen, todo, key);
        stats := stats.Push(c, key);
        seen := seen + {key};
        todo := todo - {key};
      }
      assert seen == scan;
    }

    /** Step 2 for one set: SMEMBERS, then one EXISTS per member; None when
        SMEMBERS fails (the script then aborts). */
    method CheckSet(setKey: string, now: int) returns (r: Option<SetCheck>)
      ensures r.None? <==> redis.ks.TypeOf(setKey, now) == StringType
      ensures r.Some? ==> r.value == CheckOf(redis.ks, redis.prefix, setKey, now)
    {
      match redis.ks.SMembers(setKey, now)
      case WrongType =>
        r := None;
      case Ok(m) =>
        var members := Enumerate(m);
        var arn := ExtractStageArn(Unprefixed(redis.prefix, setKey));
        var count := 0;
        ghost var seen: set<string> := {};
        var j := 0;
        while j < |members|
          invariant 0 <= j <= |members|
          invariant forall u :: u in seen <==> u in members[..j]
          invariant count == |WithSession(redis.ks, redis.prefix, seen, arn, now)|
        {
          var u := members[j];
          NotSeenYet(members, j);
          WithSessionAdd(redis.ks, redis.prefix, seen, u, arn, now);
          if redis.ks.TypeOf(SessionKeyOf(redis.prefix, u, arn), now) != NoneType {
            count := count + 1;
          }
          seen := seen + {u};
          assert members[..j + 1] == members[..j] + [u];
          j := j + 1;
        }
        assert members[..j] == members;
        assert seen == m;
        r := Some(SetCheck(setKey, |members|, count));
    }

    /** Step 2: every viewer set in turn; None as soon as one fails. */
    method CheckConsistency(viewerSets: seq<string>, now: int) returns (r: Option<seq<SetCheck>>)
      ensures r.None? <==> exists k :: k in viewerSets && redis.ks.TypeOf(k, now) == StringType
      ensures r.Some? ==> |r.value| == |viewerSets|
      ensures r.Some? ==>
        forall i :: 0 <= i < |viewerSets| ==> r.value[i] == CheckOf(redis.ks, redis.prefix, viewerSets[i], now)
    {
      ghost var ks := redis.ks;
      var checks := [];
      var i := 0;
      while i < |viewerSets|
        invariant 0 <= i <= |viewerSets|
        invariant forall j :: 0 <= j < i ==> ks.TypeOf(viewerSets[j], now) != StringType
        invariant |checks| == i
        invariant forall j :: 0 <= j < i ==> checks[j] == CheckOf(ks, redis.prefix, viewerSets[j], now)
      {
        var c := CheckSet(viewerSets[i], now);
        if c.None? {
          assert viewerSets[i] in viewerSets;
          return None;
        }
        ChecksSnoc(ks, redis.prefix, viewerSets, now, checks, c.value);
        checks := checks + [c.value];
        i := i + 1;
      }
      r := Some(checks);
    }

    /** Step 3: DEL of each old counter (full keys, on the raw client). */
    method DeleteOldCounters(oldCounters: seq<string>)
      requires redis.Valid()
      modifies redis
      ensures redis.Valid()
      ensures redis.ks == old(redis.ks).DelAll(set k | k in oldCounters)
    {
      ghost var ks0 := redis.ks;
      ghost var deleted: set<string> := {};
      var i := 0;
      while i < |oldCounters|
        invariant 0 <= i <= |oldCounters|
        invariant forall k :: k in deleted <==> k in oldCounters[..i]
        invariant redis.ks == ks0.DelAll(deleted)
        invariant redis.Valid()
      {
        DelAllAdd(ks0, deleted, oldCounters[i]);
        redis.ks := redis.ks.Del(oldCounters[i]);
        deleted := deleted + {oldCounters[i]};
        assert oldCounters[..i + 1] == oldCounters[..i] + [oldCounters[i]];
        i := i + 1;
      }
      assert oldCounters[..i] == oldCounters;
      assert deleted == set k | k in oldCounters;
    }

    /** Step 4: the active stages and the sum of their viewer counts. */
    method VerifyNewSystem(now: int) returns (stages: seq<string>, total: nat)
      ensures ActiveStageList(redis.ks, redis.prefix, now, stages)
      ensures total == SumCounts(redis.ks, redis.prefix, stages, now)
    {
      stages := redis.GetActiveStages(now);
      total := 0;
      var i := 0;
      while i < |stages|
        invariant 0 <= i <= |stages|
        invariant total == SumCounts(redis.ks, redis.prefix, stages[..i], now)
      {
        var count := redis.GetStageViewerCount(stages[i], now);
        assert stages[..i + 1][..i] == stages[..i];
        total := total + count;
        i := i + 1;
      }
      assert stages[..i] == stages;
    }

    /** The whole script. None is the abort of step 2, which leaves the
        store untouched (ViewerSetsAreSets shows it cannot happen when the
        run takes place at one instant). */
    method Migrate(now: int) returns (report: Option<MigrationReport>)
      requires redis.Valid()
      modifies redis
      ensures redis.Valid()
      ensures report.None? ==> redis.ks == old(redis.ks)
      ensures report.Some? ==>
        var r := report.value;
        && Classified(old(redis.ks), redis.prefix, now, r.stats)
        && |r.checks| == |r.stats.viewerSets|
        && (forall i :: 0 <= i < |r.checks| ==> r.checks[i] == CheckOf(old(redis.ks), redis.prefix, r.stats.viewerSets[i], now))
        && redis.ks == AfterMigration(old(redis.ks), redis.prefix, now)
        && ActiveStageList(redis.ks, redis.prefix, now, r.activeStages)
        && r.totalViewers == SumCounts(redis.ks, redis.prefix, r.activeStages, now)
    {
      ghost var ks0 := redis.ks;
      var stats := Scan(now);
      var checks := CheckConsistency(stats.viewerSets, now);
      if checks.None? {
        return None;
      }
      assert (set k | k in stats.oldCounters) == OldCountersOf(ks0, redis.prefix, now) by {
        assert forall k :: k in stats.Bucket(OldCounter) <==> k in OldCountersOf(ks0, redis.prefix, now);
      }
      DeleteOldCounters(stats.oldCounters);
      var stages, total := VerifyNewSystem(now);
      report := Some(MigrationReport(stats, checks.value, stages, total));
    }
  }
}
