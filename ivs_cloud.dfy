/** The Amazon IVS real-time control plane as the services see it: a list of
    stages and a set of running participant replications, changed by calls
    that may fail at any time. Which calls fail is not determined by the
    model; each failing call changes nothing. */
module IvsCloud {
  import opened Common
  import IvsService

  /** An entry of ListStages; the SDK types the ARN and name as optional. */
  datatype StageSummary = StageSummary(arn: Option<string>, name: Option<string>, tags: map<string, string>)

  datatype Replication = Replication(sourceStageArn: string, destStageArn: string, participantId: string)

  /** A thrown SDK error: its `name` (e.g. "ResourceNotFoundException") and
      its `message`, which may be missing. */
  datatype AwsError = AwsError(name: string, message: Option<string>)

  datatype Outcome<+T> = Done(value: T) | Failed(error: AwsError)

  /** A state-changing request sent to the control plane, whether or not it
      then succeeds. */
  datatype Request =
    | CreateReq(name: string, tags: map<string, string>)
    | DeleteReq(arn: string)
    | StartReq(replication: Replication)
    | StopReq(replication: Replication)

  /** The CreateStage requests among `rs`, in order. */
  function CreatesIn(rs: seq<Request>): seq<Request> {
    if rs == [] then [] else (if rs[0].CreateReq? then [rs[0]] else []) + CreatesIn(rs[1..])
  }

  /** The ARNs of the DeleteStage requests among `rs`, in order. */
  function DeletesIn(rs: seq<Request>): seq<string> {
    if rs == [] then [] else (if rs[0].DeleteReq? then [rs[0].arn] else []) + DeletesIn(rs[1..])
  }

  lemma {:induction false} CreatesAppend(a: seq<Request>, b: seq<Request>)
    ensures CreatesIn(a + b) == CreatesIn(a) + CreatesIn(b)
    decreases |a|
  {
    if a == [] {
      assert a + b == b;
    } else {
      var ab := a + b;
      assert ab[0] == a[0] && ab[1..] == a[1..] + b;
      CreatesAppend(a[1..], b);
      var head := if a[0].CreateReq? then [a[0]] else [];
      calc {
        CreatesIn(ab);
        head + CreatesIn(a[1..] + b);
        head + (CreatesIn(a[1..]) + CreatesIn(b));
        (head + CreatesIn(a[1..])) + CreatesIn(b);
      }
    }
  }

  lemma {:induction false} DeletesAppend(a: seq<Request>, b: seq<Request>)
    ensures DeletesIn(a + b) == DeletesIn(a) + DeletesIn(b)
    decreases |a|
  {
    if a == [] {
      assert a + b == b;
    } else {
      var ab := a + b;
      assert ab[0] == a[0] && ab[1..] == a[1..] + b;
      DeletesAppend(a[1..], b);
      var head := if a[0].DeleteReq? then [a[0].arn] else [];
      calc {
        DeletesIn(ab);
        head + DeletesIn(a[1..] + b);
        head + (DeletesIn(a[1..]) + DeletesIn(b));
        (head + DeletesIn(a[1..])) + DeletesIn(b);
      }
    }
  }

  /** Both filters distribute over a concatenation of request logs. */
  lemma RequestsAppend(a: seq<Request>, b: seq<Request>)
    ensures CreatesIn(a + b) == CreatesIn(a) + CreatesIn(b)
    ensures DeletesIn(a + b) == DeletesIn(a) + DeletesIn(b)
  {
    CreatesAppend(a, b);
    DeletesAppend(a, b);
  }

  /** The token part of a CreateParticipantToken response. */
  datatype Grant = Grant(token: string, participantId: string)

  const NOT_FOUND := "ResourceNotFoundException"

  /** The ARNs of the listed stages that have one. */
  function ArnSet(ss: seq<StageSummary>): set<string> {
    set i | 0 <= i < |ss| && ss[i].arn.Some? :: ss[i].arn.value
  }

  /** The ARNs of a list with one more entry in front. */
  lemma ArnSetCons(s: StageSummary, ss: seq<StageSummary>)
    ensures ArnSet([s] + ss) == ArnSet(ss) + (if s.arn.Some? then {s.arn.value} else {})
  {
    var t := [s] + ss;
    forall a | a in ArnSet(t) ensures a in ArnSet(ss) || s.arn == Some(a) {
      var i :| 0 <= i < |t| && t[i].arn.Some? && t[i].arn.value == a;
      if i > 0 {
        assert t[i] == ss[i - 1];
      }
    }
    forall a | a in ArnSet(ss) ensures a in ArnSet(t) {
      var i :| 0 <= i < |ss| && ss[i].arn.Some? && ss[i].arn.value == a;
      assert t[i + 1] == ss[i];
    }
    if s.arn.Some? {
      assert t[0] == s;
    }
  }

  /** Appending to a list keeps every ARN it had. */
  lemma ArnSetGrows(ss: seq<StageSummary>, more: seq<StageSummary>)
    ensures ArnSet(ss) <= ArnSet(ss + more)
  {
    forall a | a in ArnSet(ss) ensures a in ArnSet(ss + more) {
      var i :| 0 <= i < |ss| && ss[i].arn.Some? && ss[i].arn.value == a;
      assert (ss + more)[i] == ss[i];
    }
  }

  /** The listed stages whose ARN is not `arn`. */
  function Without(ss: seq<StageSummary>, arn: string): (r: seq<StageSummary>)
    ensures ArnSet(r) == ArnSet(ss) - {arn}
    ensures forall s :: s in r <==> s in ss && s.arn != Some(arn)
  {
    if ss == [] then []
    else
      var rest := Without(ss[1..], arn);
      assert ss == [ss[0]] + ss[1..];
      ArnSetCons(ss[0], ss[1..]);
      if ss[0].arn == Some(arn) then rest
      else
        ArnSetCons(ss[0], rest);
        [ss[0]] + rest
  }

  /** A length no listed ARN exceeds. */
  function LongestArn(ss: seq<StageSummary>): (n: nat)
    ensures forall a :: a in ArnSet(ss) ==> |a| <= n
  {
    if ss == [] then 0
    else
      var rest := LongestArn(ss[1..]);
      var here := if ss[0].arn.Some? then |ss[0].arn.value| else 0;
      assert ss == [ss[0]] + ss[1..];
      ArnSetCons(ss[0], ss[1..]);
      if here > rest then here else rest
  }

  function Repeat(c: char, n: nat): (r: string)
    ensures |r| == n && forall i :: 0 <= i < n ==> r[i] == c
  {
    if n == 0 then "" else [c] + Repeat(c, n - 1)
  }

  /** The ARN given to a new stage: a well-formed IVS stage ARN no listed
      stage has. */
  function FreshArn(ss: seq<StageSummary>): (a: string)
    ensures a !in ArnSet(ss)
    ensures IvsService.ValidateStageArn(a)
  {
    var id := Repeat('a', LongestArn(ss) + 1);
    DefaultArnValid(id);
    IvsService.BuildStageArn(IvsService.ArnParts(IvsService.DEFAULT_REGION, IvsService.DEFAULT_ACCOUNT, id))
  }

  /** A stage in the default region and account with an alphanumeric id has
      a valid ARN at least as long as the id. */
  lemma DefaultArnValid(id: string)
    requires IvsService.IsStageId(id)
    ensures var a := IvsService.BuildStageArn(IvsService.ArnParts(IvsService.DEFAULT_REGION, IvsService.DEFAULT_ACCOUNT, id));
      IvsService.ValidateStageArn(a) && |a| > |id|
  {
    var p := IvsService.ArnParts(IvsService.DEFAULT_REGION, IvsService.DEFAULT_ACCOUNT, id);
    assert IvsService.IsRegion(p.region) by {
      assert forall i :: 0 <= i < |p.region| ==> IvsService.RegionChar(p.region[i]);
    }
    assert IvsService.IsAccount(p.accountId) by {
      assert forall i :: 0 <= i < |p.accountId| ==> IvsService.DigitChar(p.accountId[i]);
    }
    IvsService.ParseBuild(p);
  }

  class Cloud {
    var stages: seq<StageSummary>
    var replications: set<Replication>
    /** How many stages CreateStage has made, for stating how many a caller creates. */
    ghost var created: nat
    /** Every state-changing request received, in order. */
    ghost var requests: seq<Request>

    constructor (stages: seq<StageSummary>)
      ensures this.stages == stages && replications == {} && created == 0 && requests == []
    {
      this.stages := stages;
      replications := {};
      created := 0;
      requests := [];
    }

    /** ListStages with `maxResults`: the first page of the list, or a failure. */
    method ListStages(maxResults: nat) returns (r: Outcome<seq<StageSummary>>)
      ensures r.Done? ==> r.value == stages[..if |stages| < maxResults then |stages| else maxResults]
    {
      if * {
        var e: AwsError := *;
        r := Failed(e);
      } else {
        r := Done(stages[..if |stages| < maxResults then |stages| else maxResults]);
      }
    }

    /** CreateStage: on success the new stage, with a fresh ARN, is appended.
        The SDK types the response's ARN as optional: `Done(None)` is a
        stage that was made but whose ARN the caller is not told. */
    method CreateStage(name: string, tags: map<string, string>) returns (r: Outcome<Option<string>>)
      modifies this
      ensures requests == old(requests) + [CreateReq(name, tags)]
      ensures replications == old(replications)
      ensures r.Done? ==> && |stages| == |old(stages)| + 1 && stages[..|old(stages)|] == old(stages)
                          && stages[|old(stages)|].name == Some(name) && stages[|old(stages)|].tags == tags
                          && stages[|old(stages)|].arn.Some?
                          && stages[|old(stages)|].arn.value !in ArnSet(old(stages))
                          && IvsService.ValidateStageArn(stages[|old(stages)|].arn.value)
                          && created == old(created) + 1
      ensures r.Done? && r.value.Some? ==> stages == old(stages) + [StageSummary(r.value, Some(name), tags)]
      ensures r.Failed? ==> stages == old(stages) && created == old(created)
    {
      requests := requests + [CreateReq(name, tags)];
      if * {
        var e: AwsError := *;
        r := Failed(e);
      } else {
        var arn := AddStage(name, tags);
        if * {
          r := Done(Some(arn));
        } else {
          r := Done(None);
        }
      }
    }

    /** The stage IVS makes: appended under a fresh, valid ARN. */
    method AddStage(name: string, tags: map<string, string>) returns (arn: string)
      modifies this
      ensures stages == old(stages) + [StageSummary(Some(arn), Some(name), tags)]
      ensures arn !in ArnSet(old(stages)) && IvsService.ValidateStageArn(arn)
      ensures created == old(created) + 1
      ensures replications == old(replications) && requests == old(requests)
    {
      arn := FreshArn(stages);
      stages := stages + [StageSummary(Some(arn), Some(name), tags)];
      created := created + 1;
    }

    /** DeleteStage: an unknown ARN fails with ResourceNotFoundException. */
    method DeleteStage(arn: string) returns (r: Outcome<()>)
      modifies this
      ensures requests == old(requests) + [DeleteReq(arn)]
      ensures replications == old(replications) && created == old(created)
      ensures r.Done? ==> arn in ArnSet(old(stages)) && stages == Without(old(stages), arn)
      ensures r.Failed? ==> stages == old(stages)
      ensures arn !in ArnSet(old(stages)) ==> r == Failed(AwsError(NOT_FOUND, None))
    {
      requests := requests + [DeleteReq(arn)];
      if arn !in ArnSet(stages) {
        r := Failed(AwsError(NOT_FOUND, None));
      } else if * {
        var e: AwsError := *;
        r := Failed(e);
      } else {
        stages := Without(stages, arn);
        r := Done(());
      }
    }

    /** StartParticipantReplication as sent by the SDK. */
    method StartReplication(source: string, dest: string, participantId: string) returns (r: Outcome<()>)
      modifies this
      ensures requests == old(requests) + [StartReq(Replication(source, dest, participantId))]
      ensures stages == old(stages) && created == old(created)
      ensures r.Done? ==> replications == old(replications) + {Replication(source, dest, participantId)}
      ensures r.Failed? ==> replications == old(replications)
    {
      requests := requests + [StartReq(Replication(source, dest, participantId))];
      if * {
        var e: AwsError := *;
        r := Failed(e);
      } else {
        replications := replications + {Replication(source, dest, participantId)};
        r := Done(());
      }
    }

    /** StopParticipantReplication as sent by the SDK. */
    method StopReplication(source: string, dest: string, participantId: string) returns (r: Outcome<()>)
      modifies this
      ensures requests == old(requests) + [StopReq(Replication(source, dest, participantId))]
      ensures stages == old(stages) && created == old(created)
      ensures r.Done? ==> replications == old(replications) - {Replication(source, dest, participantId)}
      ensures r.Failed? ==> replications == old(replications)
    {
      requests := requests + [StopReq(Replication(source, dest, participantId))];
      if * {
        var e: AwsError := *;
        r := Failed(e);
      } else {
        replications := replications - {Replication(source, dest, participantId)};
        r := Done(());
      }
    }

    /** CreateParticipantToken: the response may lack a token (token ""). */
    method CreateParticipantToken(options: IvsService.TokenOptions) returns (r: Outcome<Grant>)
    {
      if * {
        var e: AwsError := *;
        r := Failed(e);
      } else {
        var g: Grant := *;
        r := Done(g);
      }
    }
  }
}
