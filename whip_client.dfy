/** The media server's WHIP client (media-server/src/services/WHIPClient.ts).
    It is a stub: no WebRTC session is made, and its only state is the
    `connected` flag that connect and disconnect toggle and the publishing
    calls check. */
module WhipClient {
  import opened Common

  /** WHIP_CONFIG.ENDPOINT when WHIP_ENDPOINT is not set. */
  const DEFAULT_ENDPOINT := "https://global.whip.live-video.net"

  /** The error startPublishing throws before a connect. */
  const NOT_CONNECTED := "WHIP Client 未連接"

  // ---------------------------------------------------------------------
  // The connection flag as a state machine

  datatype Op = Connect | StartPublishing | StopPublishing | Disconnect

  /** The flag after one call. */
  function After(connected: bool, op: Op): bool {
    match op
    case Connect => true
    case Disconnect => false
    case _ => connected
  }

  /** Whether the call throws: only startPublishing, and only when not connected. */
  predicate Throws(connected: bool, op: Op) {
    op == StartPublishing && !connected
  }

  /** The flag after a run of calls (a throwing call changes nothing). */
  function Run(connected: bool, ops: seq<Op>): bool
    decreases |ops|
  {
    if ops == [] then connected else Run(After(connected, ops[0]), ops[1..])
  }

  /** The last connect or disconnect of a run, if any: true for a connect. */
  function LastToggle(ops: seq<Op>): Option<bool> {
    if ops == [] then None
    else
      var op := ops[|ops| - 1];
      if op == Connect then Some(true)
      else if op == Disconnect then Some(false)
      else LastToggle(ops[..|ops| - 1])
  }

  lemma {:induction false} RunSnoc(connected: bool, ops: seq<Op>, op: Op)
    ensures Run(connected, ops + [op]) == After(Run(connected, ops), op)
    decreases |ops|
  {
    if ops != [] {
      assert (ops + [op])[1..] == ops[1..] + [op];
      RunSnoc(After(connected, ops[0]), ops[1..], op);
    }
  }

  /** The flag after any run is set by the run's last connect or disconnect,
      and is the starting flag when there is none. */
  lemma {:induction false} RunLastToggle(connected: bool, ops: seq<Op>)
    ensures Run(connected, ops) == if LastToggle(ops).Some? then LastToggle(ops).value else connected
  {
    if ops != [] {
      var init := ops[..|ops| - 1];
      assert ops == init + [ops[|ops| - 1]];
      RunSnoc(connected, init, ops[|ops| - 1]);
      RunLastToggle(connected, init);
    }
  }

  /** startPublishing succeeds after a run exactly when the run's last toggle
      is a connect, or there is none and the client started connected. */
  lemma PublishAfterRun(connected: bool, ops: seq<Op>)
    ensures !Throws(Run(connected, ops), StartPublishing) <==>
      (LastToggle(ops) == Some(true) || (LastToggle(ops).None? && connected))
  {
    RunLastToggle(connected, ops);
  }

  /** Disconnect is idempotent, and a second connect changes nothing. */
  lemma TogglesIdempotent(connected: bool)
    ensures After(After(connected, Disconnect), Disconnect) == After(connected, Disconnect)
    ensures After(After(connected, Connect), Connect) == After(connected, Connect)
  {
  }

  // ---------------------------------------------------------------------
  // The client

  class WhipClient {
    const stageArn: string
    const token: string
    const endpoint: string
    var connected: bool

    /** `options.endpoint || WHIP_CONFIG.ENDPOINT`, where the latter is
        `WHIP_ENDPOINT || DEFAULT_ENDPOINT`. */
    constructor (stageArn: string, token: string, endpoint: Option<string>, whipEndpointEnv: Option<string>)
      ensures this.stageArn == stageArn && this.token == token && !connected
      ensures this.endpoint == if Present(endpoint) then endpoint.value
                               else if Present(whipEndpointEnv) then whipEndpointEnv.value
                               else DEFAULT_ENDPOINT
    {
      this.stageArn := stageArn;
      this.token := token;
      this.endpoint := if Present(endpoint) then endpoint.value
                       else if Present(whipEndpointEnv) then whipEndpointEnv.value
                       else DEFAULT_ENDPOINT;
      connected := false;
    }

    /** `connect`: marks the client connected. */
    method Connect()
      modifies this
      ensures connected == After(old(connected), Op.Connect)
    {
      connected := true;
    }

    /** `startPublishing`: the error it throws when not connected, else None. */
    method StartPublishing() returns (error: Option<string>)
      ensures error.Some? <==> Throws(connected, Op.StartPublishing)
      ensures error.Some? ==> error.value == NOT_CONNECTED
    {
      if !connected {
        return Some(NOT_CONNECTED);
      }
      error := None;
    }

    /** `stopPublishing`: never throws and changes nothing, connected or not
        (it modifies nothing and has no error result). */
    method StopPublishing()
    {
    }

    /** `disconnect`: stops publishing and clears the flag; nothing to do
        when already disconnected. */
    method Disconnect()
      modifies this
      ensures connected == After(old(connected), Op.Disconnect)
    {
      if !connected {
        return;
      }
      StopPublishing();
      connected := false;
    }

    method IsConnected() returns (b: bool)
      ensures b == connected
    {
      b := connected;
    }

    method GetStageArn() returns (a: string)
      ensures a == stageArn
    {
      a := stageArn;
    }
  }
}
