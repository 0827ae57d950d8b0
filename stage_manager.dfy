/** The media server's stage manager (media-server/src/services/StageManager.ts):
    a table of WHIP connections keyed by stage ARN, kept in step with the
    API server's list of active stages, and the publisher flag that decides
    whether a new connection starts publishing. */
module StageManager {
  import opened Common
  import WhipClient

  /** The lastError of a connection whose token could not be fetched. */
  const NO_TOKEN := "無法獲取 Stage Token"

  /** An entry of the table; a failed connect is recorded without a client. */
  datatype StageConnection = StageConnection(stageArn: string, client: WhipClient.WhipClient?, connected: bool,
                                             lastError: Option<string>, createdAt: int)

  /** The API server as the manager reaches it (APIClientService): both calls
      swallow their errors, the list into [] and the token into null. */
  class MediaApi {
    constructor () {}

    method GetActiveStages() returns (stages: seq<string>) {
      stages := *;
    }

    method GetStageToken(stageArn: string) returns (token: Option<string>) {
      token := *;
    }
  }

  /** The clients the table holds. */
  function ClientsOf(conns: map<string, StageConnection>): set<WhipClient.WhipClient?> {
    set k | k in conns && conns[k].client != null :: conns[k].client
  }

  /** The entry `connectToStage` records for a stage it had none for: a
      connected client with no error, or the failed entry when no token
      came back. */
  predicate NewEntry(e: StageConnection, stageArn: string, now: int) {
    && e.createdAt == now
    && (e.connected ==> e.lastError.None?)
    && (!e.connected ==> e == StageConnection(stageArn, null, false, Some(NO_TOKEN), now))
  }

  /** Every entry added since `before` is one `connectToStage` records. */
  ghost predicate NewSoFar(before: map<string, StageConnection>, conns: map<string, StageConnection>, now: int) {
    forall k :: k in conns && k !in before ==> NewEntry(conns[k], k, now)
  }

  /** One turn of the connect loop keeps NewSoFar: earlier entries stay, and
      at most the stage just connected is added, with a new entry. */
  lemma NewStep(before: map<string, StageConnection>, conns: map<string, StageConnection>,
                next: map<string, StageConnection>, stageArn: string, now: int)
    requires NewSoFar(before, conns, now)
    requires next.Keys == conns.Keys + {stageArn}
    requires forall k :: k in conns ==> next[k] == conns[k]
    requires stageArn !in conns ==> NewEntry(next[stageArn], stageArn, now)
    ensures NewSoFar(before, next, now)
  {
    forall k | k in next && k !in before
      ensures NewEntry(next[k], k, now)
    {
      if k in conns {
        assert NewEntry(conns[k], k, now);
      }
    }
  }

  /** The stages whose entry is connected. */
  function ActiveKeys(conns: map<string, StageConnection>): (r: set<string>)
    ensures r <= conns.Keys
    ensures forall k :: k in r <==> k in conns && conns[k].connected
  {
    set k | k in conns && conns[k].connected
  }

  /** No more stages are connected than are in the table. */
  lemma ActiveAtMostAll(conns: map<string, StageConnection>)
    ensures |ActiveKeys(conns)| <= |conns|
  {
    SubsetSize(ActiveKeys(conns), conns.Keys);
  }

  /** The connected entries among some keys of the table, counted one by one. */
  function CountConnected(conns: map<string, StageConnection>, keys: seq<string>): nat
    requires forall k :: k in keys ==> k in conns
  {
    if keys == [] then 0
    else
      var last := keys[|keys| - 1];
      CountConnected(conns, keys[..|keys| - 1]) + (if conns[last].connected then 1 else 0)
  }

  /** Counting over every key once gives the number of connected stages. */
  lemma {:induction false} CountConnectedIsActive(conns: map<string, StageConnection>, keys: seq<string>)
    requires NoDups(keys) && forall k :: k in keys ==> k in conns
    ensures CountConnected(conns, keys) == |set k | k in keys && conns[k].connected|
  {
    if keys != [] {
      var init, last := keys[..|keys| - 1], keys[|keys| - 1];
      assert keys == init + [last];
      assert NoDups(init) by {
        forall i, j | 0 <= i < j < |init| ensures init[i] != init[j] {
          assert init[i] == keys[i] && init[j] == keys[j];
        }
      }
      CountConnectedIsActive(conns, init);
      var before := set k | k in init && conns[k].connected;
      assert last !in init by {
        forall i | 0 <= i < |init| ensures init[i] != last {
          assert init[i] == keys[i];
        }
      }
      if conns[last].connected {
        assert (set k | k in keys && conns[k].connected) == before + {last};
      } else {
        assert (set k | k in keys && conns[k].connected) == before;
      }
    }
  }

  /** A pass over every key of the table counts its connected entries. */
  lemma CountedAll(conns: map<string, StageConnection>, keys: seq<string>)
    requires NoDups(keys) && forall k :: k in keys <==> k in conns
    ensures CountConnected(conns, keys) == |ActiveKeys(conns)| <= |conns|
  {
    CountConnectedIsActive(conns, keys);
    assert (set k | k in keys && conns[k].connected) == ActiveKeys(conns);
    ActiveAtMostAll(conns);
  }

  /** What getStats reports. */
  datatype Stats = Stats(publisherActive: bool, connectedStages: nat, activeConnections: nat)

  class Manager {
    var connections: map<string, StageConnection>
    var publisherActive: bool
    const api: MediaApi
    /** The WHIP_ENDPOINT setting new clients are built with. */
    const whipEndpointEnv: Option<string>

    /** Each entry is keyed by its stage, holds a client exactly when it is
        connected, that client is for the same stage and is connected, and a
        failed entry carries its error. Clients of different stages are
        therefore different objects. */
    ghost predicate Valid()
      reads this, ClientsOf(connections)
    {
      forall k :: k in connections ==>
        && connections[k].stageArn == k
        && (connections[k].connected <==> connections[k].client != null)
        && (connections[k].client != null ==> connections[k].client.stageArn == k && connections[k].client.connected)
        && (!connections[k].connected ==> connections[k].lastError.Some?)
    }

    constructor (api: MediaApi, whipEndpointEnv: Option<string>)
      ensures Valid() && connections == map[] && !publisherActive
      ensures this.api == api && this.whipEndpointEnv == whipEndpointEnv
    {
      connections := map[];
      publisherActive := false;
      this.api := api;
      this.whipEndpointEnv := whipEndpointEnv;
    }

    /** `connectToStage`: nothing happens for a stage already in the table,
        even a failed one. Otherwise fetch a token; without one record a
        failed entry, with one connect a new client, start publishing on it
        when the publisher is live, and record it connected. `published`
        says whether publishing was started. */
    method ConnectToStage(stageArn: string, now: int) returns (ghost published: bool)
      requires Valid()
      modifies this
      ensures Valid()
      ensures publisherActive == old(publisherActive)
      ensures stageArn in old(connections) ==> connections == old(connections) && !published
      ensures stageArn !in old(connections) ==>
        && connections.Keys == old(connections).Keys + {stageArn}
        && (forall k :: k in old(connections) ==> connections[k] == old(connections)[k])
      ensures fresh(ClientsOf(connections) - old(ClientsOf(connections)))
      ensures stageArn !in old(connections) ==>
        var e := connections[stageArn];
        && NewEntry(e, stageArn, now)
        && (e.connected ==> fresh(e.client))
        && (published <==> e.connected && publisherActive)
    {
      published := false;
      if stageArn in connections {
        return;
      }
      var token := api.GetStageToken(stageArn);
      if !Present(token) {
        connections := connections[stageArn := StageConnection(stageArn, null, false, Some(NO_TOKEN), now)];
        return;
      }
      published := AddClient(stageArn, token.value, now);
    }

    /** The part of `connectToStage` once a token is in hand: a new client
        for the stage, connected, publishing when the publisher is live, and
        recorded as a connected entry. */
    method AddClient(stageArn: string, token: string, now: int) returns (published: bool)
      requires Valid() && stageArn !in connections
      modifies this
      ensures Valid()
      ensures publisherActive == old(publisherActive)
      ensures connections.Keys == old(connections).Keys + {stageArn}
      ensures forall k :: k in old(connections) ==> connections[k] == old(connections)[k]
      ensures fresh(ClientsOf(connections) - old(ClientsOf(connections)))
      ensures var e := connections[stageArn];
        && e.stageArn == stageArn && e.createdAt == now && e.connected && e.lastError.None?
        && fresh(e.client) && e.client.token == token
      ensures published <==> publisherActive
    {
      var client := new WhipClient.WhipClient(stageArn, token, None, whipEndpointEnv);
      client.Connect();
      published := false;
      if publisherActive {
        var error := client.StartPublishing();
        published := error.None?;
      }
      connections := connections[stageArn := StageConnection(stageArn, client, true, None, now)];
    }

    /** The client of a stage's entry, as a frame. */
    function ClientOf(stageArn: string): set<WhipClient.WhipClient?>
      reads this
    {
      if stageArn in connections && connections[stageArn].client != null then {connections[stageArn].client} else {}
    }

    /** `disconnectFromStage`: nothing for a stage not in the table; otherwise
        disconnect its client, if it has a connected one, and drop the entry
        (the stub's disconnect cannot throw, so the entry always goes). */
    method DisconnectFromStage(stageArn: string)
      requires Valid()
      modifies this, ClientOf(stageArn)
      ensures Valid()
      ensures publisherActive == old(publisherActive)
      ensures connections == old(connections) - {stageArn}
      ensures stageArn in old(connections) && old(connections)[stageArn].client != null ==>
        !old(connections)[stageArn].client.connected
    {
      if stageArn !in connections {
        return;
      }
      var c := connections[stageArn];
      if c.client != null && c.connected {
        c.client.Disconnect();
      }
      connections := connections - {stageArn};
    }

    /** `syncAllStages`: connect every listed stage, then disconnect every
        entry whose stage is not listed. `listed` is what the API returned
        ([] when the call failed). */
    method SyncAllStages(now: int) returns (ghost listed: seq<string>)
      requires Valid()
      modifies this, ClientsOf(connections)
      ensures Valid()
      ensures publisherActive == old(publisherActive)
      ensures connections.Keys == set s | s in listed
      ensures forall k :: k in old(connections) && k in listed ==> connections[k] == old(connections)[k]
      ensures forall k :: k in listed && k !in old(connections) ==> NewEntry(connections[k], k, now)
      ensures listed == [] ==> connections == map[]
    {
      var stages := api.GetActiveStages();
      listed := stages;
      ConnectAll(stages, now);
      PruneUnlisted(stages);
    }

    /** The first loop of `syncAllStages`: connect each listed stage in turn. */
    method ConnectAll(stages: seq<string>, now: int)
      requires Valid()
      modifies this
      ensures Valid()
      ensures publisherActive == old(publisherActive)
      ensures connections.Keys == old(connections).Keys + set s | s in stages
      ensures forall k :: k in old(connections) ==> connections[k] == old(connections)[k]
      ensures forall k :: k in stages && k !in old(connections) ==> NewEntry(connections[k], k, now)
      ensures fresh(ClientsOf(connections) - old(ClientsOf(connections)))
    {
      var i := 0;
      while i < |stages|
        invariant 0 <= i <= |stages|
        invariant Valid()
        invariant publisherActive == old(publisherActive)
        invariant connections.Keys == old(connections).Keys + set j | 0 <= j < i :: stages[j]
        invariant forall k :: k in old(connections) ==> connections[k] == old(connections)[k]
        invariant NewSoFar(old(connections), connections, now)
        invariant fresh(ClientsOf(connections) - old(ClientsOf(connections)))
      {
        ghost var prev := connections;
        var _ := ConnectToStage(stages[i], now);
        NewStep(old(connections), prev, connections, stages[i], now);
        i := i + 1;
      }
      assert (set j | 0 <= j < |stages| :: stages[j]) == set s | s in stages;
    }

    /** The second loop of `syncAllStages`: disconnect each entry whose stage
        is not listed; the entries kept are untouched. */
    method PruneUnlisted(stages: seq<string>)
      requires Valid()
      modifies this, ClientsOf(connections)
      ensures Valid()
      ensures publisherActive == old(publisherActive)
      ensures connections.Keys == old(connections).Keys * set s | s in stages
      ensures forall k :: k in connections ==> connections[k] == old(connections)[k]
    {
      ghost var start := connections;
      var todo := connections.Keys;
      while todo != {}
        invariant todo <= start.Keys
        invariant Valid()
        invariant publisherActive == old(publisherActive)
        invariant forall k :: k in connections <==> k in start && (k in todo || k in stages)
        invariant forall k :: k in connections ==> connections[k] == start[k]
        decreases |todo|
      {
        var key :| key in todo;
        if key !in stages {
          assert ClientOf(key) <= ClientsOf(start);
          DisconnectFromStage(key);
        }
        todo := todo - {key};
      }
    }

    /** `onPublisherConnected`: set the flag and start publishing on every
        connected entry; `started` is the set of stages it started on. */
    method OnPublisherConnected() returns (ghost started: set<string>)
      requires Valid()
      modifies this
      ensures Valid()
      ensures publisherActive && connections == old(connections)
      ensures started == ActiveKeys(connections)
    {
      publisherActive := true;
      started := {};
      var todo := connections.Keys;
      while todo != {}
        invariant todo <= connections.Keys
        invariant publisherActive && connections == old(connections) && Valid()
        invariant forall k :: k in started <==> k in ActiveKeys(connections) && k !in todo
        decreases |todo|
      {
        var key :| key in todo;
        var c := connections[key];
        if c.connected && c.client != null {
          var error := c.client.StartPublishing();
          if error.None? {
            started := started + {key};
          }
        }
        todo := todo - {key};
      }
    }

    /** `onPublisherDisconnected`: clear the flag and stop publishing on every
        connected entry; `stopped` is the set of stages it stopped. */
    method OnPublisherDisconnected() returns (ghost stopped: set<string>)
      requires Valid()
      modifies this
      ensures Valid()
      ensures !publisherActive && connections == old(connections)
      ensures stopped == ActiveKeys(connections)
    {
      publisherActive := false;
      stopped := {};
      var todo := connections.Keys;
      while todo != {}
        invariant todo <= connections.Keys
        invariant !publisherActive && connections == old(connections) && Valid()
        invariant forall k :: k in stopped <==> k in ActiveKeys(connections) && k !in todo
        decreases |todo|
      {
        var key :| key in todo;
        var c := connections[key];
        if c.client != null && c.connected {
          c.client.StopPublishing();
          stopped := stopped + {key};
        }
        todo := todo - {key};
      }
    }

    /** `disconnectAll`: disconnect every entry, then clear the table; every
        client the table held ends disconnected. */
    method DisconnectAll()
      requires Valid()
      modifies this, ClientsOf(connections)
      ensures Valid()
      ensures connections == map[] && publisherActive == old(publisherActive)
      ensures forall c :: c in old(ClientsOf(connections)) ==> !c.connected
    {
      ghost var start := connections;
      var keys := Enumerate(connections.Keys);
      DisconnectEach(keys);
      forall c | c in old(ClientsOf(connections)) ensures !c.connected {
        var k :| k in start && start[k].client == c;
        var j :| 0 <= j < |keys| && keys[j] == k;
      }
      connections := map[];
    }

    /** The loop of `disconnectAll`: disconnect each of `keys` in turn. */
    method DisconnectEach(keys: seq<string>)
      requires Valid()
      modifies this, ClientsOf(connections)
      ensures Valid()
      ensures publisherActive == old(publisherActive)
      ensures forall k :: k in connections ==> k in old(connections) && connections[k] == old(connections)[k]
      ensures forall j :: 0 <= j < |keys| ==> keys[j] !in connections
      ensures forall k :: k in old(connections) && k !in connections && old(connections)[k].client != null ==>
        !old(connections)[k].client.connected
    {
      ghost var start := connections;
      var i := 0;
      while i < |keys|
        invariant 0 <= i <= |keys|
        invariant Valid()
        invariant publisherActive == old(publisherActive)
        invariant forall k :: k in connections ==> k in start && connections[k] == start[k]
        invariant forall j :: 0 <= j < i ==> keys[j] !in connections
        invariant forall k :: k in start && start[k].client != null ==> start[k].client.stageArn == k
        invariant forall k :: k in start && k !in connections && start[k].client != null ==> !start[k].client.connected
      {
        assert ClientOf(keys[i]) <= old(ClientsOf(connections));
        DisconnectFromStage(keys[i]);
        i := i + 1;
      }
    }

    /** `getStats`, with the active count taken by a pass over the entries. */
    method GetStats() returns (s: Stats)
      requires Valid()
      ensures s.publisherActive == publisherActive
      ensures s.connectedStages == |connections|
      ensures s.activeConnections == |ActiveKeys(connections)|
      ensures s.activeConnections <= s.connectedStages
    {
      var conns := connections;
      var keys := Enumerate(conns.Keys);
      var count := 0;
      var i := 0;
      while i < |keys|
        invariant 0 <= i <= |keys|
        invariant count == CountConnected(conns, keys[..i])
      {
        assert keys[..i + 1][..i] == keys[..i];
        if conns[keys[i]].connected {
          count := count + 1;
        }
        i := i + 1;
      }
      assert keys[..|keys|] == keys;
      CountedAll(conns, keys);
      s := Stats(publisherActive, |connections|, count);
    }
  }
}
