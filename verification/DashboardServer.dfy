/** The classes of `cli/dashboard/server.ts` and `cli/dashboard/bridge.ts`; together with the state
    manager they perform the steps of `DashboardRun`. */
module DashboardServers {
  import opened Wrappers
  import opened DashboardState
  import opened DashboardReplica
  import opened DashboardRun

  class DashboardServer {
    var clients: set<nat>
    var streams: seq<Stream>
    /** Every broadcast so far; only the specification reads it. */
    var log: seq<Event>

    ghost function Wire(): Net
      reads this
    {
      Net(clients, streams, log)
    }

    constructor ()
      ensures Wire() == Net({}, [], [])
    {
      clients, streams, log := {}, [], [];
    }

    method BroadcastSSE(e: Event)
      requires Wire().Valid()
      modifies this
      ensures Wire() == Broadcast(old(Wire()), e) && Wire().Valid()
    {
      ghost var was := Wire();
      BroadcastValid(was, e);
      var dead: set<nat> := {};
      var rest := clients;
      while rest != {}
        invariant rest <= clients == was.clients && |streams| == |was.streams| && log == was.log
        invariant dead == set i | i in clients - rest && was.streams[i].closed
        invariant forall i :: 0 <= i < |streams| ==>
                                streams[i] == if was.Open(i) && i !in rest
                                              then was.streams[i].(live := was.streams[i].live + [e])
                                              else was.streams[i]
      {
        var c :| c in rest;
        if streams[c].closed {
          dead := dead + {c};
        } else {
          streams := streams[c := streams[c].(live := streams[c].live + [e])];
        }
        rest := rest - {c};
      }
      clients := clients - dead;
      log := log + [e];
      assert streams == Broadcast(was, e).streams;
      assert clients == Broadcast(was, e).clients;
    }

    /** The stream accepts `room` events before it fails; replay, then register if all landed. */
    method HandleSSE(b: Board, br: BridgeState, room: nat)
      requires Wire().Valid()
      modifies this
      ensures Wire() == Join(old(Wire()), b, br, room)
    {
      var sent: seq<Event> := [];
      var replayOk := true;
      var replay := [FullState(b.FullState()), HealthSnapshot];
      if br.latestPool.Some? { replay := replay + [PoolSnapshot(br.latestPool.value)]; }
      for i := 0 to |replay|
        invariant replayOk == (i <= room)
        invariant sent == replay[..if i <= room then i else room]
      {
        if replayOk {
          if i < room { sent := sent + [replay[i]]; } else { replayOk := false; }
        }
      }
      assert replay == Replay(b, br);
      streams := streams + [Stream(sent, [], !replayOk, replayOk, |log|)];
      if replayOk {
        assert sent == replay;
        clients := clients + {|streams| - 1};
      }
    }

    method Cancel(i: nat)
      requires i < |streams|
      modifies this
      ensures Wire() == Shut(old(Wire()), i).(clients := old(clients) - {i})
    {
      streams := streams[i := streams[i].(closed := true)];
      clients := clients - {i};
    }
  }
}
