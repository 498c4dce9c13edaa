/** Whole runs of the dashboard server: events, ticks, connects, disconnects and dying streams in
    any order, and what every connected browser then holds. */
module DashboardRun {
  import opened Wrappers
  import opened DashboardState
  import opened DashboardStats
  import opened DashboardReplica

  /** One SSE stream: what the replay put into it, what broadcasts put into it, whether its replay
      landed, and how many broadcasts had happened before it connected. */
  datatype Stream = Stream(replay: seq<Event>, live: seq<Event>, closed: bool, landed: bool, joined: nat)

  /** The server's side of the wire; `log` lists every broadcast so far. */
  datatype Net = Net(clients: set<nat>, streams: seq<Stream>, log: seq<Event>) {

    ghost predicate Valid() {
      && (forall i :: i in clients ==> i < |streams| && streams[i].landed)
      && (forall i :: 0 <= i < |streams| ==> streams[i].joined + |streams[i].live| <= |log|
                                             && streams[i].live
                                                == log[streams[i].joined..streams[i].joined + |streams[i].live|])
      && (forall i :: 0 <= i < |streams| && !streams[i].landed ==> streams[i].live == [])
      && (forall i :: i in clients && !streams[i].closed ==> streams[i].joined + |streams[i].live| == |log|)
    }

    predicate Open(i: nat) {
      i in clients && i < |streams| && !streams[i].closed
    }
  }

  /** `broadcastSSE`: open clients take the event, dead ones are dropped. */
  function Broadcast(n: Net, e: Event): Net {
    Net(set i | i in n.clients && n.Open(i),
        seq(|n.streams|, i requires 0 <= i < |n.streams| =>
          if n.Open(i) then n.streams[i].(live := n.streams[i].live + [e]) else n.streams[i]),
        n.log + [e])
  }

  function BroadcastAll(n: Net, es: seq<Event>): Net {
    if es == [] then n else Broadcast(BroadcastAll(n, es[..|es| - 1]), es[|es| - 1])
  }

  /** What a new stream is sent before it is registered. */
  function Replay(b: Board, br: BridgeState): seq<Event> {
    [FullState(b.FullState()), HealthSnapshot]
    + if br.latestPool.Some? then [PoolSnapshot(br.latestPool.value)] else []
  }

  /** A stream with room for `room` events connects; it is registered only if the replay fits. */
  function Join(n: Net, b: Board, br: BridgeState, room: nat): Net {
    var replay := Replay(b, br);
    if room >= |replay| then
      n.(clients := n.clients + {|n.streams|}, streams := n.streams + [Stream(replay, [], false, true, |n.log|)])
    else
      n.(streams := n.streams + [Stream(replay[..room], [], true, false, |n.log|)])
  }

  function Shut(n: Net, i: nat): Net {
    if i < |n.streams| then n.(streams := n.streams[i := n.streams[i].(closed := true)]) else n
  }

  datatype Sys = Sys(board: Board, bridge: BridgeState, net: Net)

  /** `Close` is a stream that dies unnoticed; `Cancel` is a disconnect the server hears of. */
  datatype Step =
    | Orchestrator(e: BenchEvent)
    | SetRun(run: nat)
    | MarkComplete
    | PoolTick(snapshot: int)
    | Connect(room: nat)
    | Close(stream: nat)
    | Cancel(stream: nat)

  function Emit(s: Sys, r: Reaction): Sys {
    Sys(r.board, r.bridge, BroadcastAll(s.net, r.sent))
  }

  function Apply(s: Sys, step: Step): Sys
    requires s.board.Valid()
  {
    match step
    case Orchestrator(e) => Emit(s, React(s.board, s.bridge, e))
    case SetRun(run) => Emit(s, StartRun(s.board, s.bridge, run))
    case MarkComplete => Emit(s, Finish(s.board, s.bridge))
    case PoolTick(snapshot) => Emit(s, Tick(s.board, s.bridge, snapshot))
    case Connect(room) => s.(net := Join(s.net, s.board, s.bridge, room))
    case Close(i) => s.(net := Shut(s.net, i))
    case Cancel(i) => s.(net := Shut(s.net, i).(clients := s.net.clients - {i}))
  }

  /** The server as `start` builds it. */
  function Start(taskIds: seq<string>, models: seq<string>): Sys {
    var empty := Board([], map[], taskIds, models, 1, [], true, 0.0);
    Sys(Initialize(empty, taskIds, models, 1), BridgeState(1, 0.0, None), Net({}, [], []))
  }

  // ---------- Broadcasting ----------

  lemma BroadcastValid(n: Net, e: Event)
    requires n.Valid()
    ensures Broadcast(n, e).Valid()
  {
    var m := Broadcast(n, e);
    forall i | 0 <= i < |m.streams|
      ensures m.streams[i].joined + |m.streams[i].live| <= |m.log|
              && m.streams[i].live == m.log[m.streams[i].joined..m.streams[i].joined + |m.streams[i].live|]
    {
      var t := n.streams[i];
      assert t.live == n.log[t.joined..t.joined + |t.live|] == m.log[t.joined..t.joined + |t.live|];
    }
  }

  /** Broadcasting a list appends it to every open stream and drops exactly the dead clients. */
  lemma {:induction false} BroadcastAllEffect(n: Net, es: seq<Event>)
    requires n.Valid()
    ensures
      var m := BroadcastAll(n, es);
      && m.Valid() && m.log == n.log + es && |m.streams| == |n.streams|
      && (forall i :: m.Open(i) <==> n.Open(i))
      && m.clients <= n.clients
      && (forall i :: 0 <= i < |n.streams| ==>
            m.streams[i] == if n.Open(i) then n.streams[i].(live := n.streams[i].live + es) else n.streams[i])
    decreases |es|
  {
    if es == [] {
      assert n.log + es == n.log;
      forall i | 0 <= i < |n.streams| ensures n.streams[i].live + es == n.streams[i].live {}
    } else {
      var before, last := es[..|es| - 1], es[|es| - 1];
      var k := BroadcastAll(n, before);
      BroadcastAllEffect(n, before);
      BroadcastValid(k, last);
      assert es == before + [last];
      forall i | 0 <= i < |n.streams|
        ensures Broadcast(k, last).streams[i]
             == if n.Open(i) then n.streams[i].(live := n.streams[i].live + es) else n.streams[i]
      {
        if n.Open(i) { assert n.streams[i].live + es == (n.streams[i].live + before) + [last]; }
      }
      assert n.log + es == (n.log + before) + [last];
    }
  }

  // ---------- Invariant ----------

  /** Whatever a page held when it connected, folding all it was sent gives the server's state. */
  ghost predicate Synced(s: Sys) {
    forall i: nat, c :: s.net.Open(i) ==>
      Agrees(Fold(c, s.net.streams[i].replay + s.net.streams[i].live), s.board, s.bridge)
  }

  ghost predicate Inv(s: Sys) {
    s.board.Valid() && s.net.Valid() && Synced(s) && MoneyOk(s.board, s.bridge)
  }

  /** A stream that agrees agrees after the reaction's broadcasts. */
  lemma StreamTracks(b: Board, br: BridgeState, r: Reaction, stream: Stream, c: Browser)
    requires Agrees(Fold(c, stream.replay + stream.live), b, br) && Tracks(b, br, r)
    ensures Agrees(Fold(c, stream.replay + (stream.live + r.sent)), r.board, r.bridge)
  {
    FoldConcat(c, stream.replay + stream.live, r.sent);
    assert stream.replay + (stream.live + r.sent) == stream.replay + stream.live + r.sent;
  }

  lemma EmitKeeps(s: Sys, r: Reaction)
    requires Inv(s) && Tracks(s.board, s.bridge, r) && r.board.Valid() && MoneyOk(r.board, r.bridge)
    ensures Inv(Emit(s, r))
  {
    var t := Emit(s, r);
    BroadcastAllEffect(s.net, r.sent);
    forall i: nat, c | t.net.Open(i)
      ensures Agrees(Fold(c, t.net.streams[i].replay + t.net.streams[i].live), t.board, t.bridge)
    {
      assert s.net.Open(i);
      StreamTracks(s.board, s.bridge, r, s.net.streams[i], c);
    }
  }

  /** A connecting stream is sent the whole state, the health of the containers and the latest pool
      snapshot, or as much of them as fits; it is registered only if all fit, and no other stream changes. */
  lemma ConnectEffect(s: Sys, room: nat)
    requires s.board.Valid()
    ensures
      var t, n, b := Apply(s, Connect(room)), |s.net.streams|, s.board;
      var whole := [FullState(View(b.cells, b.taskIds, b.models, b.currentRun, b.costHistory, b.isRunning)),
                    HealthSnapshot]
                   + if s.bridge.latestPool == None then [] else [PoolSnapshot(s.bridge.latestPool.value)];
      && t == s.(net := t.net) && t.net.log == s.net.log
      && |t.net.streams| == n + 1 && t.net.streams[..n] == s.net.streams
      && t.net.streams[n].live == [] && t.net.streams[n].joined == |s.net.log|
      && (t.net.streams[n].landed <==> |whole| <= room)
      && (if |whole| <= room then t.net.streams[n].replay == whole && !t.net.streams[n].closed
          else t.net.streams[n].replay == whole[..room] && t.net.streams[n].closed)
      && t.net.clients == if |whole| <= room then s.net.clients + {n} else s.net.clients
  {}

  /** The reaction's board and bridge, and its broadcasts after the earlier ones. */
  ghost predicate Emitted(s: Sys, t: Sys, r: Reaction) {
    t.board == r.board && t.bridge == r.bridge && t.net.log == s.net.log + r.sent
  }

  lemma ReactionEffects(s: Sys, e: BenchEvent, run: nat, snapshot: int)
    requires s.board.Valid() && s.net.Valid()
    ensures Emitted(s, Apply(s, Orchestrator(e)), React(s.board, s.bridge, e))
    ensures Emitted(s, Apply(s, SetRun(run)), StartRun(s.board, s.bridge, run))
    ensures Emitted(s, Apply(s, MarkComplete), Finish(s.board, s.bridge))
    ensures Emitted(s, Apply(s, PoolTick(snapshot)), Tick(s.board, s.bridge, snapshot))
  {
    BroadcastAllEffect(s.net, React(s.board, s.bridge, e).sent);
    BroadcastAllEffect(s.net, StartRun(s.board, s.bridge, run).sent);
    BroadcastAllEffect(s.net, Finish(s.board, s.bridge).sent);
    BroadcastAllEffect(s.net, Tick(s.board, s.bridge, snapshot).sent);
  }

  /** A stream that dies stays registered; one whose disconnect is heard of does not. */
  lemma DisconnectEffect(s: Sys, i: nat)
    requires s.board.Valid() && i < |s.net.streams|
    ensures
      var dead := s.net.streams[i := s.net.streams[i].(closed := true)];
      && Apply(s, Close(i)) == s.(net := s.net.(streams := dead))
      && Apply(s, Cancel(i)) == s.(net := s.net.(streams := dead, clients := s.net.clients - {i}))
  {}

  /** The run of a freshly started server. */
  lemma StartExactly(taskIds: seq<string>, models: seq<string>)
    ensures
      var s := Start(taskIds, models);
      && s.board.currentRun == 1 == s.bridge.currentRun && s.board.isRunning
      && s.board.costHistory == [] && s.board.totalCost == 0.0 == s.bridge.cumulativeCost
      && s.bridge.latestPool == None && s.net == Net({}, [], [])
  {
    SetRowsResets(Board([], map[], taskIds, models, 1, [], true, 0.0).(currentRun := 1), taskIds, models, 1);
  }

  lemma ReplayAgrees(c: Browser, b: Board, br: BridgeState)
    ensures Agrees(Fold(c, Replay(b, br)), b, br)
  {
    var first := [FullState(b.FullState())];
    FoldOne(c, FullState(b.FullState()));
    FoldCons(c, first, HealthSnapshot);
    if br.latestPool.Some? {
      FoldCons(c, first + [HealthSnapshot], PoolSnapshot(br.latestPool.value));
      assert Replay(b, br) == first + [HealthSnapshot] + [PoolSnapshot(br.latestPool.value)];
    } else {
      assert Replay(b, br) == first + [HealthSnapshot];
    }
  }

  lemma JoinKeeps(s: Sys, room: nat)
    requires Inv(s)
    ensures Inv(s.(net := Join(s.net, s.board, s.bridge, room)))
  {
    var n := Join(s.net, s.board, s.bridge, room);
    forall i: nat, c | n.Open(i) ensures Agrees(Fold(c, n.streams[i].replay + n.streams[i].live), s.board, s.bridge) {
      if i < |s.net.streams| {
        assert s.net.Open(i);
      } else {
        ReplayAgrees(c, s.board, s.bridge);
        assert n.streams[i].replay + [] == n.streams[i].replay;
      }
    }
  }

  lemma StepKeeps(s: Sys, step: Step)
    requires Inv(s)
    ensures Inv(Apply(s, step))
  {
    match step
    case Orchestrator(e) =>
      ReactTracks(s.board, s.bridge, e);
      ReactMoney(s.board, s.bridge, e);
      EmitKeeps(s, React(s.board, s.bridge, e));
    case SetRun(run) =>
      StartRunTracks(s.board, s.bridge, run);
      StartRunMoney(s.board, s.bridge, run);
      EmitKeeps(s, StartRun(s.board, s.bridge, run));
    case MarkComplete =>
      FinishTracks(s.board, s.bridge);
      EmitKeeps(s, Finish(s.board, s.bridge));
    case PoolTick(snapshot) =>
      TickTracks(s.board, s.bridge, snapshot);
      EmitKeeps(s, Tick(s.board, s.bridge, snapshot));
    case Connect(room) => JoinKeeps(s, room);
    case Close(i) => ShutKeeps(s, i, s.net.clients);
    case Cancel(i) => ShutKeeps(s, i, s.net.clients - {i});
  }

  lemma ShutKeeps(s: Sys, i: nat, clients: set<nat>)
    requires Inv(s) && clients <= s.net.clients
    ensures Inv(s.(net := Shut(s.net, i).(clients := clients)))
  {
    var n := Shut(s.net, i).(clients := clients);
    assert forall k: nat :: n.Open(k) ==> s.net.Open(k) && n.streams[k] == s.net.streams[k];
  }

  lemma StartRunMoney(b: Board, br: BridgeState, run: nat)
    requires MoneyOk(b, br)
    ensures MoneyOk(StartRun(b, br, run).board, StartRun(b, br, run).bridge)
  {
    SetRowsResets(b.(currentRun := run), b.taskIds, b.models, run);
  }

  lemma StartInv(taskIds: seq<string>, models: seq<string>)
    ensures Inv(Start(taskIds, models))
  {
    var empty := Board([], map[], taskIds, models, 1, [], true, 0.0);
    SetRowsValid(empty, taskIds, models, 1);
    SetRowsResets(empty, taskIds, models, 1);
  }

  lemma StepKeepsBoard(s: Sys, step: Step)
    requires s.board.Valid()
    ensures Apply(s, step).board.Valid()
  {
    match step
    case Orchestrator(e) => ReactValid(s.board, s.bridge, e);
    case SetRun(run) => StartRunTracks(s.board, s.bridge, run);
    case _ =>
  }

  /** The state after any list of steps. */
  ghost function After(taskIds: seq<string>, models: seq<string>, steps: seq<Step>): (s: Sys)
    ensures s.board.Valid()
  {
    if steps == [] then
      StartInv(taskIds, models);
      Start(taskIds, models)
    else
      var before := After(taskIds, models, steps[..|steps| - 1]);
      StepKeepsBoard(before, steps[|steps| - 1]);
      Apply(before, steps[|steps| - 1])
  }

  lemma {:induction false} InvAlways(taskIds: seq<string>, models: seq<string>, steps: seq<Step>)
    ensures Inv(After(taskIds, models, steps))
    decreases |steps|
  {
    if steps == [] {
      StartInv(taskIds, models);
    } else {
      var before := steps[..|steps| - 1];
      InvAlways(taskIds, models, before);
      StepKeeps(After(taskIds, models, before), steps[|steps| - 1]);
    }
  }

  // ---------- Main results ----------

  /** In every run, a browser on an open registered stream that has consumed everything enqueued
      holds exactly the server's cells, cost history, running flag and run number, whatever it
      held before it connected. */
  lemma ReplicaAgrees(taskIds: seq<string>, models: seq<string>, steps: seq<Step>, i: nat, held: Browser)
    requires After(taskIds, models, steps).net.Open(i)
    ensures
      var s := After(taskIds, models, steps);
      var page := Fold(held, s.net.streams[i].replay + s.net.streams[i].live);
      && page.state.Some?
      && page.state.value.cells == s.board.cells && page.state.value.costHistory == s.board.costHistory
      && page.state.value.isRunning == s.board.isRunning && page.state.value.currentRun == s.board.currentRun
      && (s.bridge.latestPool.Some? ==> page.pool == s.bridge.latestPool)
  {
    var s := After(taskIds, models, steps);
    InvAlways(taskIds, models, steps);
    assert Agrees(Fold(held, s.net.streams[i].replay + s.net.streams[i].live), s.board, s.bridge);
  }

  /** In every run, what a stream is sent after its replay is a gap-free and duplicate-free stretch
      of the broadcasts, up to the latest one while it is open and registered; a stream whose replay
      failed is never registered and never sent a broadcast. */
  lemma StreamsGapFree(taskIds: seq<string>, models: seq<string>, steps: seq<Step>, i: nat)
    requires i < |After(taskIds, models, steps).net.streams|
    ensures
      var n := After(taskIds, models, steps).net;
      var t := n.streams[i];
      && t.joined + |t.live| <= |n.log| && t.live == n.log[t.joined..t.joined + |t.live|]
      && (n.Open(i) ==> t.joined + |t.live| == |n.log|)
      && (!t.landed ==> i !in n.clients && t.live == [])
  {
    InvAlways(taskIds, models, steps);
  }

  /** Registered, but dead. */
  ghost predicate Stale(n: Net, i: nat) {
    i in n.clients && i < |n.streams| && n.streams[i].closed
  }

  /** At step `m` the registered stream died unnoticed; since then nothing was broadcast and its
      disconnect was not heard of. */
  ghost predicate DiedAt(taskIds: seq<string>, models: seq<string>, steps: seq<Step>, i: nat, m: nat) {
    && m < |steps| && steps[m] == Close(i)
    && After(taskIds, models, steps[..m]).net.Open(i)
    && |After(taskIds, models, steps[..m]).net.log| == |After(taskIds, models, steps).net.log|
    && forall k :: m < k < |steps| ==> steps[k] != Cancel(i)
  }

  lemma BroadcastAllSweeps(n: Net, es: seq<Event>, i: nat)
    requires n.Valid() && es != []
    ensures !Stale(BroadcastAll(n, es), i)
  {
    BroadcastAllEffect(n, es[..|es| - 1]);
  }

  lemma EmitSweeps(s: Sys, r: Reaction, i: nat)
    requires Inv(s)
    ensures |Emit(s, r).net.log| == |s.net.log| + |r.sent|
    ensures Stale(Emit(s, r).net, i) <==> Stale(s.net, i) && r.sent == []
  {
    BroadcastAllEffect(s.net, r.sent);
    if r.sent != [] { BroadcastAllSweeps(s.net, r.sent, i); }
  }

  /** How one step makes or ends a dead registration. */
  lemma StepSweeps(s: Sys, step: Step, i: nat)
    requires Inv(s)
    ensures |s.net.log| <= |Apply(s, step).net.log|
    ensures step == Close(i) ==> |s.net.log| == |Apply(s, step).net.log|
    ensures Stale(Apply(s, step).net, i) <==>
            || (step == Close(i) && s.net.Open(i))
            || (Stale(s.net, i) && |Apply(s, step).net.log| == |s.net.log| && step != Cancel(i))
  {
    match step
    case Orchestrator(e) => EmitSweeps(s, React(s.board, s.bridge, e), i);
    case SetRun(run) => EmitSweeps(s, StartRun(s.board, s.bridge, run), i);
    case MarkComplete => EmitSweeps(s, Finish(s.board, s.bridge), i);
    case PoolTick(snapshot) => EmitSweeps(s, Tick(s.board, s.bridge, snapshot), i);
    case Connect(_) =>
    case Close(_) =>
    case Cancel(_) =>
  }

  lemma {:induction false} LogGrows(taskIds: seq<string>, models: seq<string>, steps: seq<Step>, m: nat)
    requires m <= |steps|
    ensures |After(taskIds, models, steps[..m]).net.log| <= |After(taskIds, models, steps).net.log|
    decreases |steps|
  {
    if m == |steps| {
      assert steps[..m] == steps;
    } else {
      var before := steps[..|steps| - 1];
      assert before[..m] == steps[..m];
      LogGrows(taskIds, models, before, m);
      InvAlways(taskIds, models, before);
      StepSweeps(After(taskIds, models, before), steps[|steps| - 1], 0);
    }
  }

  /** A death carries over one step, or happens in it. */
  lemma DiedEarlier(taskIds: seq<string>, models: seq<string>, before: seq<Step>, last: Step, i: nat, m: nat)
    requires m < |before|
    ensures DiedAt(taskIds, models, before + [last], i, m) <==>
            && DiedAt(taskIds, models, before, i, m) && last != Cancel(i)
            && |After(taskIds, models, before).net.log| == |After(taskIds, models, before + [last]).net.log|
  {
    var steps := before + [last];
    assert before[m] == steps[m] && before[..m] == steps[..m] && steps[..|before|] == before && steps[|before|] == last;
    assert forall k :: m < k < |before| ==> before[k] == steps[k];
    LogGrows(taskIds, models, before, m);
    LogGrows(taskIds, models, steps, |before|);
  }

  lemma DiedNow(taskIds: seq<string>, models: seq<string>, before: seq<Step>, last: Step, i: nat)
    ensures DiedAt(taskIds, models, before + [last], i, |before|) <==>
            && last == Close(i) && After(taskIds, models, before).net.Open(i)
            && |After(taskIds, models, before).net.log| == |After(taskIds, models, before + [last]).net.log|
  {
    assert (before + [last])[..|before|] == before;
  }

  ghost predicate Died(taskIds: seq<string>, models: seq<string>, steps: seq<Step>, i: nat) {
    exists m: nat :: DiedAt(taskIds, models, steps, i, m)
  }

  lemma DiedCarries(taskIds: seq<string>, models: seq<string>, before: seq<Step>, last: Step, i: nat, s: Sys, t: Sys)
    requires s == After(taskIds, models, before) && t == After(taskIds, models, before + [last])
    ensures Died(taskIds, models, before + [last], i) <==>
            && |s.net.log| == |t.net.log|
            && ((last == Close(i) && s.net.Open(i)) || (Died(taskIds, models, before, i) && last != Cancel(i)))
  {
    DiedNow(taskIds, models, before, last, i);
    if Died(taskIds, models, before + [last], i) {
      var m: nat :| DiedAt(taskIds, models, before + [last], i, m);
      if m < |before| { DiedEarlier(taskIds, models, before, last, i, m); }
    }
    if Died(taskIds, models, before, i) {
      var m: nat :| DiedAt(taskIds, models, before, i, m);
      DiedEarlier(taskIds, models, before, last, i, m);
    }
  }

  lemma StaleNext(taskIds: seq<string>, models: seq<string>, before: seq<Step>, last: Step, i: nat, s: Sys, t: Sys)
    requires s == After(taskIds, models, before) && t == After(taskIds, models, before + [last])
    requires Inv(s) && t == Apply(s, last) && (Stale(s.net, i) <==> Died(taskIds, models, before, i))
    ensures Stale(t.net, i) <==> Died(taskIds, models, before + [last], i)
  {
    StepSweeps(s, last, i);
    DiedCarries(taskIds, models, before, last, i, s, t);
  }

  lemma AfterLast(taskIds: seq<string>, models: seq<string>, before: seq<Step>, last: Step) returns (s: Sys, t: Sys)
    ensures s == After(taskIds, models, before) && t == After(taskIds, models, before + [last])
    ensures Inv(s) && t == Apply(s, last)
  {
    assert (before + [last])[..|before|] == before;
    InvAlways(taskIds, models, before);
    s, t := After(taskIds, models, before), After(taskIds, models, before + [last]);
  }

  lemma NobodyAtFirst(taskIds: seq<string>, models: seq<string>, i: nat)
    ensures !Stale(After(taskIds, models, []).net, i) && !Died(taskIds, models, [], i)
  {}

  /** In every run the dead streams still registered are exactly those that died unnoticed since the
      last broadcast: each broadcast sweeps out all the earlier ones. */
  lemma {:induction false} StaleExactlySinceBroadcast(taskIds: seq<string>, models: seq<string>,
                                                      steps: seq<Step>, i: nat)
    ensures Stale(After(taskIds, models, steps).net, i) <==> Died(taskIds, models, steps, i)
    decreases |steps|
  {
    if steps == [] {
      NobodyAtFirst(taskIds, models, i);
    } else {
      var before, last := steps[..|steps| - 1], steps[|steps| - 1];
      assert steps == before + [last];
      StaleExactlySinceBroadcast(taskIds, models, before, i);
      var s, t := AfterLast(taskIds, models, before, last);
      StaleNext(taskIds, models, before, last, i, s, t);
    }
  }

  /** A cost point adds its own cost to the running total of the point before it. */
  predicate Continues(points: seq<CostPoint>, i: nat)
    requires i < |points|
  {
    points[i].cumulativeCost == points[i].cost + if i == 0 then 0.0 else points[i - 1].cumulativeCost
  }

  /** In every run the cost totals of the bridge, the board and the history agree, and each cost
      point continues from the one before it. */
  lemma CostsAgree(taskIds: seq<string>, models: seq<string>, steps: seq<Step>)
    ensures
      var s := After(taskIds, models, steps);
      && s.bridge.cumulativeCost == s.board.totalCost == SumOfPoints(s.board.costHistory)
      && (forall i: nat | i < |s.board.costHistory| :: Continues(s.board.costHistory, i))
  {
    var s := After(taskIds, models, steps);
    InvAlways(taskIds, models, steps);
    forall i: nat | i < |s.board.costHistory| ensures Continues(s.board.costHistory, i) {
      Telescopes(s.board, s.bridge, i);
    }
  }

  lemma Telescopes(b: Board, br: BridgeState, i: nat)
    requires MoneyOk(b, br) && i < |b.costHistory|
    ensures Continues(b.costHistory, i)
  {
    var upTo := b.costHistory[..i + 1];
    assert upTo[..|upTo| - 1] == b.costHistory[..i];
    assert SumOfPoints(upTo) == SumOfPoints(b.costHistory[..i]) + b.costHistory[i].cost;
    if i > 0 { assert b.costHistory[i - 1].cumulativeCost == SumOfPoints(b.costHistory[..i - 1 + 1]); }
  }

  /** In every run the phases partition the cells, the passed and failed totals sum to the completed
      cells, and attempt passes stay within passes. */
  lemma AccountsBalance(taskIds: seq<string>, models: seq<string>, steps: seq<Step>)
    ensures
      var b := After(taskIds, models, steps).board;
      var p := ProgressOf(b);
      && p.completedCells + p.activeLLMCalls + p.compileQueueLength + Count(Values(b), Open) == |b.cells|
      && SumOfStats(Stats(b)) == p.completedCells
      && (forall s :: s in Stats(b) ==> s.attempt1Passes + s.attempt2Passes <= s.passed)
  {
    Accounting(After(taskIds, models, steps).board);
  }
}
