/** The class of `cli/dashboard/bridge.ts`: every public method is one step of `DashboardRun`. */
module DashboardBridges {
  import opened Wrappers
  import opened DashboardState
  import opened DashboardStats
  import opened DashboardReplica
  import opened DashboardRun
  import opened DashboardStateManagers
  import opened DashboardServers

  class DashboardEventBridge {
    const state: DashboardStateManager
    const server: DashboardServer
    var currentRun: nat
    var cumulativeCost: real
    var latestPool: Option<int>

    constructor (state: DashboardStateManager, server: DashboardServer)
      ensures this.state == state && this.server == server && Fields() == BridgeState(1, 0.0, None)
    {
      this.state, this.server := state, server;
      currentRun, cumulativeCost, latestPool := 1, 0.0, None;
    }

    ghost function Fields(): BridgeState
      reads this
    {
      BridgeState(currentRun, cumulativeCost, latestPool)
    }

    ghost function Now(): Sys
      reads this, state, server
    {
      Sys(state.Now(), Fields(), server.Wire())
    }

    ghost predicate Valid()
      reads this, state, server
    {
      state.Now().Valid() && server.Wire().Valid()
    }

    /** One broadcast; `sent` is what this handler has broadcast since the wire was `start`. */
    method Send(e: Event, ghost start: Net, ghost sent: seq<Event>) returns (ghost more: seq<Event>)
      requires server.Wire().Valid() && server.Wire() == BroadcastAll(start, sent)
      modifies server
      ensures more == sent + [e] && server.Wire().Valid() && server.Wire() == BroadcastAll(start, more)
    {
      more := sent + [e];
      assert more[..|more| - 1] == sent;
      server.BroadcastSSE(e);
    }

    method BroadcastProgress(ghost start: Net, ghost sent: seq<Event>) returns (ghost more: seq<Event>)
      requires Valid() && server.Wire() == BroadcastAll(start, sent)
      modifies server
      ensures more == sent + [Progress(ProgressOf(state.Now()))]
      ensures server.Wire().Valid() && server.Wire() == BroadcastAll(start, more)
    {
      var p := state.GetProgress();
      more := Send(Progress(p), start, sent);
    }

    /** The three handlers of phase changes. */
    method ChangePhase(taskId: string, model: string, patch: Patch)
      requires Valid()
      modifies state, server
      ensures
        var key := CellKey(taskId, model, currentRun);
        Valid() && Now() == Emit(old(Now()), OnPhase(old(Now()).board, Fields(), key, patch))
    {
      ghost var sent := PhaseEvents(CellKey(taskId, model, currentRun), patch, server.Wire());
    }

    method PhaseEvents(key: Key, patch: Patch, ghost start: Net) returns (ghost sent: seq<Event>)
      requires Valid() && server.Wire() == start
      modifies state, server
      ensures Valid() && state.Now() == Update(old(state.Now()), key, patch)
      ensures sent == OnPhase(old(state.Now()), Fields(), key, patch).sent
      ensures server.Wire() == BroadcastAll(start, sent)
    {
      PhaseSent(state.Now(), Fields(), key, patch);
      sent := [];
      var cell := state.UpdateCell(key, patch);
      if cell.Some? { sent := BroadcastCell(key, cell.value, start); }
    }

    method BroadcastCell(key: Key, cell: Cell, ghost start: Net) returns (ghost sent: seq<Event>)
      requires Valid() && server.Wire() == start
      modifies server
      ensures sent == [CellUpdate(key, cell), Progress(ProgressOf(state.Now()))]
      ensures server.Wire().Valid() && server.Wire() == BroadcastAll(start, sent)
    {
      sent := Send(CellUpdate(key, cell), start, []);
      sent := BroadcastProgress(start, sent);
    }

    /** The cell update, and the health event if some attempt reached a container. */
    method ResultCell(key: Key, patch: Patch, attempts: seq<TaskAttempt>, ghost start: Net)
      returns (ghost sent: seq<Event>)
      requires Valid() && server.Wire() == start
      modifies state, server
      ensures Valid() && state.Now() == Update(old(state.Now()), key, patch)
      ensures sent == CellEvents(old(state.Now()), key, patch) + HealthEvents(attempts)
      ensures server.Wire() == BroadcastAll(start, sent)
    {
      sent := PatchCell(key, patch, start);
      var broadcasted := AnyRecords(attempts);
      if broadcasted { sent := Send(ContainerHealth, start, sent); }
    }

    method PatchCell(key: Key, patch: Patch, ghost start: Net) returns (ghost sent: seq<Event>)
      requires Valid() && server.Wire() == start
      modifies state, server
      ensures Valid() && state.Now() == Update(old(state.Now()), key, patch)
      ensures sent == CellEvents(old(state.Now()), key, patch)
      ensures server.Wire() == BroadcastAll(start, sent)
    {
      sent := [];
      UpdateValid(state.Now(), key, patch);
      var cell := state.UpdateCell(key, patch);
      if cell.Some? { sent := Send(CellUpdate(key, cell.value), start, sent); }
    }

    method RecordCost(variant: string, cost: real, ghost start: Net, ghost sent: seq<Event>)
      returns (ghost more: seq<Event>)
      requires Valid() && server.Wire() == BroadcastAll(start, sent)
      modifies this, state, server
      ensures
        var r := AfterCost(old(state.Now()), old(Fields()), variant, cost);
        && Valid() && server.Wire() == BroadcastAll(start, more)
        && state.Now() == r.board && Fields() == r.bridge && more == sent + r.sent
    {
      if cost > 0.0 {
        cumulativeCost := cumulativeCost + cost;
        more := BroadcastCost(CostPoint(variant, cost, cumulativeCost), start, sent);
      } else {
        more := sent;
      }
    }

    method BroadcastCost(point: CostPoint, ghost start: Net, ghost sent: seq<Event>) returns (ghost more: seq<Event>)
      requires Valid() && server.Wire() == BroadcastAll(start, sent)
      modifies state, server
      ensures Valid() && state.Now() == AddPoint(old(state.Now()), point) && more == sent + [CostAdded(point)]
      ensures server.Wire() == BroadcastAll(start, more)
    {
      state.AddCostPoint(point);
      more := Send(CostAdded(point), start, sent);
    }

    method BroadcastTotals(ghost start: Net, ghost sent: seq<Event>) returns (ghost more: seq<Event>)
      requires Valid() && server.Wire() == BroadcastAll(start, sent)
      modifies server
      ensures more == sent + Totals(state.Now())
      ensures server.Wire().Valid() && server.Wire() == BroadcastAll(start, more)
    {
      var stats := state.RecalculateModelStats();
      more := Send(ModelStatistics(stats), start, sent);
      more := BroadcastProgress(start, more);
      TwoMore(sent, ModelStatistics(stats), Progress(ProgressOf(state.Now())));
    }

    method OnResultEvent(r: TaskResult)
      requires Valid()
      modifies this, state, server
      ensures Valid() && Now() == Emit(old(Now()), OnResult(old(Now()).board, old(Fields()), r))
    {
      if r.infraSynthesized { return; }
      ghost var b, br, start := state.Now(), Fields(), server.Wire();
      var variant := if r.variantId != "" then r.variantId else r.llmModel;
      var key := CellKey(r.taskId, variant, currentRun);
      var cost := SumCosts(r.attempts);
      var patch := Patch(if r.success then Pass else Fail,
                         Some(if r.passedAttempt.Some? then r.passedAttempt.value else |r.attempts|),
                         Some(cost), r.details);
      ghost var sent := ResultCell(key, patch, r.attempts, start);
      sent := RecordCost(variant, cost, start, sent);
      sent := BroadcastTotals(start, sent);
      assert sent == OnResult(b, br, r).sent;
    }

    static method SumCosts(attempts: seq<TaskAttempt>) returns (cost: real)
      ensures cost == TotalCost(attempts)
    {
      cost := 0.0;
      for i := 0 to |attempts|
        invariant cost == TotalCost(attempts[..i])
      {
        assert attempts[..i + 1][..i] == attempts[..i];
        cost := cost + attempts[i].cost;
      }
      assert attempts[..|attempts|] == attempts;
    }

    static method AnyRecords(attempts: seq<TaskAttempt>) returns (any: bool)
      ensures any == AnyHealth(attempts)
    {
      any := false;
      for i := 0 to |attempts|
        invariant any <==> exists j :: 0 <= j < i && attempts[j].recordsHealth
      {
        if attempts[i].recordsHealth { any := true; }
      }
    }

    method OnErrorEvent(e: BenchEvent)
      requires Valid() && e.ErrorRaised?
      modifies state, server
      ensures Valid() && Now() == Emit(old(Now()), OnError(old(Now()).board, Fields(), e))
    {
      if e.taskId == "" || e.model == "" { return; }
      ghost var sent := ErrorEvents(e, server.Wire());
    }

    method ErrorEvents(e: BenchEvent, ghost start: Net) returns (ghost sent: seq<Event>)
      requires Valid() && e.ErrorRaised? && e.taskId != "" && e.model != "" && server.Wire() == start
      modifies state, server
      ensures
        var r := OnError(old(state.Now()), Fields(), e);
        state.Now() == r.board && sent == r.sent && r.bridge == Fields()
      ensures Valid() && server.Wire() == BroadcastAll(start, sent)
    {
      var key, patch := CellKey(e.taskId, e.model, currentRun), Patch(Failed, None, None, e.details);
      ErrorReaction(state.Now(), Fields(), e);
      sent := ErrorCell(key, patch, e.namesContainer, start);
      sent := BroadcastProgress(start, sent);
    }

    /** The cell update, and the health event if the error names a container. */
    method ErrorCell(key: Key, patch: Patch, namesContainer: bool, ghost start: Net) returns (ghost sent: seq<Event>)
      requires Valid() && server.Wire() == start
      modifies state, server
      ensures Valid() && state.Now() == Update(old(state.Now()), key, patch)
      ensures sent == CellEvents(old(state.Now()), key, patch) + if namesContainer then [ContainerHealth] else []
      ensures server.Wire() == BroadcastAll(start, sent)
    {
      sent := PatchCell(key, patch, start);
      if namesContainer { sent := Send(ContainerHealth, start, sent); }
    }

    /** The orchestrator's own counts of running calls and queued compiles replace the computed ones. */
    method OnProgressEvent(calls: nat, queue: nat)
      requires Valid()
      modifies server
      ensures Valid() && Now() == Emit(old(Now()), OnProgress(old(Now()).board, Fields(), calls, queue))
    {
      var p := state.GetProgress();
      p := p.(activeLLMCalls := calls, compileQueueLength := queue);
      ghost var sent := Send(Progress(p), server.Wire(), []);
    }

    method OnRetryStarted()
      requires Valid()
      modifies server
      ensures Valid() && Now() == Emit(old(Now()), React(old(Now()).board, Fields(), InfraRetryStarted))
    {
      ghost var start := server.Wire();
      ghost var sent := Send(ContainerHealth, start, []);
      sent := Send(InfraRetry, start, sent);
      assert sent == [ContainerHealth, InfraRetry];
    }

    method OnRetryEnded()
      requires Valid()
      modifies server
      ensures Valid() && Now() == Emit(old(Now()), React(old(Now()).board, Fields(), InfraRetryEnded))
    {
      ghost var sent := Send(InfraRetry, server.Wire(), []);
    }

    method HandleEvent(e: BenchEvent)
      requires Valid()
      modifies this, state, server
      ensures Valid() && Now() == Apply(old(Now()), Orchestrator(e))
    {
      match e
      case LlmStarted(t, m, n) => ChangePhase(t, m, Patch(Llm, Some(n), None, map[]));
      case CompileStarted(t, m) => ChangePhase(t, m, Patch(Compiling, None, None, map[]));
      case CompileCompleted(t, m, success) =>
        if !success {
          ChangePhase(t, m, Patch(CompileError, None, None, map[]));
        } else {
          ChangePhase(t, m, Patch(Testing, None, None, map[]));
        }
      case ResultArrived(r) => OnResultEvent(r);
      case ProgressReported(calls, queue) => OnProgressEvent(calls, queue);
      case ErrorRaised(_, _, _, _) => OnErrorEvent(e);
      case InfraRetryStarted => OnRetryStarted();
      case InfraRetryEnded => OnRetryEnded();
      case Noise =>
    }

    method SetRunNumber(run: nat)
      requires Valid()
      modifies this, state, server
      ensures Valid() && Now() == Apply(old(Now()), SetRun(run))
    {
      ghost var b, start := state.Now(), server.Wire();
      currentRun := run;
      state.InitializeCells(state.taskIds, state.models, run);
      SetRowsValid(b.(currentRun := run), b.taskIds, b.models, run);
      ghost var sent := Send(FullState(state.Now().FullState()), start, []);
    }

    method MarkRunComplete()
      requires Valid()
      modifies state, server
      ensures Valid() && Now() == Apply(old(Now()), MarkComplete)
    {
      ghost var start := server.Wire();
      state.MarkComplete();
      ghost var sent := Send(BenchmarkComplete, start, []);
    }

    /** The ticker of `attachPool`. */
    method OnTick(snapshot: int)
      requires Valid()
      modifies this, server
      ensures Valid() && Now() == Apply(old(Now()), PoolTick(snapshot))
    {
      ghost var start := server.Wire();
      latestPool := Some(snapshot);
      ghost var sent := Send(PoolSnapshot(snapshot), start, []);
    }
  }
}
