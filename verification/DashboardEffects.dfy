/** What each call of the bridge leaves on the board, in the bridge and on the wire, field by field. */
module DashboardEffects {
  import opened Wrappers
  import opened DashboardState
  import opened DashboardStats
  import opened DashboardReplica

  /** No cell but the one under `key` changes, and of the rest only the cost totals may. */
  ghost predicate OnlyCell(b: Board, c: Board, key: Key) {
    && c == b.(cells := c.cells, costHistory := c.costHistory, totalCost := c.totalCost)
    && c.cells.Keys == b.cells.Keys
    && forall k :: k in b.cells && k != key ==> c.cells[k] == b.cells[k]
  }

  ghost predicate SameCosts(b: Board, c: Board) {
    c.costHistory == b.costHistory && c.totalCost == b.totalCost
  }

  /** What the handlers of a phase change do with the cell's new content. */
  ghost predicate PhaseDone(b: Board, br: BridgeState, r: Reaction, key: Key, cell: Cell) {
    && OnlyCell(b, r.board, key) && SameCosts(b, r.board) && r.bridge == br
    && (key in b.cells ==>
          && r.board.cells[key] == cell && r.board.Valid()
          && r.sent == [CellUpdate(key, cell), Progress(ProgressOf(r.board))])
    && (key !in b.cells ==> r.sent == [])
  }

  lemma UpdateEffect(b: Board, key: Key, patch: Patch)
    requires b.Valid()
    ensures
      var c := Update(b, key, patch);
      && c.Valid() && OnlyCell(b, c, key) && SameCosts(b, c)
      && (if key in b.cells then c.cells[key] == Assign(b.cells[key], patch) else c == b)
  {
    UpdateValid(b, key, patch);
  }

  lemma PhaseEffect(b: Board, br: BridgeState, key: Key, patch: Patch)
    requires b.Valid()
    ensures
      var r := OnPhase(b, br, key, patch);
      if key in b.cells then PhaseDone(b, br, r, key, Assign(b.cells[key], patch)) else r == Reaction(b, br, [])
  {
    UpdateEffect(b, key, patch);
    PhaseSent(b, br, key, patch);
  }

  lemma NothingMore(details: map<string, string>)
    ensures details + map[] == details
  {}

  /** A started call puts its cell in the call phase of its attempt. */
  lemma CallStarted(b: Board, br: BridgeState, taskId: string, model: string, attempt: int)
    requires b.Valid()
    ensures
      var r, key := React(b, br, LlmStarted(taskId, model, attempt)), CellKey(taskId, model, br.currentRun);
      if key in b.cells then PhaseDone(b, br, r, key, b.cells[key].(state := Llm, attempt := attempt))
      else r == Reaction(b, br, [])
  {
    var key := CellKey(taskId, model, br.currentRun);
    PhaseEffect(b, br, key, Patch(Llm, Some(attempt), None, map[]));
    if key in b.cells { NothingMore(b.cells[key].details); }
  }

  lemma CompileBegun(b: Board, br: BridgeState, taskId: string, model: string)
    requires b.Valid()
    ensures
      var r, key := React(b, br, CompileStarted(taskId, model)), CellKey(taskId, model, br.currentRun);
      if key in b.cells then PhaseDone(b, br, r, key, b.cells[key].(state := Compiling))
      else r == Reaction(b, br, [])
  {
    var key := CellKey(taskId, model, br.currentRun);
    PhaseEffect(b, br, key, Patch(Compiling, None, None, map[]));
    if key in b.cells { NothingMore(b.cells[key].details); }
  }

  /** A compile that succeeded leads to the tests. */
  lemma CompileDone(b: Board, br: BridgeState, taskId: string, model: string, success: bool)
    requires b.Valid()
    ensures
      var r, key := React(b, br, CompileCompleted(taskId, model, success)), CellKey(taskId, model, br.currentRun);
      if key in b.cells then PhaseDone(b, br, r, key, b.cells[key].(state := if success then Testing else CompileError))
      else r == Reaction(b, br, [])
  {
    var key := CellKey(taskId, model, br.currentRun);
    PhaseEffect(b, br, key, Patch(if success then Testing else CompileError, None, None, map[]));
    if key in b.cells { NothingMore(b.cells[key].details); }
  }

  // ---------- Results ----------

  /** `sum` is the cost of all attempts. */
  ghost predicate Summed(attempts: seq<TaskAttempt>, sums: seq<real>) {
    && |sums| == |attempts| + 1 && sums[0] == 0.0
    && forall i :: 0 <= i < |attempts| ==> sums[i + 1] == sums[i] + attempts[i].cost
  }

  lemma {:induction false} SumIsTotal(attempts: seq<TaskAttempt>) returns (sums: seq<real>)
    ensures Summed(attempts, sums) && sums[|attempts|] == TotalCost(attempts)
  {
    if attempts == [] {
      sums := [0.0];
    } else {
      var n := |attempts| - 1;
      var before := SumIsTotal(attempts[..n]);
      sums := before + [TotalCost(attempts)];
    }
  }

  /** What a result that no infrastructure failure stands behind makes of its cell. */
  function ResultCell(old_: Cell, t: TaskResult, cost: real): Cell {
    old_.(state := if t.success then Pass else Fail,
         attempt := if t.passedAttempt.Some? then t.passedAttempt.value else |t.attempts|,
         cost := Some(cost),
         details := old_.details + t.details)
  }

  /** A positive cost adds one point, which continues the running total. */
  ghost predicate CostCounted(b: Board, br: BridgeState, r: Reaction, model: string, cost: real) {
    if cost > 0.0 then
      var point := CostPoint(model, cost, br.cumulativeCost + cost);
      && r.board.costHistory == b.costHistory + [point] && r.board.totalCost == br.cumulativeCost + cost
      && r.bridge == br.(cumulativeCost := br.cumulativeCost + cost)
    else SameCosts(b, r.board) && r.bridge == br
  }

  /** A result marks its cell passed exactly if it succeeded, with the attempt that passed or else the
      number of attempts, and the cost of all of them. */
  lemma ResultEffect(b: Board, br: BridgeState, t: TaskResult) returns (sums: seq<real>)
    requires b.Valid()
    ensures Summed(t.attempts, sums)
    ensures
      var r, cost := React(b, br, ResultArrived(t)), sums[|t.attempts|];
      var model := if t.variantId == "" then t.llmModel else t.variantId;
      var key := CellKey(t.taskId, model, br.currentRun);
      if t.infraSynthesized then r == Reaction(b, br, [])
      else
        && OnlyCell(b, r.board, key) && CostCounted(b, br, r, model, cost)
        && (key in b.cells ==> r.board.cells[key] == ResultCell(b.cells[key], t, cost))
  {
    sums := SumIsTotal(t.attempts);
    if !t.infraSynthesized {
      ResultBoard(b, br, t);
      ResultCounted(b, br, t);
    }
  }

  lemma ResultCounted(b: Board, br: BridgeState, t: TaskResult)
    requires b.Valid()
    ensures
      var r, cost := ResultCosts(b, br, t), TotalCost(t.attempts);
      var model := if t.variantId == "" then t.llmModel else t.variantId;
      var key := CellKey(t.taskId, model, br.currentRun);
      && OnlyCell(b, r.board, key) && CostCounted(b, br, r, model, cost)
      && (key in b.cells ==> r.board.cells[key] == ResultCell(b.cells[key], t, cost))
  {
    UpdateEffect(b, CellKey(t.taskId, Variant(t), br.currentRun), ResultPatch(t));
  }

  /** A result sends its cell, the health of the containers if some attempt worked on one, its cost if
      it has one, then the statistics and the progress. */
  lemma ResultSends(b: Board, br: BridgeState, t: TaskResult)
    requires b.Valid() && !t.infraSynthesized
    ensures
      var r := React(b, br, ResultArrived(t));
      var model := if t.variantId == "" then t.llmModel else t.variantId;
      var key := CellKey(t.taskId, model, br.currentRun);
      && r.board.Valid() && r.board.cells.Keys == b.cells.Keys
      && r.sent == CellSent(b, r.board, key) + HealthSent(t.attempts) + PointSent(b, r.board)
                   + [ModelStatistics(Stats(r.board)), Progress(ProgressOf(r.board))]
  {
    var key, patch, c := CellKey(t.taskId, Variant(t), br.currentRun), ResultPatch(t), ResultCosts(b, br, t);
    ResultBoard(b, br, t);
    PointAdded(b, br, t);
    PatchSent(b, c.board, key, patch);
    ResultParts(b, br, t, key, patch, c);
  }

  lemma PatchSent(b: Board, c: Board, key: Key, patch: Patch)
    requires b.Valid() && c.cells == Update(b, key, patch).cells
    ensures c.cells.Keys == b.cells.Keys && CellEvents(b, key, patch) == CellSent(b, c, key)
  {
    UpdateEffect(b, key, patch);
  }

  lemma ResultParts(b: Board, br: BridgeState, t: TaskResult, key: Key, patch: Patch, c: Reaction)
    requires b.Valid() && !t.infraSynthesized && c.board.Valid() && c == ResultCosts(b, br, t)
    requires key == CellKey(t.taskId, Variant(t), br.currentRun) && patch == ResultPatch(t)
    ensures OnResult(b, br, t).sent == CellEvents(b, key, patch) + HealthEvents(t.attempts) + c.sent + Totals(c.board)
  {}

  ghost function CellSent(b: Board, c: Board, key: Key): seq<Event>
    requires c.cells.Keys == b.cells.Keys
  {
    if key in b.cells then [CellUpdate(key, c.cells[key])] else []
  }

  ghost function HealthSent(attempts: seq<TaskAttempt>): seq<Event> {
    if exists i :: 0 <= i < |attempts| && attempts[i].recordsHealth then [ContainerHealth] else []
  }

  ghost function PointSent(b: Board, c: Board): seq<Event> {
    if |c.costHistory| > |b.costHistory| then [CostAdded(c.costHistory[|c.costHistory| - 1])] else []
  }

  lemma PointAdded(b: Board, br: BridgeState, t: TaskResult)
    requires b.Valid()
    ensures ResultCosts(b, br, t).sent == PointSent(b, ResultCosts(b, br, t).board)
    ensures ResultCosts(b, br, t).board.cells == Update(b, CellKey(t.taskId, Variant(t), br.currentRun),
                                                        ResultPatch(t)).cells
  {}

  // ---------- Errors and the other events ----------

  lemma ErrorEffect(b: Board, br: BridgeState, taskId: string, model: string, details: map<string, string>, named: bool)
    requires b.Valid()
    ensures
      var r, key := React(b, br, ErrorRaised(taskId, model, details, named)), CellKey(taskId, model, br.currentRun);
      if taskId == "" || model == "" then r == Reaction(b, br, [])
      else
        && OnlyCell(b, r.board, key) && SameCosts(b, r.board) && r.bridge == br && r.board.Valid()
        && (key in b.cells ==>
              r.board.cells[key] == b.cells[key].(state := Failed, details := b.cells[key].details + details))
        && r.sent == CellSent(b, r.board, key) + (if named then [ContainerHealth] else [])
           + [Progress(ProgressOf(r.board))]
  {
    if taskId != "" && model != "" {
      ErrorReaction(b, br, ErrorRaised(taskId, model, details, named));
      UpdateEffect(b, CellKey(taskId, model, br.currentRun), Patch(Failed, None, None, details));
    }
  }

  /** Reported counts replace the two that the board computes; the others change nothing. */
  lemma OtherEffects(b: Board, br: BridgeState, calls: nat, queue: nat)
    requires b.Valid()
    ensures
      var p := ProgressOf(b);
      React(b, br, ProgressReported(calls, queue))
      == Reaction(b, br, [Progress(ProgressInfo(p.totalCells, p.completedCells, calls, queue, p.totalCost))])
    ensures React(b, br, InfraRetryStarted) == Reaction(b, br, [ContainerHealth, InfraRetry])
    ensures React(b, br, InfraRetryEnded) == Reaction(b, br, [InfraRetry])
    ensures React(b, br, Noise) == Reaction(b, br, [])
  {}

  /** After a run starts, board and bridge are at that run, and its cells are there and untouched. */
  lemma RunStarted(b: Board, br: BridgeState, run: nat, taskId: string, model: string)
    requires taskId in b.taskIds && model in b.models
    ensures
      var r, key := StartRun(b, br, run), CellKey(taskId, model, run);
      && r.board.currentRun == run && r.bridge == br.(currentRun := run)
      && key in r.board.cells && r.board.cells[key].state == Waiting && r.board.cells[key].attempt == 0
      && r.board.cells[key].cost == None && r.board.cells[key].details == map[]
      && r.sent == [FullState(View(r.board.cells, b.taskIds, b.models, run, b.costHistory, b.isRunning))]
  {
    SetRowsResets(b.(currentRun := run), b.taskIds, b.models, run);
    assert CellKey(taskId, model, run) in RunKeys(b.taskIds, b.models, run);
  }

  /** A pool snapshot is kept for later connections and sent. */
  lemma SnapshotTaken(b: Board, br: BridgeState, snapshot: int)
    ensures
      var r := Tick(b, br, snapshot);
      r.board == b && r.bridge == br.(latestPool := Some(snapshot)) && r.sent == [PoolSnapshot(snapshot)]
  {}

  lemma RunFinished(b: Board, br: BridgeState)
    ensures
      var r := Finish(b, br);
      !r.board.isRunning && r.board == b.(isRunning := false) && r.bridge == br && r.sent == [BenchmarkComplete]
  {}
}
