/** The live dashboard as a replicated state machine: the event bridge (`cli/dashboard/bridge.ts`)
    changes the board and broadcasts, the server (`cli/dashboard/server.ts`) carries the events to
    the connected streams, and the browser (`cli/dashboard/page.ts`) folds what it receives. */
module DashboardReplica {
  import opened Wrappers
  import opened DashboardState
  import opened DashboardStats

  // ---------- Events ----------

  datatype Event =
    | FullState(view: View)
    | CellUpdate(key: Key, cell: Cell)
    | Progress(info: ProgressInfo)
    | ModelStatistics(stats: seq<ModelStats>)
    | CostAdded(point: CostPoint)
    | PoolSnapshot(snapshot: int)
    | ContainerHealth
    | HealthSnapshot
    | InfraRetry
    | BenchmarkComplete

  /** What the page keeps: the state, null before the first full state, and the pool it shows. */
  datatype Browser = Browser(state: Option<View>, pool: Option<int>)

  /** `handleSSEEvent` */
  function Handle(c: Browser, e: Event): Browser {
    match e
    case FullState(view) => c.(state := Some(view))
    case ContainerHealth => c
    case HealthSnapshot => c
    case PoolSnapshot(snapshot) => c.(pool := Some(snapshot))
    case _ =>
      if c.state.None? then c
      else
        var s := c.state.value;
        match e
        case CellUpdate(key, cell) => c.(state := Some(s.(cells := s.cells[key := cell])))
        case CostAdded(point) => c.(state := Some(s.(costHistory := s.costHistory + [point])))
        case BenchmarkComplete => c.(state := Some(s.(isRunning := false)))
        case _ => c
  }

  function Fold(c: Browser, es: seq<Event>): Browser {
    if es == [] then c else Handle(Fold(c, es[..|es| - 1]), es[|es| - 1])
  }

  lemma {:induction false} FoldConcat(c: Browser, a: seq<Event>, b: seq<Event>)
    ensures Fold(c, a + b) == Fold(Fold(c, a), b)
    decreases |b|
  {
    if b == [] {
      assert a + b == a;
    } else {
      FoldConcat(c, a, b[..|b| - 1]);
      assert (a + b)[..|a + b| - 1] == a + b[..|b| - 1];
    }
  }

  // ---------- The bridge ----------

  datatype BridgeState = BridgeState(currentRun: nat, cumulativeCost: real, latestPool: Option<int>)

  datatype TaskAttempt = TaskAttempt(cost: real, recordsHealth: bool)

  datatype TaskResult = TaskResult(taskId: string, variantId: string, llmModel: string, infraSynthesized: bool,
                                   success: bool, attempts: seq<TaskAttempt>, passedAttempt: Option<int>,
                                   details: map<string, string>)

  /** The orchestrator's events; `Noise` stands for the ones the bridge ignores. */
  datatype BenchEvent =
    | LlmStarted(taskId: string, model: string, attempt: int)
    | CompileStarted(taskId: string, model: string)
    | CompileCompleted(taskId: string, model: string, success: bool)
    | ResultArrived(result: TaskResult)
    | ProgressReported(activeLLMCalls: nat, compileQueueLength: nat)
    | ErrorRaised(taskId: string, model: string, details: map<string, string>, namesContainer: bool)
    | InfraRetryStarted
    | InfraRetryEnded
    | Noise

  /** A handler's effect: the new fields and what it broadcasts, in order. */
  datatype Reaction = Reaction(board: Board, bridge: BridgeState, sent: seq<Event>)

  function CellEvents(b: Board, key: Key, patch: Patch): seq<Event> {
    if key in b.cells then [CellUpdate(key, Assign(b.cells[key], patch))] else []
  }

  function WithProgress(b: Board, es: seq<Event>): seq<Event>
    requires b.Valid()
  {
    es + [Progress(ProgressOf(b))]
  }

  /** The handlers of phase changes stay silent when the cell is unknown. */
  function OnPhase(b: Board, br: BridgeState, key: Key, patch: Patch): Reaction
    requires b.Valid()
  {
    UpdateValid(b, key, patch);
    var c := Update(b, key, patch);
    Reaction(c, br, if key in b.cells then WithProgress(c, CellEvents(b, key, patch)) else [])
  }

  lemma TwoMore(sent: seq<Event>, a: Event, b: Event)
    ensures sent + [a] + [b] == sent + [a, b]
  {}

  lemma PhaseSent(b: Board, br: BridgeState, key: Key, patch: Patch)
    requires b.Valid()
    ensures Update(b, key, patch).Valid()
    ensures OnPhase(b, br, key, patch).sent ==
      if key in b.cells then [CellUpdate(key, Assign(b.cells[key], patch)), Progress(ProgressOf(Update(b, key, patch)))]
      else []
  {
    UpdateValid(b, key, patch);
  }

  function TotalCost(attempts: seq<TaskAttempt>): real {
    if attempts == [] then 0.0
    else TotalCost(attempts[..|attempts| - 1]) + attempts[|attempts| - 1].cost
  }

  function Variant(r: TaskResult): string {
    if r.variantId != "" then r.variantId else r.llmModel
  }

  function ResultPatch(r: TaskResult): Patch {
    Patch(if r.success then Pass else Fail,
          Some(if r.passedAttempt.Some? then r.passedAttempt.value else |r.attempts|),
          Some(TotalCost(r.attempts)), r.details)
  }

  predicate AnyHealth(attempts: seq<TaskAttempt>) {
    exists i :: 0 <= i < |attempts| && attempts[i].recordsHealth
  }

  /** A positive cost extends the history and both running totals. */
  function AfterCost(b: Board, br: BridgeState, model: string, cost: real): Reaction {
    var point := CostPoint(model, cost, br.cumulativeCost + cost);
    if cost > 0.0 then Reaction(AddPoint(b, point), br.(cumulativeCost := point.cumulativeCost), [CostAdded(point)])
    else Reaction(b, br, [])
  }

  function HealthEvents(attempts: seq<TaskAttempt>): seq<Event> {
    if AnyHealth(attempts) then [ContainerHealth] else []
  }

  function Totals(b: Board): seq<Event>
    requires b.Valid()
  {
    [ModelStatistics(Stats(b)), Progress(ProgressOf(b))]
  }

  /** The cell patched and the cost added. */
  function ResultCosts(b: Board, br: BridgeState, r: TaskResult): Reaction {
    AfterCost(Update(b, CellKey(r.taskId, Variant(r), br.currentRun), ResultPatch(r)), br, Variant(r),
              TotalCost(r.attempts))
  }

  function OnResult(b: Board, br: BridgeState, r: TaskResult): Reaction
    requires b.Valid()
  {
    if r.infraSynthesized then Reaction(b, br, [])
    else
      var key, patch := CellKey(r.taskId, Variant(r), br.currentRun), ResultPatch(r);
      UpdateValid(b, key, patch);
      var c := ResultCosts(b, br, r);
      Reaction(c.board, c.bridge, CellEvents(b, key, patch) + HealthEvents(r.attempts) + c.sent + Totals(c.board))
  }

  function OnError(b: Board, br: BridgeState, e: BenchEvent): Reaction
    requires b.Valid() && e.ErrorRaised?
  {
    if e.taskId == "" || e.model == "" then Reaction(b, br, [])
    else
      var key := CellKey(e.taskId, e.model, br.currentRun);
      var patch := Patch(Failed, None, None, e.details);
      UpdateValid(b, key, patch);
      var c := Update(b, key, patch);
      Reaction(c, br, WithProgress(c, CellEvents(b, key, patch) + if e.namesContainer then [ContainerHealth] else []))
  }

  function OnProgress(b: Board, br: BridgeState, calls: nat, queue: nat): Reaction
    requires b.Valid()
  {
    Reaction(b, br, [Progress(ProgressOf(b).(activeLLMCalls := calls, compileQueueLength := queue))])
  }

  /** What an error with a task and a model does. */
  lemma ErrorReaction(b: Board, br: BridgeState, e: BenchEvent)
    requires b.Valid() && e.ErrorRaised? && e.taskId != "" && e.model != ""
    ensures
      var key, patch := CellKey(e.taskId, e.model, br.currentRun), Patch(Failed, None, None, e.details);
      var r, c := OnError(b, br, e), Update(b, key, patch);
      && c.Valid() && r.board == c && r.bridge == br
      && r.sent == CellEvents(b, key, patch) + (if e.namesContainer then [ContainerHealth] else [])
         + [Progress(ProgressOf(c))]
  {
    UpdateValid(b, CellKey(e.taskId, e.model, br.currentRun), Patch(Failed, None, None, e.details));
  }

  /** `handleEvent` */
  function React(b: Board, br: BridgeState, e: BenchEvent): Reaction
    requires b.Valid()
  {
    match e
    case LlmStarted(t, m, n) =>
      OnPhase(b, br, CellKey(t, m, br.currentRun), Patch(Llm, Some(n), None, map[]))
    case CompileStarted(t, m) =>
      OnPhase(b, br, CellKey(t, m, br.currentRun), Patch(Compiling, None, None, map[]))
    case CompileCompleted(t, m, ok) =>
      OnPhase(b, br, CellKey(t, m, br.currentRun), Patch(if ok then Testing else CompileError, None, None, map[]))
    case ResultArrived(r) => OnResult(b, br, r)
    case ProgressReported(calls, queue) => OnProgress(b, br, calls, queue)
    case ErrorRaised(_, _, _, _) => OnError(b, br, e)
    case InfraRetryStarted => Reaction(b, br, [ContainerHealth, InfraRetry])
    case InfraRetryEnded => Reaction(b, br, [InfraRetry])
    case Noise => Reaction(b, br, [])
  }

  function StartRun(b: Board, br: BridgeState, run: nat): Reaction {
    var c := Initialize(b, b.taskIds, b.models, run);
    Reaction(c, br.(currentRun := run), [FullState(c.FullState())])
  }

  function Finish(b: Board, br: BridgeState): Reaction {
    Reaction(b.(isRunning := false), br, [BenchmarkComplete])
  }

  function Tick(b: Board, br: BridgeState, snapshot: int): Reaction {
    Reaction(b, br.(latestPool := Some(snapshot)), [PoolSnapshot(snapshot)])
  }

  // ---------- The browser tracks every mutation ----------

  /** The page holds exactly what the server holds. */
  ghost predicate Agrees(c: Browser, b: Board, br: BridgeState) {
    c.state == Some(b.FullState()) && (br.latestPool.Some? ==> c.pool == br.latestPool)
  }

  ghost predicate Tracks(b: Board, br: BridgeState, r: Reaction) {
    forall c :: Agrees(c, b, br) ==> Agrees(Fold(c, r.sent), r.board, r.bridge)
  }

  lemma FoldOne(c: Browser, e: Event)
    ensures Fold(c, [e]) == Handle(c, e)
  {
    assert [e][..0] == [];
    assert Fold(c, [e][..0]) == c;
  }

  lemma FoldCons(c: Browser, es: seq<Event>, e: Event)
    ensures Fold(c, es + [e]) == Handle(Fold(c, es), e)
  {
    assert (es + [e])[..|es|] == es;
  }

  lemma CellEventsTrack(c: Browser, b: Board, key: Key, patch: Patch)
    requires c.state == Some(b.FullState())
    ensures Fold(c, CellEvents(b, key, patch)) == c.(state := Some(Update(b, key, patch).FullState()))
  {
    if key in b.cells { FoldOne(c, CellUpdate(key, Assign(b.cells[key], patch))); }
  }

  /** Events that change nothing the page keeps. */
  predicate Neutral(e: Event) {
    e.Progress? || e.ModelStatistics? || e.ContainerHealth? || e.InfraRetry?
  }

  lemma {:induction false} NeutralFold(c: Browser, es: seq<Event>)
    requires forall e :: e in es ==> Neutral(e)
    ensures Fold(c, es) == c
    decreases |es|
  {
    if es != [] {
      assert es[|es| - 1] in es;
      NeutralFold(c, es[..|es| - 1]);
    }
  }

  lemma CellThenNeutral(c: Browser, b: Board, key: Key, patch: Patch, rest: seq<Event>)
    requires c.state == Some(b.FullState()) && forall e :: e in rest ==> Neutral(e)
    ensures Fold(c, CellEvents(b, key, patch) + rest) == c.(state := Some(Update(b, key, patch).FullState()))
  {
    CellEventsTrack(c, b, key, patch);
    FoldConcat(c, CellEvents(b, key, patch), rest);
    NeutralFold(Fold(c, CellEvents(b, key, patch)), rest);
  }

  lemma PhaseTracks(c: Browser, b: Board, br: BridgeState, key: Key, patch: Patch)
    requires b.Valid() && Agrees(c, b, br)
    ensures
      var r := OnPhase(b, br, key, patch);
      Agrees(Fold(c, r.sent), r.board, r.bridge)
  {
    var r := OnPhase(b, br, key, patch);
    if key in b.cells {
      CellThenNeutral(c, b, key, patch, r.sent[|CellEvents(b, key, patch)|..]);
      assert r.sent == CellEvents(b, key, patch) + r.sent[|CellEvents(b, key, patch)|..];
    }
  }

  lemma ErrorTracks(c: Browser, b: Board, br: BridgeState, e: BenchEvent)
    requires b.Valid() && Agrees(c, b, br) && e.ErrorRaised?
    ensures
      var r := OnError(b, br, e);
      Agrees(Fold(c, r.sent), r.board, r.bridge)
  {
    var r := OnError(b, br, e);
    if e.taskId != "" && e.model != "" {
      var key, patch := CellKey(e.taskId, e.model, br.currentRun), Patch(Failed, None, None, e.details);
      var rest := (if e.namesContainer then [ContainerHealth] else []) + [Progress(ProgressOf(r.board))];
      CellThenNeutral(c, b, key, patch, rest);
      assert r.sent == CellEvents(b, key, patch) + rest;
    }
  }

  /** The events of a result: a cell, then health, then at most one cost point, then totals. */
  lemma ResultFold(c: Browser, b: Board, key: Key, patch: Patch, health: seq<Event>, points: seq<CostPoint>,
                   totals: seq<Event>)
    requires c.state == Some(b.FullState()) && |points| <= 1
    requires forall e :: e in health || e in totals ==> Neutral(e)
    ensures
      var u := Update(b, key, patch);
      var sent := CellEvents(b, key, patch) + health + (if points == [] then [] else [CostAdded(points[0])]) + totals;
      Fold(c, sent) == c.(state := Some(u.(costHistory := u.costHistory + points).FullState()))
  {
    var es := CellEvents(b, key, patch) + health;
    var cost := if points == [] then [] else [CostAdded(points[0])];
    CellThenNeutral(c, b, key, patch, health);
    FoldConcat(c, es, cost);
    FoldConcat(c, es + cost, totals);
    NeutralFold(Fold(c, es + cost), totals);
    if points == [] {
      var u := Update(b, key, patch);
      assert es + cost == es && u.costHistory + points == u.costHistory;
    } else {
      FoldOne(Fold(c, es), CostAdded(points[0]));
      assert points == [points[0]];
    }
  }

  lemma ResultTracks(c: Browser, b: Board, br: BridgeState, t: TaskResult)
    requires b.Valid() && Agrees(c, b, br)
    ensures
      var r := OnResult(b, br, t);
      Agrees(Fold(c, r.sent), r.board, r.bridge)
  {
    var r := OnResult(b, br, t);
    if !t.infraSynthesized {
      var cost := TotalCost(t.attempts);
      var points := if cost > 0.0 then [CostPoint(Variant(t), cost, br.cumulativeCost + cost)] else [];
      ResultFold(c, b, CellKey(t.taskId, Variant(t), br.currentRun), ResultPatch(t),
                 if AnyHealth(t.attempts) then [ContainerHealth] else [], points,
                 [ModelStatistics(Stats(r.board)), Progress(ProgressOf(r.board))]);
      var u := Update(b, CellKey(t.taskId, Variant(t), br.currentRun), ResultPatch(t));
      if points == [] { assert u.costHistory + points == u.costHistory; }
      assert r.board.FullState() == u.(costHistory := u.costHistory + points).FullState();
    }
  }

  lemma ReactTracksOne(c: Browser, b: Board, br: BridgeState, e: BenchEvent)
    requires b.Valid() && Agrees(c, b, br)
    ensures
      var r := React(b, br, e);
      Agrees(Fold(c, r.sent), r.board, r.bridge)
  {
    match e
    case LlmStarted(t, m, n) => PhaseTracks(c, b, br, CellKey(t, m, br.currentRun), Patch(Llm, Some(n), None, map[]));
    case CompileStarted(t, m) =>
      PhaseTracks(c, b, br, CellKey(t, m, br.currentRun), Patch(Compiling, None, None, map[]));
    case CompileCompleted(t, m, ok) =>
      PhaseTracks(c, b, br, CellKey(t, m, br.currentRun),
                  Patch(if ok then Testing else CompileError, None, None, map[]));
    case ResultArrived(t) => ResultTracks(c, b, br, t);
    case ErrorRaised(_, _, _, _) => ErrorTracks(c, b, br, e);
    case _ => NeutralFold(c, React(b, br, e).sent);
  }

  /** No handler but `onResult` touches the costs, and none leaves the board invalid. */
  ghost predicate KeepsCosts(b: Board, br: BridgeState, r: Reaction) {
    && r.board.Valid()
    && r.board.costHistory == b.costHistory && r.board.totalCost == b.totalCost
    && r.bridge.cumulativeCost == br.cumulativeCost
  }

  lemma PhaseKeepsCosts(b: Board, br: BridgeState, key: Key, patch: Patch)
    requires b.Valid()
    ensures KeepsCosts(b, br, OnPhase(b, br, key, patch))
  {
    UpdateValid(b, key, patch);
  }

  lemma ErrorKeepsCosts(b: Board, br: BridgeState, e: BenchEvent)
    requires b.Valid() && e.ErrorRaised?
    ensures KeepsCosts(b, br, OnError(b, br, e))
  {
    UpdateValid(b, CellKey(e.taskId, e.model, br.currentRun), Patch(Failed, None, None, e.details));
  }

  lemma OthersKeepCosts(b: Board, br: BridgeState, e: BenchEvent)
    requires b.Valid() && !e.ResultArrived?
    ensures KeepsCosts(b, br, React(b, br, e))
  {
    match e
    case LlmStarted(t, m, n) => PhaseKeepsCosts(b, br, CellKey(t, m, br.currentRun), Patch(Llm, Some(n), None, map[]));
    case CompileStarted(t, m) =>
      PhaseKeepsCosts(b, br, CellKey(t, m, br.currentRun), Patch(Compiling, None, None, map[]));
    case CompileCompleted(t, m, ok) =>
      PhaseKeepsCosts(b, br, CellKey(t, m, br.currentRun),
                      Patch(if ok then Testing else CompileError, None, None, map[]));
    case ErrorRaised(_, _, _, _) => ErrorKeepsCosts(b, br, e);
    case _ =>
  }

  lemma ResultBoard(b: Board, br: BridgeState, t: TaskResult)
    requires b.Valid() && !t.infraSynthesized
    ensures
      var r, c := OnResult(b, br, t), ResultCosts(b, br, t);
      c.board.Valid() && r.board == c.board && r.bridge == c.bridge
  {
    UpdateValid(b, CellKey(t.taskId, Variant(t), br.currentRun), ResultPatch(t));
  }

  lemma ReactValid(b: Board, br: BridgeState, e: BenchEvent)
    requires b.Valid()
    ensures React(b, br, e).board.Valid()
  {
    if !e.ResultArrived? {
      OthersKeepCosts(b, br, e);
    } else if !e.result.infraSynthesized {
      ResultBoard(b, br, e.result);
    }
  }

  /** Folding what a handler sends takes the old state to the new one, for every event. */
  lemma ReactTracks(b: Board, br: BridgeState, e: BenchEvent)
    requires b.Valid()
    ensures Tracks(b, br, React(b, br, e)) && React(b, br, e).board.Valid()
  {
    forall c | Agrees(c, b, br)
      ensures Agrees(Fold(c, React(b, br, e).sent), React(b, br, e).board, React(b, br, e).bridge)
    {
      ReactTracksOne(c, b, br, e);
    }
    ReactValid(b, br, e);
  }

  lemma StartRunTracks(b: Board, br: BridgeState, run: nat)
    requires b.Valid()
    ensures Tracks(b, br, StartRun(b, br, run)) && StartRun(b, br, run).board.Valid()
  {
    var b1 := b.(currentRun := run);
    SetRowsValid(b1, b.taskIds, b.models, run);
    forall c { FoldOne(c, StartRun(b, br, run).sent[0]); }
  }

  lemma FinishTracks(b: Board, br: BridgeState)
    ensures Tracks(b, br, Finish(b, br))
  {
    forall c { FoldOne(c, BenchmarkComplete); }
  }

  lemma TickTracks(b: Board, br: BridgeState, snapshot: int)
    ensures Tracks(b, br, Tick(b, br, snapshot))
  {
    forall c { FoldOne(c, PoolSnapshot(snapshot)); }
  }

  // ---------- Money ----------

  function SumOfPoints(points: seq<CostPoint>): real {
    if points == [] then 0.0 else SumOfPoints(points[..|points| - 1]) + points[|points| - 1].cost
  }

  /** The three running totals agree, and each point continues from the one before it. */
  ghost predicate MoneyOk(b: Board, br: BridgeState) {
    && br.cumulativeCost == b.totalCost == SumOfPoints(b.costHistory)
    && forall i :: 0 <= i < |b.costHistory| ==>
                     && b.costHistory[i].cost > 0.0
                     && b.costHistory[i].cumulativeCost == SumOfPoints(b.costHistory[..i + 1])
  }

  lemma SamePointsSameMoney(b: Board, u: Board, br: BridgeState)
    requires MoneyOk(b, br) && u.costHistory == b.costHistory && u.totalCost == b.totalCost
    ensures MoneyOk(u, br)
  {}

  lemma PointKeepsMoney(b: Board, br: BridgeState, point: CostPoint)
    requires MoneyOk(b, br) && point.cost > 0.0 && point.cumulativeCost == br.cumulativeCost + point.cost
    ensures MoneyOk(AddPoint(b, point), br.(cumulativeCost := point.cumulativeCost))
  {
    var before := b.costHistory;
    var points := before + [point];
    assert points[..|before|] == before;
    forall i | 0 <= i < |points|
      ensures points[i].cost > 0.0 && points[i].cumulativeCost == SumOfPoints(points[..i + 1])
    {
      if i < |before| {
        assert points[..i + 1] == before[..i + 1];
      } else {
        assert points[..i + 1] == points;
      }
    }
  }

  /** Every event keeps the cost totals in step; only a result with a positive cost moves them. */
  lemma ReactMoney(b: Board, br: BridgeState, e: BenchEvent)
    requires b.Valid() && MoneyOk(b, br)
    ensures MoneyOk(React(b, br, e).board, React(b, br, e).bridge)
    ensures
      var r := React(b, br, e);
      r.board.totalCost == b.totalCost +
        if e.ResultArrived? && !e.result.infraSynthesized && TotalCost(e.result.attempts) > 0.0
        then TotalCost(e.result.attempts) else 0.0
  {
    if !e.ResultArrived? {
      OthersKeepCosts(b, br, e);
    } else if !e.result.infraSynthesized {
      ResultMoney(b, br, e.result);
    }
  }

  lemma PointMoney(b: Board, br: BridgeState, u: Board, point: CostPoint, c: Board, cr: BridgeState)
    requires MoneyOk(b, br) && u.costHistory == b.costHistory && u.totalCost == b.totalCost
    requires point.cumulativeCost == br.cumulativeCost + point.cost
    requires c == if point.cost > 0.0 then AddPoint(u, point) else u
    requires cr == if point.cost > 0.0 then br.(cumulativeCost := point.cumulativeCost) else br
    ensures MoneyOk(c, cr) && c.totalCost == b.totalCost + if point.cost > 0.0 then point.cost else 0.0
  {
    SamePointsSameMoney(b, u, br);
    if point.cost > 0.0 { PointKeepsMoney(u, br, point); }
  }

  lemma ResultMoney(b: Board, br: BridgeState, t: TaskResult)
    requires b.Valid() && MoneyOk(b, br) && !t.infraSynthesized
    ensures
      var r := OnResult(b, br, t);
      var cost := TotalCost(t.attempts);
      MoneyOk(r.board, r.bridge) && r.board.totalCost == b.totalCost + if cost > 0.0 then cost else 0.0
  {
    ResultBoard(b, br, t);
    CostsMoney(b, br, t);
  }

  lemma CostsMoney(b: Board, br: BridgeState, t: TaskResult)
    requires b.Valid() && MoneyOk(b, br)
    ensures
      var c := ResultCosts(b, br, t);
      var cost := TotalCost(t.attempts);
      MoneyOk(c.board, c.bridge) && c.board.totalCost == b.totalCost + if cost > 0.0 then cost else 0.0
  {
    var cost, c := TotalCost(t.attempts), ResultCosts(b, br, t);
    var u := Update(b, CellKey(t.taskId, Variant(t), br.currentRun), ResultPatch(t));
    PointMoney(b, br, u, CostPoint(Variant(t), cost, br.cumulativeCost + cost), c.board, c.bridge);
  }
}
