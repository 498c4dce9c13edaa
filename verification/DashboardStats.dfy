/** The statistics and the progress record of the dashboard, and their accounting. */
module DashboardStats {
  import opened Wrappers
  import opened DashboardState

  predicate Failing(s: CellState) { s == Fail || s == CompileError || s == Failed }
  predicate Completed(s: CellState) { s == Pass || Failing(s) }
  predicate InPipeline(s: CellState) { s == Compiling || s == Testing }

  /** What a statistic counts. */
  datatype Filter =
    | Complete
    | Calling
    | Piped
    | Open
    | Passed(model: string)
    | PassedAt(model: string, attempt: int)
    | FailedBy(model: string)
  {
    predicate Holds(c: Cell) {
      match this
      case Complete => Completed(c.state)
      case Calling => c.state == Llm
      case Piped => InPipeline(c.state)
      case Open => c.state == Waiting
      case Passed(m) => c.model == m && c.state == Pass
      case PassedAt(m, n) => c.model == m && c.state == Pass && c.attempt == n
      case FailedBy(m) => c.model == m && Failing(c.state)
    }
  }

  /** The number of cells in a list that satisfy a filter. */
  function Count(cells: seq<Cell>, f: Filter): (n: nat)
    ensures n <= |cells|
  {
    if cells == [] then 0
    else Count(cells[..|cells| - 1], f) + if f.Holds(cells[|cells| - 1]) then 1 else 0
  }

  lemma CountStep(cells: seq<Cell>, i: nat, f: Filter)
    requires i < |cells|
    ensures Count(cells[..i + 1], f) == Count(cells[..i], f) + if f.Holds(cells[i]) then 1 else 0
  {
    assert cells[..i + 1][..i] == cells[..i];
  }

  /** What the completed cells of a model cost. */
  function Spent(cells: seq<Cell>, model: string): real {
    if cells == [] then 0.0
    else
      var c := cells[|cells| - 1];
      Spent(cells[..|cells| - 1], model)
      + if c.model == model && Completed(c.state) && c.cost.Some? then c.cost.value else 0.0
  }

  /** The cells in the order in which the map holds them. */
  function Values(b: Board): (r: seq<Cell>)
    requires forall k :: k in b.order ==> k in b.cells
    ensures |r| == |b.order| && forall i :: 0 <= i < |r| ==> r[i] == b.cells[b.order[i]]
  {
    seq(|b.order|, i requires 0 <= i < |b.order| => b.cells[b.order[i]])
  }

  /** The statistics of one model, by counting its cells; nothing ever adds to the token total. */
  function StatsOf(cells: seq<Cell>, model: string): ModelStats {
    var passed, failed := Count(cells, Passed(model)), Count(cells, FailedBy(model));
    ModelStats(model, passed, failed,
               if passed + failed > 0 then passed as real / (passed + failed) as real else 0.0,
               Spent(cells, model), Count(cells, PassedAt(model, 1)), Count(cells, PassedAt(model, 2)), 0)
  }

  function Unique(models: seq<string>): (r: seq<string>)
    ensures forall m :: m in r <==> m in models
    ensures forall i, j :: 0 <= i < j < |r| ==> r[i] != r[j]
  {
    if models == [] then []
    else
      var before, last := Unique(models[..|models| - 1]), models[|models| - 1];
      if last in before then before else before + [last]
  }

  function Stats(b: Board): (r: seq<ModelStats>)
    requires forall k :: k in b.order ==> k in b.cells
    ensures |r| == |Unique(b.models)| && forall i :: 0 <= i < |r| ==> r[i] == StatsOf(Values(b), Unique(b.models)[i])
  {
    var models := Unique(b.models);
    seq(|models|, i requires 0 <= i < |models| => StatsOf(Values(b), models[i]))
  }

  function ProgressOf(b: Board): ProgressInfo
    requires forall k :: k in b.order ==> k in b.cells
  {
    var cells := Values(b);
    ProgressInfo(|b.cells|, Count(cells, Complete), Count(cells, Calling), Count(cells, Piped), b.totalCost)
  }

  // ---------- Accounting ----------

  lemma {:induction false} PhasesPartition(cells: seq<Cell>)
    ensures Count(cells, Complete) + Count(cells, Calling) + Count(cells, Piped) + Count(cells, Open) == |cells|
    decreases |cells|
  {
    if cells != [] { PhasesPartition(cells[..|cells| - 1]); }
  }

  lemma {:induction false} AttemptsWithinPasses(cells: seq<Cell>, model: string)
    ensures Count(cells, PassedAt(model, 1)) + Count(cells, PassedAt(model, 2)) <= Count(cells, Passed(model))
    decreases |cells|
  {
    if cells != [] { AttemptsWithinPasses(cells[..|cells| - 1], model); }
  }

  function PassedPlusFailed(cells: seq<Cell>, models: seq<string>): nat {
    if models == [] then 0
    else
      var m := models[|models| - 1];
      PassedPlusFailed(cells, models[..|models| - 1]) + Count(cells, Passed(m)) + Count(cells, FailedBy(m))
  }

  /** One more cell adds one to the totals of its own model, if it is complete. */
  lemma {:induction false} OneMoreCell(cells: seq<Cell>, c: Cell, models: seq<string>)
    requires forall i, j :: 0 <= i < j < |models| ==> models[i] != models[j]
    ensures PassedPlusFailed(cells + [c], models)
            == PassedPlusFailed(cells, models) + if c.model in models && Completed(c.state) then 1 else 0
    decreases |models|
  {
    if models != [] {
      var before, m := models[..|models| - 1], models[|models| - 1];
      OneMoreCell(cells, c, before);
      assert (cells + [c])[..|cells|] == cells;
      assert models == before + [m];
    }
  }

  lemma {:induction false} TotalsAreCompleted(cells: seq<Cell>, models: seq<string>)
    requires forall i, j :: 0 <= i < j < |models| ==> models[i] != models[j]
    requires forall c :: c in cells ==> c.model in models
    ensures PassedPlusFailed(cells, models) == Count(cells, Complete)
    decreases |cells|
  {
    if cells == [] {
      NoCells(models);
    } else {
      var before, c := cells[..|cells| - 1], cells[|cells| - 1];
      TotalsAreCompleted(before, models);
      OneMoreCell(before, c, models);
      assert cells == before + [c];
    }
  }

  lemma {:induction false} NoCells(models: seq<string>)
    ensures PassedPlusFailed([], models) == 0
    decreases |models|
  {
    if models != [] { NoCells(models[..|models| - 1]); }
  }

  function SumOfStats(stats: seq<ModelStats>): nat {
    if stats == [] then 0
    else SumOfStats(stats[..|stats| - 1]) + stats[|stats| - 1].passed + stats[|stats| - 1].failed
  }

  lemma {:induction false} SumsAgree(cells: seq<Cell>, models: seq<string>, stats: seq<ModelStats>)
    requires |stats| == |models| && forall i :: 0 <= i < |models| ==> stats[i] == StatsOf(cells, models[i])
    ensures SumOfStats(stats) == PassedPlusFailed(cells, models)
    decreases |models|
  {
    if models != [] { SumsAgree(cells, models[..|models| - 1], stats[..|stats| - 1]); }
  }

  lemma {:induction false} DistinctOrderSize(order: seq<Key>, keys: set<Key>)
    requires (forall k :: k in keys <==> k in order) && forall i, j :: 0 <= i < j < |order| ==> order[i] != order[j]
    ensures |order| == |keys|
    decreases |order|
  {
    if order == [] {
      assert keys == {};
    } else {
      var last := order[|order| - 1];
      DistinctOrderSize(order[..|order| - 1], keys - {last});
    }
  }

  lemma PhasesSum(b: Board)
    requires b.Valid()
    ensures
      var p := ProgressOf(b);
      p.completedCells + p.activeLLMCalls + p.compileQueueLength + Count(Values(b), Open) == p.totalCells == |b.cells|
  {
    PhasesPartition(Values(b));
    DistinctOrderSize(b.order, b.cells.Keys);
  }

  lemma TotalsSum(b: Board)
    requires b.Valid()
    ensures SumOfStats(Stats(b)) == Count(Values(b), Complete)
  {
    var cells, models := Values(b), Unique(b.models);
    forall c | c in cells ensures c.model in models {
      var i :| 0 <= i < |cells| && cells[i] == c;
      assert b.order[i] in b.cells;
    }
    TotalsAreCompleted(cells, models);
    SumsAgree(cells, models, Stats(b));
  }

  lemma AttemptsBounded(b: Board, i: nat)
    requires b.Valid() && i < |Stats(b)|
    ensures Stats(b)[i].attempt1Passes + Stats(b)[i].attempt2Passes <= Stats(b)[i].passed
  {
    AttemptsWithinPasses(Values(b), Unique(b.models)[i]);
  }

  /** On every valid board: each cell is in exactly one phase, the passed and failed totals of the
      models sum to the completed cells, and no model has more first and second attempt passes
      than passes. */
  lemma Accounting(b: Board)
    requires b.Valid()
    ensures
      var p := ProgressOf(b);
      p.completedCells + p.activeLLMCalls + p.compileQueueLength + Count(Values(b), Open) == p.totalCells == |b.cells|
    ensures SumOfStats(Stats(b)) == ProgressOf(b).completedCells
    ensures forall i :: 0 <= i < |Stats(b)| ==>
              Stats(b)[i].attempt1Passes + Stats(b)[i].attempt2Passes <= Stats(b)[i].passed
  {
    PhasesSum(b);
    TotalsSum(b);
    forall i | 0 <= i < |Stats(b)|
      ensures Stats(b)[i].attempt1Passes + Stats(b)[i].attempt2Passes <= Stats(b)[i].passed
    {
      AttemptsBounded(b, i);
    }
  }

  // ---------- One more cell ----------

  lemma CountMore(cells: seq<Cell>, c: Cell, f: Filter)
    ensures Count(cells + [c], f) == Count(cells, f) + if f.Holds(c) then 1 else 0
  {
    assert (cells + [c])[..|cells|] == cells;
  }

  lemma ValuesMore(b: Board, d: Board, key: Key, c: Cell)
    requires forall k :: k in b.order ==> k in b.cells && k != key
    requires d.order == b.order + [key] && d.cells == b.cells[key := c]
    ensures Values(d) == Values(b) + [c]
  {
    forall i | 0 <= i < |d.order| ensures Values(d)[i] == (Values(b) + [c])[i] {
      if i < |b.order| { assert d.order[i] == b.order[i] && b.order[i] in b.order; }
    }
  }

  lemma PhasesMore(cells: seq<Cell>, c: Cell)
    ensures Count(cells + [c], Complete)
         == Count(cells, Complete) + if c.state in {Pass, Fail, CompileError, Failed} then 1 else 0
    ensures Count(cells + [c], Calling) == Count(cells, Calling) + if c.state == Llm then 1 else 0
    ensures Count(cells + [c], Piped) == Count(cells, Piped) + if c.state in {Compiling, Testing} then 1 else 0
  {
    CountMore(cells, c, Complete);
    CountMore(cells, c, Calling);
    CountMore(cells, c, Piped);
  }

  /** What one more cell adds to the progress, by its state. */
  lemma OneMoreProgress(b: Board, d: Board, key: Key, c: Cell)
    requires b.Valid() && key !in b.cells && d == b.(order := b.order + [key], cells := b.cells[key := c])
    ensures
      var p, q := ProgressOf(b), ProgressOf(d);
      && q.totalCells == p.totalCells + 1 && q.totalCost == p.totalCost == b.totalCost
      && q.completedCells == p.completedCells + (if c.state in {Pass, Fail, CompileError, Failed} then 1 else 0)
      && q.activeLLMCalls == p.activeLLMCalls + (if c.state == Llm then 1 else 0)
      && q.compileQueueLength == p.compileQueueLength + (if c.state in {Compiling, Testing} then 1 else 0)
  {
    ValuesMore(b, d, key, c);
    PhasesMore(Values(b), c);
  }

  lemma SpentMore(cells: seq<Cell>, c: Cell, model: string)
    ensures Spent(cells + [c], model)
         == Spent(cells, model) + if c.model == model && Completed(c.state) && c.cost.Some? then c.cost.value else 0.0
  {
    assert (cells + [c])[..|cells|] == cells;
  }

  lemma CountsMore(cells: seq<Cell>, c: Cell, model: string)
    ensures Count(cells + [c], Passed(model))
         == Count(cells, Passed(model)) + if c.model == model && c.state == Pass then 1 else 0
    ensures Count(cells + [c], FailedBy(model))
         == Count(cells, FailedBy(model)) + if c.model == model && Failing(c.state) then 1 else 0
    ensures forall n :: Count(cells + [c], PassedAt(model, n))
                        == Count(cells, PassedAt(model, n))
                           + if c.model == model && c.state == Pass && c.attempt == n then 1 else 0
  {
    CountMore(cells, c, Passed(model));
    CountMore(cells, c, FailedBy(model));
    forall n { CountMore(cells, c, PassedAt(model, n)); }
  }

  /** What one more cell adds to the statistics of a model: nothing unless it is the model's and complete. */
  lemma OneMoreStat(cells: seq<Cell>, c: Cell, model: string, s: ModelStats, t: ModelStats)
    requires s == StatsOf(cells, model) && t == StatsOf(cells + [c], model)
    ensures c.model != model || c.state in {Waiting, Llm, Compiling, Testing} ==> t == s
    ensures c.model == model && c.state in {Pass, Fail, CompileError, Failed} ==>
              && t.model == model && t.totalTokens == 0
              && t.totalCost == s.totalCost + (if c.cost.Some? then c.cost.value else 0.0)
              && t.passed == s.passed + (if c.state == Pass then 1 else 0)
              && t.failed == s.failed + (if c.state == Pass then 0 else 1)
              && t.attempt1Passes == s.attempt1Passes + (if c.state == Pass && c.attempt == 1 then 1 else 0)
              && t.attempt2Passes == s.attempt2Passes + (if c.state == Pass && c.attempt == 2 then 1 else 0)
  {
    CountsMore(cells, c, model);
    SpentMore(cells, c, model);
  }

  /** The rate times the complete cells gives the passes; without complete cells it is zero. */
  lemma RateIsShare(cells: seq<Cell>, model: string)
    ensures
      var s := StatsOf(cells, model);
      && s.passRate * (s.passed + s.failed) as real == s.passed as real
      && (s.passed + s.failed == 0 ==> s.passRate == 0.0)
  {}

  lemma NothingCounted(model: string)
    ensures StatsOf([], model) == ModelStats(model, 0, 0, 0.0, 0.0, 0, 0, 0)
  {}
}
