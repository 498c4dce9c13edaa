/** The class of `cli/dashboard/state.ts`, proved against the functions of `DashboardState` and
    `DashboardStats`. */
module DashboardStateManagers {
  import opened Wrappers
  import opened DashboardState
  import opened DashboardStats

  /** The statistics of a model before the pass rate is filled in. */
  function RateLater(cells: seq<Cell>, model: string): ModelStats {
    StatsOf(cells, model).(passRate := 0.0)
  }

  /** What one cell adds to the statistics of its own model. */
  function AddCell(s: ModelStats, c: Cell): ModelStats {
    var cost := if c.cost.Some? then c.cost.value else 0.0;
    if c.state == Pass then
      s.(passed := s.passed + 1, totalCost := s.totalCost + cost,
         attempt1Passes := s.attempt1Passes + if c.attempt == 1 then 1 else 0,
         attempt2Passes := s.attempt2Passes + if c.attempt == 2 then 1 else 0)
    else if Failing(c.state) then s.(failed := s.failed + 1, totalCost := s.totalCost + cost)
    else s
  }

  lemma StatsStep(cells: seq<Cell>, c: Cell, model: string)
    ensures RateLater(cells + [c], model)
         == if c.model == model then AddCell(RateLater(cells, model), c) else RateLater(cells, model)
  {
    assert (cells + [c])[..|cells|] == cells;
  }

  ghost predicate TableFor(table: map<string, ModelStats>, cells: seq<Cell>) {
    forall m :: m in table ==> table[m] == RateLater(cells, m)
  }

  lemma TableStep(table: map<string, ModelStats>, cells: seq<Cell>, c: Cell)
    requires TableFor(table, cells)
    ensures TableFor(if c.model in table then table[c.model := AddCell(table[c.model], c)] else table, cells + [c])
  {
    forall m | m in table { StatsStep(cells, c, m); }
  }

  class DashboardStateManager {
    var order: seq<Key>
    var cells: map<Key, Cell>
    const taskIds: seq<string>
    const models: seq<string>
    var currentRun: nat
    var costHistory: seq<CostPoint>
    var isRunning: bool
    var totalCost: real

    function Now(): Board
      reads this
    {
      Board(order, cells, taskIds, models, currentRun, costHistory, isRunning, totalCost)
    }

    constructor (taskIds: seq<string>, models: seq<string>)
      ensures Now() == Board([], map[], taskIds, models, 1, [], true, 0.0)
    {
      this.taskIds, this.models := taskIds, models;
      order, cells, currentRun := [], map[], 1;
      costHistory, isRunning, totalCost := [], true, 0.0;
    }

    method InitializeCells(tasks: seq<string>, names: seq<string>, run: nat)
      modifies this
      ensures Now() == Initialize(old(Now()), tasks, names, run)
    {
      currentRun := run;
      ghost var start := Now();
      for i := 0 to |tasks|
        invariant Now() == SetRows(start, tasks[..i], names, run)
      {
        ghost var row := Now();
        for j := 0 to |names|
          invariant Now() == SetRow(row, tasks[i], names[..j], run)
        {
          var key := CellKey(tasks[i], names[j], run);
          assert names[..j + 1][..j] == names[..j];
          if key !in cells { order := order + [key]; }
          cells := cells[key := Cell(tasks[i], names[j], run, Waiting, 0, None, map[])];
        }
        assert names[..|names|] == names && tasks[..i + 1][..i] == tasks[..i];
      }
      assert tasks[..|tasks|] == tasks;
    }

    method UpdateCell(key: Key, patch: Patch) returns (r: Option<Cell>)
      modifies this`cells
      ensures Now() == Update(old(Now()), key, patch)
      ensures r == if key in old(cells) then Some(Assign(old(cells)[key], patch)) else None
    {
      if key !in cells { return None; }
      cells := cells[key := Assign(cells[key], patch)];
      r := Some(cells[key]);
    }

    method AddCostPoint(point: CostPoint)
      modifies this`costHistory, this`totalCost
      ensures Now() == AddPoint(old(Now()), point)
    {
      costHistory := costHistory + [point];
      totalCost := point.cumulativeCost;
    }

    method MarkComplete()
      modifies this`isRunning
      ensures Now() == old(Now()).(isRunning := false)
    {
      isRunning := false;
    }

    /** A row of zeros for each model, once. */
    method EmptyTable() returns (names: seq<string>, table: map<string, ModelStats>)
      ensures names == Unique(models) && forall m :: m in table <==> m in models
      ensures forall m :: m in table ==> table[m] == RateLater([], m)
    {
      names, table := [], map[];
      for i := 0 to |models|
        invariant names == Unique(models[..i]) && forall m :: m in table <==> m in models[..i]
        invariant forall m :: m in table ==> table[m] == RateLater([], m)
      {
        assert models[..i + 1][..i] == models[..i];
        assert models[..i + 1] == models[..i] + [models[i]];
        if models[i] !in table { names := names + [models[i]]; }
        table := table[models[i] := ModelStats(models[i], 0, 0, 0.0, 0.0, 0, 0, 0)];
      }
      assert models[..|models|] == models;
    }

    /** The branches that count one cell. */
    method Tally(s: ModelStats, c: Cell) returns (r: ModelStats)
      ensures r == AddCell(s, c)
    {
      r := s;
      var cost := if c.cost.Some? then c.cost.value else 0.0;
      if c.state == Pass {
        r := r.(passed := r.passed + 1, totalCost := r.totalCost + cost);
        if c.attempt == 1 {
          r := r.(attempt1Passes := r.attempt1Passes + 1);
        } else if c.attempt == 2 {
          r := r.(attempt2Passes := r.attempt2Passes + 1);
        }
      } else if c.state == Fail || c.state == CompileError || c.state == Failed {
        r := r.(failed := r.failed + 1, totalCost := r.totalCost + cost);
      }
    }

    method RecalculateModelStats() returns (stats: seq<ModelStats>)
      requires forall k :: k in order ==> k in cells
      ensures stats == Stats(Now())
    {
      var names, table := EmptyTable();
      ghost var values := Values(Now());
      for i := 0 to |order|
        invariant forall m :: m in table <==> m in models
        invariant TableFor(table, values[..i])
      {
        var c := cells[order[i]];
        assert values[i] == c;
        assert values[..i + 1] == values[..i] + [c];
        TableStep(table, values[..i], c);
        if c.model in table {
          var s := Tally(table[c.model], c);
          table := table[c.model := s];
        }
      }
      assert values[..|order|] == values;
      stats := FillRates(names, table, values);
    }

    method FillRates(names: seq<string>, table: map<string, ModelStats>, ghost values: seq<Cell>)
      returns (stats: seq<ModelStats>)
      requires forall m :: m in names ==> m in table && table[m] == RateLater(values, m)
      ensures |stats| == |names| && forall i :: 0 <= i < |names| ==> stats[i] == StatsOf(values, names[i])
    {
      stats := [];
      for i := 0 to |names|
        invariant |stats| == i && forall j :: 0 <= j < i ==> stats[j] == StatsOf(values, names[j])
      {
        var s := table[names[i]];
        var total := s.passed + s.failed;
        stats := stats + [s.(passRate := if total > 0 then s.passed as real / total as real else 0.0)];
      }
    }

    method GetProgress() returns (p: ProgressInfo)
      requires forall k :: k in order ==> k in cells
      ensures p == ProgressOf(Now())
    {
      var completed, calling, piped := 0, 0, 0;
      ghost var values := Values(Now());
      for i := 0 to |order|
        invariant completed == Count(values[..i], Complete)
        invariant calling == Count(values[..i], Calling)
        invariant piped == Count(values[..i], Piped)
      {
        var c := cells[order[i]];
        CountStep(values, i, Complete);
        CountStep(values, i, Calling);
        CountStep(values, i, Piped);
        if c.state == Pass || c.state == Fail || c.state == CompileError || c.state == Failed {
          completed := completed + 1;
        } else if c.state == Llm {
          calling := calling + 1;
        } else if c.state == Compiling || c.state == Testing {
          piped := piped + 1;
        }
      }
      assert values[..|order|] == values;
      p := ProgressInfo(|cells|, completed, calling, piped, totalCost);
    }
  }
}
