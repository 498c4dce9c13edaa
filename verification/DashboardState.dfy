/** The dashboard's state manager (`cli/dashboard/state.ts`): the matrix of cells, the cost
    history, and the statistics computed from them. */
module DashboardState {
  import opened Wrappers
  import opened Separators

  type Key = string

  datatype CellState = Waiting | Llm | Compiling | Testing | Pass | Fail | CompileError | Failed

  /** `details` holds the optional fields of a cell that no statistic reads. */
  datatype Cell = Cell(taskId: string, model: string, run: nat, state: CellState, attempt: int,
                       cost: Option<real>, details: map<string, string>)

  /** A partial cell: every patch of the dashboard names a state. */
  datatype Patch = Patch(state: CellState, attempt: Option<int>, cost: Option<real>, details: map<string, string>)

  datatype CostPoint = CostPoint(model: string, cost: real, cumulativeCost: real)

  datatype ModelStats = ModelStats(model: string, passed: nat, failed: nat, passRate: real, totalCost: real,
                                   attempt1Passes: nat, attempt2Passes: nat, totalTokens: nat)

  datatype ProgressInfo = ProgressInfo(totalCells: nat, completedCells: nat, activeLLMCalls: nat,
                                       compileQueueLength: nat, totalCost: real)

  /** What the server sends as the full state, as far as the browser keeps it. */
  datatype View = View(cells: map<Key, Cell>, taskIds: seq<string>, models: seq<string>, currentRun: nat,
                       costHistory: seq<CostPoint>, isRunning: bool)

  /** The fields of the state manager; `order` is the insertion order of the cell map. */
  datatype Board = Board(order: seq<Key>, cells: map<Key, Cell>, taskIds: seq<string>, models: seq<string>,
                         currentRun: nat, costHistory: seq<CostPoint>, isRunning: bool, totalCost: real)
  {
    ghost predicate Valid() {
      && (forall k :: k in cells <==> k in order)
      && (forall i, j :: 0 <= i < j < |order| ==> order[i] != order[j])
      && (forall k :: k in cells ==> cells[k].model in models && cells[k].taskId in taskIds
                                     && CellKey(cells[k].taskId, cells[k].model, cells[k].run) == k)
    }

    function FullState(): View {
      View(cells, taskIds, models, currentRun, costHistory, isRunning)
    }
  }

  // ---------- Keys ----------

  function Digit(n: nat): char
    requires n < 10
  {
    ('0' as int + n) as char
  }

  function Decimal(n: nat): (r: string)
    ensures r != []
  {
    if n < 10 then [Digit(n)] else Decimal(n / 10) + [Digit(n % 10)]
  }

  function CellKey(taskId: string, model: string, run: nat): Key {
    taskId + "|" + model + "|" + Decimal(run)
  }

  /** The digits of a number are those of its tenth part and the remainder. */
  lemma DecimalExactly(n: nat)
    ensures n < 10 ==> Decimal(n) == ["0123456789"[n]]
    ensures n >= 10 ==> Decimal(n) == Decimal(n / 10) + ["0123456789"[n % 10]]
  {}

  lemma {:induction false} DecimalInjective(m: nat, n: nat)
    requires Decimal(m) == Decimal(n)
    ensures m == n
    decreases m
  {
    var a, b := Decimal(m), Decimal(n);
    if m >= 10 && n >= 10 {
      assert a[..|a| - 1] == Decimal(m / 10) && b[..|b| - 1] == Decimal(n / 10);
      DecimalInjective(m / 10, n / 10);
      assert a[|a| - 1] == b[|b| - 1];
      assert m % 10 == n % 10;
    } else if m < 10 && n < 10 {
      assert a[0] == b[0];
    }
  }

  lemma {:induction false} DecimalPlain(n: nat)
    ensures '|' !in Decimal(n)
    decreases n
  {
    if n >= 10 { DecimalPlain(n / 10); }
  }

  /** Cell keys are unambiguous as soon as task ids, or else model names, contain no bar; the run
      number is always recovered. */
  lemma CellKeyInjective(t: string, m: string, r: nat, t': string, m': string, r': nat)
    requires CellKey(t, m, r) == CellKey(t', m', r')
    ensures r == r' && t + "|" + m == t' + "|" + m'
    ensures ('|' !in t && '|' !in t') || ('|' !in m && '|' !in m') ==> t == t' && m == m'
  {
    DecimalPlain(r);
    DecimalPlain(r');
    assert (t + "|" + m) + ['|'] + Decimal(r) == CellKey(t, m, r);
    assert (t' + "|" + m') + ['|'] + Decimal(r') == CellKey(t', m', r');
    SplitAtLast(t + "|" + m, Decimal(r), t' + "|" + m', Decimal(r'), '|');
    DecimalInjective(r, r');
    assert t + ['|'] + m == t' + ['|'] + m';
    if '|' !in t && '|' !in t' { SplitAtFirst(t, m, t', m', '|'); }
    if '|' !in m && '|' !in m' { SplitAtLast(t, m, t', m', '|'); }
  }

  /** A bar can move from the task id to the model name: two cells then share one key. */
  lemma CellKeyClash(t: string, u: string, m: string, run: nat)
    ensures CellKey(t + "|" + u, m, run) == CellKey(t, u + "|" + m, run) && (t + "|" + u, m) != (t, u + "|" + m)
  {
    assert t + "|" + u + "|" + m == t + "|" + (u + "|" + m);
    assert |t + "|" + u| > |t|;
  }

  // ---------- Updates ----------

  function Assign(c: Cell, p: Patch): Cell {
    c.(state := p.state,
       attempt := if p.attempt.Some? then p.attempt.value else c.attempt,
       cost := if p.cost.Some? then p.cost else c.cost,
       details := c.details + p.details)
  }

  function Update(b: Board, key: Key, p: Patch): Board {
    if key in b.cells then b.(cells := b.cells[key := Assign(b.cells[key], p)]) else b
  }

  function AddPoint(b: Board, point: CostPoint): Board {
    b.(costHistory := b.costHistory + [point], totalCost := point.cumulativeCost)
  }

  function SetCell(b: Board, t: string, m: string, run: nat): Board {
    var key := CellKey(t, m, run);
    b.(order := if key in b.cells then b.order else b.order + [key],
       cells := b.cells[key := Cell(t, m, run, Waiting, 0, None, map[])])
  }

  function SetRow(b: Board, t: string, models: seq<string>, run: nat): Board {
    if models == [] then b
    else SetCell(SetRow(b, t, models[..|models| - 1], run), t, models[|models| - 1], run)
  }

  function SetRows(b: Board, taskIds: seq<string>, models: seq<string>, run: nat): Board {
    if taskIds == [] then b
    else SetRow(SetRows(b, taskIds[..|taskIds| - 1], models, run), taskIds[|taskIds| - 1], models, run)
  }

  function Initialize(b: Board, taskIds: seq<string>, models: seq<string>, run: nat): Board {
    SetRows(b.(currentRun := run), taskIds, models, run)
  }

  lemma UpdateValid(b: Board, key: Key, p: Patch)
    requires b.Valid()
    ensures Update(b, key, p).Valid()
  {}

  lemma SetCellValid(b: Board, t: string, m: string, run: nat)
    requires b.Valid() && t in b.taskIds && m in b.models
    ensures SetCell(b, t, m, run).Valid()
  {
    var key := CellKey(t, m, run);
    var c := SetCell(b, t, m, run);
    forall k | k in c.cells ensures k in c.order {
      if k == key && key !in b.cells { assert c.order[|b.order|] == key; }
    }
  }

  /** A cell that no event has touched. */
  predicate Untouched(c: Cell) {
    c.state == Waiting && c.attempt == 0 && c.cost == None && c.details == map[]
  }

  function RowKeys(t: string, models: seq<string>, run: nat): set<Key> {
    set m | m in models :: CellKey(t, m, run)
  }

  function RunKeys(taskIds: seq<string>, models: seq<string>, run: nat): set<Key> {
    set t, m | t in taskIds && m in models :: CellKey(t, m, run)
  }

  /** `c` has the cells `keys` new and untouched, and everything else as in `b`. */
  ghost predicate Resets(b: Board, c: Board, keys: set<Key>) {
    && c == b.(order := c.order, cells := c.cells)
    && c.cells.Keys == b.cells.Keys + keys
    && (forall k :: k in b.cells && k !in keys ==> c.cells[k] == b.cells[k])
    && (forall k :: k in keys ==> Untouched(c.cells[k]))
  }

  lemma ResetsTwice(b: Board, c: Board, d: Board, keys: set<Key>, more: set<Key>)
    requires Resets(b, c, keys) && Resets(c, d, more)
    ensures Resets(b, d, keys + more)
  {}

  lemma {:induction false} SetRowResets(b: Board, t: string, models: seq<string>, run: nat)
    ensures Resets(b, SetRow(b, t, models, run), RowKeys(t, models, run))
    decreases |models|
  {
    if models == [] {
      assert RowKeys(t, models, run) == {};
    } else {
      var before, last := models[..|models| - 1], models[|models| - 1];
      var c := SetRow(b, t, before, run);
      SetRowResets(b, t, before, run);
      ResetsTwice(b, c, SetCell(c, t, last, run), RowKeys(t, before, run), {CellKey(t, last, run)});
      assert models == before + [last];
      assert RowKeys(t, models, run) == RowKeys(t, before, run) + {CellKey(t, last, run)};
    }
  }

  lemma {:induction false} SetRowValid(b: Board, t: string, models: seq<string>, run: nat)
    requires b.Valid() && t in b.taskIds && forall m :: m in models ==> m in b.models
    ensures SetRow(b, t, models, run).Valid()
    decreases |models|
  {
    if models != [] {
      var before := models[..|models| - 1];
      SetRowValid(b, t, before, run);
      SetRowResets(b, t, before, run);
      SetCellValid(SetRow(b, t, before, run), t, models[|models| - 1], run);
    }
  }

  /** Starting a run adds or resets exactly the cells of that run, and keeps everything else. */
  lemma {:induction false} SetRowsResets(b: Board, taskIds: seq<string>, models: seq<string>, run: nat)
    ensures Resets(b, SetRows(b, taskIds, models, run), RunKeys(taskIds, models, run))
    decreases |taskIds|
  {
    if taskIds == [] {
      assert RunKeys(taskIds, models, run) == {};
    } else {
      var before, last := taskIds[..|taskIds| - 1], taskIds[|taskIds| - 1];
      var c := SetRows(b, before, models, run);
      SetRowsResets(b, before, models, run);
      SetRowResets(c, last, models, run);
      ResetsTwice(b, c, SetRow(c, last, models, run), RunKeys(before, models, run), RowKeys(last, models, run));
      assert taskIds == before + [last];
      assert RunKeys(taskIds, models, run) == RunKeys(before, models, run) + RowKeys(last, models, run);
    }
  }

  lemma {:induction false} SetRowsValid(b: Board, taskIds: seq<string>, models: seq<string>, run: nat)
    requires b.Valid() && (forall t :: t in taskIds ==> t in b.taskIds) && forall m :: m in models ==> m in b.models
    ensures SetRows(b, taskIds, models, run).Valid()
    decreases |taskIds|
  {
    if taskIds != [] {
      var before := taskIds[..|taskIds| - 1];
      SetRowsValid(b, before, models, run);
      SetRowsResets(b, before, models, run);
      SetRowValid(SetRows(b, before, models, run), taskIds[|taskIds| - 1], models, run);
    }
  }
}
