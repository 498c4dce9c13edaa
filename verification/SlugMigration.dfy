/** `migrate` of `scripts/migrate-shortcomings-slugs.ts`: renaming and rewriting the files of a table,
    with crashes at any point and any number of reruns. */
module SlugMigration {
  import opened Wrappers

  /** A directory: file names and contents. */
  type Dir = map<string, string>

  datatype Row = Row(legacy: string, legacyFile: string, target: string) {
    function NewFile(): string {
      Underscored(target) + ".json"
    }
  }

  /** `replaceAll("/", "_")` */
  function Underscored(s: string): (r: string)
    ensures |r| == |s| && forall i :: 0 <= i < |s| ==> r[i] == if s[i] == '/' then '_' else s[i]
  {
    seq(|s|, i requires 0 <= i < |s| => if s[i] == '/' then '_' else s[i])
  }

  /** Parsing a file, setting its model and printing it again; none if that throws. */
  type Rewriter = (string, string) -> Option<string>

  /** A run so far: the directory, the three result lists, and the file that made it throw. */
  datatype Run = Run(dir: Dir, migrated: seq<string>, missing: seq<string>, alreadyMigrated: seq<string>,
                     threw: Option<string>)

  function StepRow(r: Run, row: Row, dryRun: bool, rewrite: Rewriter): Run {
    if r.threw.Some? then r
    else if row.legacyFile !in r.dir then
      if row.NewFile() in r.dir then r.(alreadyMigrated := r.alreadyMigrated + [row.legacyFile])
      else r.(missing := r.missing + [row.legacyFile])
    else
      var out := rewrite(r.dir[row.legacyFile], row.target);
      if out.None? then r.(threw := Some(row.legacyFile))
      else
        var written := r.dir[row.NewFile() := out.value];
        var moved := if row.NewFile() != row.legacyFile then written - {row.legacyFile} else written;
        r.(dir := if dryRun then r.dir else moved, migrated := r.migrated + [row.legacyFile])
  }

  /** The run over the first `k` rows. */
  function RunRows(rows: seq<Row>, k: nat, dir: Dir, dryRun: bool, rewrite: Rewriter): Run
    requires k <= |rows|
  {
    if k == 0 then Run(dir, [], [], [], None)
    else StepRow(RunRows(rows, k - 1, dir, dryRun, rewrite), rows[k - 1], dryRun, rewrite)
  }

  class Disk {
    var files: Dir

    constructor (files: Dir)
      ensures this.files == files
    {
      this.files := files;
    }
  }

  method Migrate(rows: seq<Row>, disk: Disk, dryRun: bool, rewrite: Rewriter) returns (r: Run)
    modifies disk
    ensures r == RunRows(rows, |rows|, old(disk.files), dryRun, rewrite)
    ensures disk.files == r.dir
  {
    var migrated, missing, alreadyMigrated := [], [], [];
    for i := 0 to |rows|
      invariant RunRows(rows, i, old(disk.files), dryRun, rewrite)
                == Run(disk.files, migrated, missing, alreadyMigrated, None)
    {
      var row := rows[i];
      var newFile := row.NewFile();
      if row.legacyFile !in disk.files {
        if newFile in disk.files {
          alreadyMigrated := alreadyMigrated + [row.legacyFile];
        } else {
          missing := missing + [row.legacyFile];
        }
      } else {
        var out := rewrite(disk.files[row.legacyFile], row.target);
        if out.None? {
          r := Run(disk.files, migrated, missing, alreadyMigrated, Some(row.legacyFile));
          ThrownStays(rows, i + 1, |rows|, old(disk.files), dryRun, rewrite);
          return;
        }
        if !dryRun {
          disk.files := disk.files[newFile := out.value];
          if newFile != row.legacyFile { disk.files := disk.files - {row.legacyFile}; }
        }
        migrated := migrated + [row.legacyFile];
      }
    }
    r := Run(disk.files, migrated, missing, alreadyMigrated, None);
  }

  lemma {:induction false} ThrownStays(rows: seq<Row>, i: nat, k: nat, dir: Dir, dryRun: bool, rewrite: Rewriter)
    requires i <= k <= |rows| && RunRows(rows, i, dir, dryRun, rewrite).threw.Some?
    ensures RunRows(rows, k, dir, dryRun, rewrite) == RunRows(rows, i, dir, dryRun, rewrite)
    decreases k - i
  {
    if i < k { ThrownStays(rows, i, k - 1, dir, dryRun, rewrite); }
  }

  // ---------- Tables that keep their files apart ----------

  /** The first row from `i` on with this old file, or the end of the table. */
  function RowOf(rows: seq<Row>, f: string, i: nat): (r: nat)
    requires i <= |rows|
    ensures r <= |rows| && (r < |rows| ==> rows[r].legacyFile == f)
    decreases |rows| - i
  {
    if i == |rows| || rows[i].legacyFile == f then i else RowOf(rows, f, i + 1)
  }

  /** The row that handles its old file: no earlier row has the same one. */
  predicate Lead(rows: seq<Row>, i: int) {
    0 <= i < |rows| && RowOf(rows, rows[i].legacyFile, 0) == i
  }

  lemma {:induction false} RowOfFirst(rows: seq<Row>, f: string, i: nat, j: nat)
    requires i <= j < |rows| && rows[j].legacyFile == f
    ensures RowOf(rows, f, i) <= j
    decreases j - i
  {
    if i < j && rows[i].legacyFile != f { RowOfFirst(rows, f, i + 1, j); }
  }

  lemma LeadOf(rows: seq<Row>, j: nat) returns (i: nat)
    requires j < |rows|
    ensures i <= j && Lead(rows, i) && rows[i].legacyFile == rows[j].legacyFile
  {
    i := RowOf(rows, rows[j].legacyFile, 0);
    RowOfFirst(rows, rows[j].legacyFile, 0, j);
  }

  lemma BeforeLead(rows: seq<Row>, i: nat, j: nat)
    requires Lead(rows, i) && j < i
    ensures rows[j].legacyFile != rows[i].legacyFile
  {
    if rows[j].legacyFile == rows[i].legacyFile { RowOfFirst(rows, rows[i].legacyFile, 0, j); }
  }

  /** No two rows write the same file, and none writes a file that a row reads. */
  ghost predicate Safe(rows: seq<Row>) {
    && (forall i, j :: Lead(rows, i) && Lead(rows, j) && i != j ==> rows[i].NewFile() != rows[j].NewFile())
    && (forall i, j :: Lead(rows, i) && Lead(rows, j) ==> rows[i].NewFile() != rows[j].legacyFile)
  }

  ghost predicate SameFile(d0: Dir, d: Dir, f: string) {
    (f in d <==> f in d0) && (f in d ==> d[f] == d0[f])
  }

  ghost predicate Untouched(row: Row, d0: Dir, d: Dir) {
    SameFile(d0, d, row.legacyFile) && SameFile(d0, d, row.NewFile())
  }

  /** The new file is being written: it exists with some content, and the old file is whole. */
  ghost predicate Writing(row: Row, d0: Dir, d: Dir, rewrite: Rewriter) {
    && row.legacyFile in d0 && SameFile(d0, d, row.legacyFile) && row.NewFile() in d
  }

  ghost predicate Moved(row: Row, d0: Dir, d: Dir, rewrite: Rewriter) {
    && row.legacyFile in d0 && row.legacyFile !in d && row.NewFile() in d
    && rewrite(d0[row.legacyFile], row.target) == Some(d[row.NewFile()])
  }

  /** No row reads or writes the file. */
  ghost predicate Unnamed(rows: seq<Row>, f: string) {
    forall i :: Lead(rows, i) ==> f != rows[i].legacyFile && f != rows[i].NewFile()
  }

  ghost predicate Readable(rows: seq<Row>, i: nat, d: Dir, rewrite: Rewriter)
    requires i < |rows|
  {
    Lead(rows, i) && rows[i].legacyFile in d ==> rewrite(d[rows[i].legacyFile], rows[i].target).Some?
  }

  /** The first row from `i` on whose old file cannot be rewritten, or the end of the table. */
  ghost function Reach(rows: seq<Row>, i: nat, d: Dir, rewrite: Rewriter): (n: nat)
    requires i <= |rows|
    ensures i <= n <= |rows|
    ensures forall j :: i <= j < n ==> Readable(rows, j, d, rewrite)
    ensures n < |rows| ==> !Readable(rows, n, d, rewrite)
    decreases |rows| - i
  {
    if i == |rows| || !Readable(rows, i, d, rewrite) then i else Reach(rows, i + 1, d, rewrite)
  }

  ghost predicate RowPartial(row: Row, reached: bool, d0: Dir, d: Dir, rewrite: Rewriter) {
    Untouched(row, d0, d) || (reached && (Writing(row, d0, d, rewrite) || Moved(row, d0, d, rewrite)))
  }

  /** Every state that crashes can leave: each row that a run can get to is untouched, being
      written, or moved; everything else is as it was. */
  ghost predicate Partial(rows: seq<Row>, d0: Dir, d: Dir, rewrite: Rewriter) {
    && (forall i :: Lead(rows, i) ==> RowPartial(rows[i], i < Reach(rows, 0, d0, rewrite), d0, d, rewrite))
    && (forall f :: Unnamed(rows, f) ==> SameFile(d0, d, f))
  }

  // ---------- One row at a time ----------

  ghost predicate RowSettled(row: Row, d0: Dir, r: Dir, rewrite: Rewriter) {
    if row.legacyFile in d0 then Moved(row, d0, r, rewrite) else Untouched(row, d0, r)
  }

  /** The first `k` rows are settled, moved if their file was there; the others are as in `d`. */
  ghost predicate Settled(rows: seq<Row>, k: nat, d0: Dir, d: Dir, r: Dir, rewrite: Rewriter)
    requires k <= |rows|
  {
    && (forall i :: Lead(rows, i) && i < k ==> RowSettled(rows[i], d0, r, rewrite))
    && (forall i :: Lead(rows, i) && k <= i ==> Untouched(rows[i], d, r))
    && (forall f :: Unnamed(rows, f) ==> SameFile(d0, r, f))
  }

  lemma StepFrame(rows: seq<Row>, k: nat, i: nat, r: Run, rewrite: Rewriter)
    requires Safe(rows) && Lead(rows, k) && Lead(rows, i) && i != k
    ensures Untouched(rows[i], r.dir, StepRow(r, rows[k], false, rewrite).dir)
  {
  }

  lemma StepSettles(row: Row, reached: bool, d0: Dir, d: Dir, r: Run, rewrite: Rewriter)
    requires row.NewFile() != row.legacyFile && r.threw.None?
    requires row.legacyFile in d0 ==> rewrite(d0[row.legacyFile], row.target).Some?
    requires RowPartial(row, reached, d0, d, rewrite) && Untouched(row, d, r.dir)
    ensures
      var s := StepRow(r, row, false, rewrite);
      s.threw.None? && RowSettled(row, d0, s.dir, rewrite)
  {}

  /** A later row with the same old file finds it gone. */
  lemma StepSkips(rows: seq<Row>, k: nat, d0: Dir, d: Dir, r: Run, rewrite: Rewriter)
    requires k < |rows| && !Lead(rows, k) && Settled(rows, k, d0, d, r.dir, rewrite)
    ensures
      var s := StepRow(r, rows[k], false, rewrite);
      s.dir == r.dir && s.threw == r.threw
  {
    var i := LeadOf(rows, k);
    assert RowSettled(rows[i], d0, r.dir, rewrite);
  }

  lemma SettleRow(rows: seq<Row>, k: nat, d0: Dir, d: Dir, r: Run, rewrite: Rewriter)
    requires Safe(rows) && Partial(rows, d0, d, rewrite) && k < Reach(rows, 0, d0, rewrite)
    requires r.threw.None? && Settled(rows, k, d0, d, r.dir, rewrite)
    ensures StepRow(r, rows[k], false, rewrite).threw.None?
    ensures Settled(rows, k + 1, d0, d, StepRow(r, rows[k], false, rewrite).dir, rewrite)
  {
    var s := StepRow(r, rows[k], false, rewrite);
    if !Lead(rows, k) {
      StepSkips(rows, k, d0, d, r, rewrite);
    } else {
      assert Readable(rows, k, d0, rewrite);
      StepSettles(rows[k], true, d0, d, r, rewrite);
      forall i | Lead(rows, i) && i != k ensures Untouched(rows[i], r.dir, s.dir) {
        StepFrame(rows, k, i, r, rewrite);
      }
      forall f | Unnamed(rows, f) ensures SameFile(r.dir, s.dir, f) {
        assert f != rows[k].legacyFile && f != rows[k].NewFile();
      }
    }
  }

  lemma NothingSettled(rows: seq<Row>, d0: Dir, d: Dir, rewrite: Rewriter)
    requires Partial(rows, d0, d, rewrite)
    ensures Settled(rows, 0, d0, d, d, rewrite)
  {}

  lemma SettleNext(rows: seq<Row>, k: nat, d0: Dir, d: Dir, r: Run, s: Run, rewrite: Rewriter)
    requires Safe(rows) && Partial(rows, d0, d, rewrite) && k < Reach(rows, 0, d0, rewrite)
    requires r.threw.None? && Settled(rows, k, d0, d, r.dir, rewrite) && s == StepRow(r, rows[k], false, rewrite)
    ensures s.threw.None? && Settled(rows, k + 1, d0, d, s.dir, rewrite)
  {
    SettleRow(rows, k, d0, d, r, rewrite);
  }

  /** From every partial state a run settles the rows it can get to. */
  lemma {:induction false} RunSettles(rows: seq<Row>, k: nat, d0: Dir, d: Dir, rewrite: Rewriter)
    requires Safe(rows) && Partial(rows, d0, d, rewrite) && k <= Reach(rows, 0, d0, rewrite)
    ensures
      var r := RunRows(rows, k, d, false, rewrite);
      r.threw.None? && Settled(rows, k, d0, d, r.dir, rewrite)
    decreases k
  {
    if k == 0 {
      NothingSettled(rows, d0, d, rewrite);
    } else {
      RunSettles(rows, k - 1, d0, d, rewrite);
      var r, s := RunRows(rows, k - 1, d, false, rewrite), RunRows(rows, k, d, false, rewrite);
      SettleNext(rows, k - 1, d0, d, r, s, rewrite);
    }
  }

  lemma StopsAt(rows: seq<Row>, d0: Dir, d: Dir, rewrite: Rewriter)
    requires Safe(rows) && Partial(rows, d0, d, rewrite) && Reach(rows, 0, d0, rewrite) < |rows|
    ensures
      var n := Reach(rows, 0, d0, rewrite);
      var r := RunRows(rows, n, d, false, rewrite);
      r.threw.None? && rows[n].legacyFile in r.dir && rewrite(r.dir[rows[n].legacyFile], rows[n].target).None?
  {
    var n := Reach(rows, 0, d0, rewrite);
    RunSettles(rows, n, d0, d, rewrite);
    assert Untouched(rows[n], d, RunRows(rows, n, d, false, rewrite).dir);
    assert RowPartial(rows[n], false, d0, d, rewrite);
  }

  /** A run on a partial state stops where the clean run stops. */
  lemma ReachStops(rows: seq<Row>, d0: Dir, d: Dir, k: nat, rewrite: Rewriter)
    requires Safe(rows) && Partial(rows, d0, d, rewrite) && Reach(rows, 0, d0, rewrite) < k <= |rows|
    ensures
      var n := Reach(rows, 0, d0, rewrite);
      var r := RunRows(rows, k, d, false, rewrite);
      r.threw == Some(rows[n].legacyFile) && r.dir == RunRows(rows, n, d, false, rewrite).dir
  {
    var n := Reach(rows, 0, d0, rewrite);
    StopsAt(rows, d0, d, rewrite);
    ThrownStays(rows, n + 1, k, d, false, rewrite);
  }

  // ---------- Crashes ----------

  /** A run on `d` may be cut short and leave `after`: between two rows, or within a row while the
      new file is being written (with any content so far) or before the old file is removed. */
  ghost predicate CrashedAt(rows: seq<Row>, k: nat, d: Dir, after: Dir, rewrite: Rewriter)
    requires k <= |rows|
  {
    var r := RunRows(rows, k, d, false, rewrite);
    after == r.dir || (k < |rows| && MidWrite(rows[k], r, after, rewrite))
  }

  ghost predicate MidWrite(row: Row, r: Run, after: Dir, rewrite: Rewriter) {
    && r.threw.None? && row.legacyFile in r.dir && rewrite(r.dir[row.legacyFile], row.target).Some?
    && row.NewFile() in after && after == r.dir[row.NewFile() := after[row.NewFile()]]
  }

  ghost predicate Crashed(rows: seq<Row>, d: Dir, after: Dir, rewrite: Rewriter) {
    exists k :: 0 <= k <= |rows| && CrashedAt(rows, k, d, after, rewrite)
  }

  lemma SettledIsPartial(rows: seq<Row>, k: nat, d0: Dir, d: Dir, r: Dir, rewrite: Rewriter)
    requires Partial(rows, d0, d, rewrite) && k <= Reach(rows, 0, d0, rewrite) && Settled(rows, k, d0, d, r, rewrite)
    ensures Partial(rows, d0, r, rewrite)
  {
    forall i | Lead(rows, i) ensures RowPartial(rows[i], i < Reach(rows, 0, d0, rewrite), d0, r, rewrite) {
      if i >= k {
        assert Untouched(rows[i], d, r) && RowPartial(rows[i], i < Reach(rows, 0, d0, rewrite), d0, d, rewrite);
      } else {
        assert RowSettled(rows[i], d0, r, rewrite);
      }
    }
  }

  /** A write in progress belongs to a row that leads and that the clean run gets to. */
  lemma WriterReached(rows: seq<Row>, k: nat, d0: Dir, d: Dir, after: Dir, rewrite: Rewriter)
    requires Safe(rows) && Partial(rows, d0, d, rewrite) && k < |rows|
    requires MidWrite(rows[k], RunRows(rows, k, d, false, rewrite), after, rewrite)
    ensures Lead(rows, k) && k < Reach(rows, 0, d0, rewrite)
  {
    var n := Reach(rows, 0, d0, rewrite);
    var r := RunRows(rows, k, d, false, rewrite);
    if k > n {
      ReachStops(rows, d0, d, k, rewrite);
    } else {
      RunSettles(rows, k, d0, d, rewrite);
      if !Lead(rows, k) {
        StepSkips(rows, k, d0, d, r, rewrite);
        var i := LeadOf(rows, k);
      } else if k == n {
        StopsAt(rows, d0, d, rewrite);
      }
    }
  }

  lemma WriteKeepsPartial(rows: seq<Row>, k: nat, d0: Dir, r: Dir, content: string, rewrite: Rewriter)
    requires Safe(rows) && Partial(rows, d0, r, rewrite) && Lead(rows, k) && k < Reach(rows, 0, d0, rewrite)
    requires rows[k].legacyFile in r
    ensures Partial(rows, d0, r[rows[k].NewFile() := content], rewrite)
  {
    var after := r[rows[k].NewFile() := content];
    forall i | Lead(rows, i) ensures RowPartial(rows[i], i < Reach(rows, 0, d0, rewrite), d0, after, rewrite) {
      assert RowPartial(rows[i], i < Reach(rows, 0, d0, rewrite), d0, r, rewrite);
      assert rows[i].legacyFile != rows[k].NewFile();
    }
    forall f | Unnamed(rows, f) ensures SameFile(r, after, f) { assert f != rows[k].NewFile(); }
  }

  lemma CrashKeepsPartial(rows: seq<Row>, d0: Dir, d: Dir, after: Dir, rewrite: Rewriter)
    requires Safe(rows) && Partial(rows, d0, d, rewrite) && Crashed(rows, d, after, rewrite)
    ensures Partial(rows, d0, after, rewrite)
  {
    var k :| 0 <= k <= |rows| && CrashedAt(rows, k, d, after, rewrite);
    var n := Reach(rows, 0, d0, rewrite);
    var m := if k <= n then k else n;
    RunSettles(rows, m, d0, d, rewrite);
    var r := RunRows(rows, m, d, false, rewrite).dir;
    SettledIsPartial(rows, m, d0, d, r, rewrite);
    if k > n { ReachStops(rows, d0, d, k, rewrite); }
    if after != r {
      WriterReached(rows, k, d0, d, after, rewrite);
      WriteKeepsPartial(rows, k, d0, r, after[rows[k].NewFile()], rewrite);
    }
  }

  /** Directories left by one interrupted run after another. */
  ghost predicate Crashes(rows: seq<Row>, dirs: seq<Dir>, rewrite: Rewriter) {
    && |dirs| > 0
    && (|dirs| > 1 ==>
          Crashes(rows, dirs[..|dirs| - 1], rewrite) && Crashed(rows, dirs[|dirs| - 2], dirs[|dirs| - 1], rewrite))
  }

  lemma NoCrashIsPartial(rows: seq<Row>, d: Dir, rewrite: Rewriter)
    ensures Partial(rows, d, d, rewrite)
  {}

  lemma {:induction false} CrashesLeavePartial(rows: seq<Row>, dirs: seq<Dir>, rewrite: Rewriter)
    requires Safe(rows) && Crashes(rows, dirs, rewrite)
    ensures Partial(rows, dirs[0], dirs[|dirs| - 1], rewrite)
    decreases |dirs|
  {
    if |dirs| == 1 {
      NoCrashIsPartial(rows, dirs[0], rewrite);
    } else {
      var before := dirs[..|dirs| - 1];
      CrashesLeavePartial(rows, before, rewrite);
      CrashKeepsPartial(rows, dirs[0], dirs[|dirs| - 2], dirs[|dirs| - 1], rewrite);
    }
  }

  // ---------- Nothing is lost ----------

  /** The old file of a row, rewritten under the row's new name. */
  ghost predicate MovedFile(rows: seq<Row>, i: int, f: string, d0: Dir, d: Dir, rewrite: Rewriter)
    requires f in d0
  {
    && Lead(rows, i) && rows[i].legacyFile == f
    && rows[i].NewFile() in d && rewrite(d0[f], rows[i].target) == Some(d[rows[i].NewFile()])
  }

  /** The new file of a row whose old file stands and gives this very content when the row is run. */
  ghost predicate WritableAgain(rows: seq<Row>, i: int, f: string, d0: Dir, d: Dir, rewrite: Rewriter)
    requires f in d0
  {
    && Lead(rows, i) && rows[i].NewFile() == f
    && rows[i].legacyFile in d && rewrite(d[rows[i].legacyFile], rows[i].target) == Some(d0[f])
  }

  ghost predicate FileKept(rows: seq<Row>, f: string, d0: Dir, d: Dir, rewrite: Rewriter)
    requires f in d0
  {
    || (f in d && d[f] == d0[f])
    || (exists i :: MovedFile(rows, i, f, d0, d, rewrite))
    || (exists i :: WritableAgain(rows, i, f, d0, d, rewrite))
  }

  /** Every file of the directory, whether the table names it or not. */
  ghost predicate AllKept(rows: seq<Row>, d0: Dir, d: Dir, rewrite: Rewriter) {
    forall f :: f in d0 ==> FileKept(rows, f, d0, d, rewrite)
  }

  /** However often runs on this directory are cut short, no file of it is lost. */
  ghost predicate NeverLoses(rows: seq<Row>, d0: Dir, rewrite: Rewriter) {
    forall dirs: seq<Dir> :: Crashes(rows, dirs, rewrite) && dirs[0] == d0 ==>
      AllKept(rows, d0, dirs[|dirs| - 1], rewrite)
  }

  /** The row would write over a file with other content. */
  ghost predicate Clobbers(row: Row, d0: Dir, rewrite: Rewriter) {
    && row.legacyFile in d0 && row.NewFile() in d0
    && rewrite(d0[row.legacyFile], row.target) != Some(d0[row.NewFile()])
  }

  /** No row that a run gets to finds other content under its new name. */
  ghost predicate NoClobber(rows: seq<Row>, d0: Dir, rewrite: Rewriter) {
    forall i :: Lead(rows, i) && i < Reach(rows, 0, d0, rewrite) ==> !Clobbers(rows[i], d0, rewrite)
  }

  lemma PartialKeeps(rows: seq<Row>, d0: Dir, d: Dir, f: string, rewrite: Rewriter)
    requires Safe(rows) && NoClobber(rows, d0, rewrite) && Partial(rows, d0, d, rewrite) && f in d0
    ensures FileKept(rows, f, d0, d, rewrite)
  {
    if Unnamed(rows, f) {
      assert SameFile(d0, d, f);
    } else {
      var i :| Lead(rows, i) && (f == rows[i].legacyFile || f == rows[i].NewFile());
      assert RowPartial(rows[i], i < Reach(rows, 0, d0, rewrite), d0, d, rewrite);
      if !Untouched(rows[i], d0, d) {
        assert !Clobbers(rows[i], d0, rewrite);
        if Moved(rows[i], d0, d, rewrite) && f == rows[i].legacyFile { assert MovedFile(rows, i, f, d0, d, rewrite); }
        if Writing(rows[i], d0, d, rewrite) && f == rows[i].NewFile() {
          assert WritableAgain(rows, i, f, d0, d, rewrite);
        }
      }
    }
  }

  /** A clean run up to a row that finds other content under its new name loses that content. */
  lemma ClobberLoses(rows: seq<Row>, d0: Dir, i: nat, rewrite: Rewriter)
    requires Safe(rows) && Lead(rows, i) && i < Reach(rows, 0, d0, rewrite) && Clobbers(rows[i], d0, rewrite)
    ensures !NeverLoses(rows, d0, rewrite)
  {
    RunSettles(rows, i + 1, d0, d0, rewrite);
    var d := RunRows(rows, i + 1, d0, false, rewrite).dir;
    assert RowSettled(rows[i], d0, d, rewrite);
    OneCrash(rows, d0, i + 1, d, rewrite);
    assert [d0, d][0] == d0 && [d0, d][|[d0, d]| - 1] == d;
    var f := rows[i].NewFile();
    assert !FileKept(rows, f, d0, d, rewrite);
  }

  /** For a table that keeps its files apart, on any directory: nothing is ever lost exactly when no
      row that a run gets to finds both its files present, the new one with other content. */
  lemma NeverLosesExactlyWithoutClobber(rows: seq<Row>, d0: Dir, rewrite: Rewriter)
    requires Safe(rows)
    ensures NeverLoses(rows, d0, rewrite) <==> NoClobber(rows, d0, rewrite)
  {
    if NoClobber(rows, d0, rewrite) {
      forall dirs: seq<Dir> | Crashes(rows, dirs, rewrite) && dirs[0] == d0
        ensures AllKept(rows, d0, dirs[|dirs| - 1], rewrite)
      {
        CrashesLeavePartial(rows, dirs, rewrite);
        var d := dirs[|dirs| - 1];
        forall f | f in d0 ensures FileKept(rows, f, d0, d, rewrite) { PartialKeeps(rows, d0, d, f, rewrite); }
      }
    } else {
      var i: int :| Lead(rows, i) && i < Reach(rows, 0, d0, rewrite) && Clobbers(rows[i], d0, rewrite);
      ClobberLoses(rows, d0, i, rewrite);
    }
  }

  /** A table that is not safe loses nothing where there is nothing to lose, so for one directory
      safety is not necessary. */
  lemma UnsafeMayLoseNothing(rewrite: Rewriter)
    ensures
      var rows := [Row("a", "a.json", "a")];
      !Safe(rows) && NeverLoses(rows, map[], rewrite)
  {
    var rows := [Row("a", "a.json", "a")];
    assert Underscored("a") == "a" && rows[0].NewFile() == "a.json";
    assert Lead(rows, 0);
  }

  /** The smallest case: a file that was written under the new name before the script ran. */
  lemma PreciousOverwritten()
    ensures
      var rows := [Row("a", "a.json", "b")];
      var d0: Dir := map["a.json" := "old", "b.json" := "precious"];
      var rewrite: Rewriter := (x, t) => Some("new");
      Safe(rows) && RunRows(rows, 1, d0, false, rewrite).dir == map["b.json" := "new"]
  {
    var row := Row("a", "a.json", "b");
    assert Underscored("b") == "b" && row.NewFile() == "b.json";
    assert "a.json"[0] == 'a' && "b.json"[0] == 'b';
    var d0: Dir := map["a.json" := "old", "b.json" := "precious"];
    var rewrite: Rewriter := (x, t) => Some("new");
    assert RunRows([row], 0, d0, false, rewrite) == Run(d0, [], [], [], None);
    assert d0["b.json" := "new"] - {"a.json"} == map["b.json" := "new"];
  }

  /** Rows whose old file is absent change no file. */
  lemma {:induction false} AbsentRows(rows: seq<Row>, i: nat, k: nat, d: Dir, rewrite: Rewriter)
    requires i <= k <= |rows| && RunRows(rows, i, d, false, rewrite).threw.None?
    requires forall j :: i <= j < k ==> rows[j].legacyFile !in RunRows(rows, i, d, false, rewrite).dir
    ensures
      var r, s := RunRows(rows, i, d, false, rewrite), RunRows(rows, k, d, false, rewrite);
      s.threw.None? && s.dir == r.dir
    decreases k
  {
    if i < k { AbsentRows(rows, i, k - 1, d, rewrite); }
  }

  lemma OneCrash(rows: seq<Row>, d: Dir, k: nat, after: Dir, rewrite: Rewriter)
    requires k <= |rows| && CrashedAt(rows, k, d, after, rewrite)
    ensures Crashes(rows, [d, after], rewrite)
  {
    var dirs := [d, after];
    assert dirs[..1] == [d];
    assert Crashes(rows, [d], rewrite);
  }

  lemma TwoCrashes(rows: seq<Row>, d: Dir, k: nat, mid: Dir, m: nat, after: Dir, rewrite: Rewriter)
    requires k <= |rows| && CrashedAt(rows, k, d, mid, rewrite)
    requires m <= |rows| && CrashedAt(rows, m, mid, after, rewrite)
    ensures Crashes(rows, [d, mid, after], rewrite)
  {
    OneCrash(rows, d, k, mid, rewrite);
    var dirs := [d, mid, after];
    assert dirs[..2] == [d, mid];
  }

  /** Some directory on which no row clobbers a file loses one all the same. */
  ghost predicate LosesSomewhere(rows: seq<Row>) {
    exists d0, rewrite: Rewriter :: NoClobber(rows, d0, rewrite) && !NeverLoses(rows, d0, rewrite)
  }

  lemma Lost(rows: seq<Row>, dirs: seq<Dir>, f: string, rewrite: Rewriter)
    requires Crashes(rows, dirs, rewrite) && f in dirs[0] && NoClobber(rows, dirs[0], rewrite)
    requires !FileKept(rows, f, dirs[0], dirs[|dirs| - 1], rewrite)
    ensures LosesSomewhere(rows)
  {
    assert !AllKept(rows, dirs[0], dirs[|dirs| - 1], rewrite);
    assert !NeverLoses(rows, dirs[0], rewrite);
  }

  /** A row that writes its own old file tears it. */
  lemma TornInPlace(rows: seq<Row>, i: nat)
    requires Lead(rows, i) && rows[i].NewFile() == rows[i].legacyFile
    ensures LosesSomewhere(rows)
  {
    var f := rows[i].legacyFile;
    var d, after: Dir := map[f := "a"], map[f := "c"];
    var rewrite: Rewriter := (x, t) => Some(x);
    forall m: nat | m < i ensures rows[m].legacyFile !in d { BeforeLead(rows, i, m); }
    AbsentRows(rows, 0, i, d, rewrite);
    assert after == d[f := "c"];
    assert MidWrite(rows[i], RunRows(rows, i, d, false, rewrite), after, rewrite);
    OneCrash(rows, d, i, after, rewrite);
    Lost(rows, [d, after], f, rewrite);
  }

  /** A run on a directory that holds one row's old file only moves that file. */
  lemma MovesOne(rows: seq<Row>, i: nat, d: Dir, rewrite: Rewriter, after: Dir)
    requires Lead(rows, i) && rows[i].NewFile() != rows[i].legacyFile
    requires d.Keys == {rows[i].legacyFile} && rewrite(d[rows[i].legacyFile], rows[i].target) == Some("r")
    requires after == map[rows[i].NewFile() := "r"]
    ensures RunRows(rows, i + 1, d, false, rewrite).dir == after && RunRows(rows, i + 1, d, false, rewrite).threw.None?
  {
    forall m: nat | m < i ensures rows[m].legacyFile !in d { BeforeLead(rows, i, m); }
    AbsentRows(rows, 0, i, d, rewrite);
  }

  /** The next row finds the moved file and moves it on, in the same run. */
  lemma MovesOn(rows: seq<Row>, i: nat, j: nat, d: Dir, rewrite: Rewriter, mid: Dir, after: Dir)
    requires i < j && Lead(rows, j) && rows[j].NewFile() != rows[j].legacyFile
    requires RunRows(rows, i + 1, d, false, rewrite).dir == mid && RunRows(rows, i + 1, d, false, rewrite).threw.None?
    requires mid.Keys == {rows[j].legacyFile} && rewrite(mid[rows[j].legacyFile], rows[j].target) == Some("r")
    requires after == map[rows[j].NewFile() := "r"]
    ensures RunRows(rows, j + 1, d, false, rewrite).dir == after && RunRows(rows, j + 1, d, false, rewrite).threw.None?
  {
    forall m: nat | m < j ensures rows[m].legacyFile !in mid { BeforeLead(rows, j, m); }
    AbsentRows(rows, i + 1, j, d, rewrite);
  }

  lemma MovedOnLater(rows: seq<Row>, i: nat, j: nat)
    requires Lead(rows, i) && Lead(rows, j) && i < j && rows[i].NewFile() == rows[j].legacyFile
    requires rows[j].NewFile() != rows[j].legacyFile && rows[i].NewFile() != rows[i].legacyFile
    ensures LosesSomewhere(rows)
  {
    var f := rows[i].legacyFile;
    var d: Dir, mid: Dir, after: Dir := map[f := "a"], map[rows[j].legacyFile := "r"], map[rows[j].NewFile() := "r"];
    var rewrite: Rewriter := (x, t) => Some("r");
    MovesOne(rows, i, d, rewrite, mid);
    MovesOn(rows, i, j, d, rewrite, mid, after);
    OneCrash(rows, d, j + 1, after, rewrite);
    Lost(rows, [d, after], f, rewrite);
  }

  lemma MovedOnByRerun(rows: seq<Row>, i: nat, j: nat)
    requires Lead(rows, i) && Lead(rows, j) && j < i && rows[i].NewFile() == rows[j].legacyFile
    requires rows[j].NewFile() != rows[j].legacyFile && rows[i].NewFile() != rows[i].legacyFile
    ensures LosesSomewhere(rows)
  {
    var f := rows[i].legacyFile;
    var d: Dir, mid: Dir, after: Dir := map[f := "a"], map[rows[j].legacyFile := "r"], map[rows[j].NewFile() := "r"];
    var rewrite: Rewriter := (x, t) => Some("r");
    MovesOne(rows, i, d, rewrite, mid);
    MovesOne(rows, j, mid, rewrite, after);
    TwoCrashes(rows, d, i + 1, mid, j + 1, after, rewrite);
    Lost(rows, [d, mid, after], f, rewrite);
  }

  /** The new file of row `i` is the old file of row `j`, which moves it on: in the same run if it
      comes later, in the next one otherwise. */
  lemma MovedOn(rows: seq<Row>, i: nat, j: nat)
    requires Lead(rows, i) && Lead(rows, j) && i != j && rows[i].NewFile() == rows[j].legacyFile
    requires rows[j].NewFile() != rows[j].legacyFile
    ensures LosesSomewhere(rows)
  {
    assert rows[i].legacyFile != rows[j].legacyFile;
    if i < j { MovedOnLater(rows, i, j); } else { MovedOnByRerun(rows, i, j); }
  }

  lemma FirstMove(rows: seq<Row>, i: nat, j: nat, d: Dir, rewrite: Rewriter)
    requires Lead(rows, i) && Lead(rows, j) && i < j
    requires forall m :: Lead(rows, m) ==> rows[i].NewFile() != rows[m].legacyFile
    requires d == map[rows[i].legacyFile := "a", rows[j].legacyFile := "a"]
    requires forall x, t :: rewrite(x, t) == Some("r")
    ensures
      var r := RunRows(rows, j, d, false, rewrite);
      r.threw.None? && r.dir == map[rows[i].NewFile() := "r", rows[j].legacyFile := "a"]
  {
    forall m: nat | m < i ensures rows[m].legacyFile !in d {
      BeforeLead(rows, i, m);
      BeforeLead(rows, j, m);
    }
    AbsentRows(rows, 0, i, d, rewrite);
    BeforeLead(rows, j, i);
    FirstMoved(rows, i, j, d, rewrite, map[rows[i].NewFile() := "r", rows[j].legacyFile := "a"]);
  }

  lemma FirstMoved(rows: seq<Row>, i: nat, j: nat, d: Dir, rewrite: Rewriter, mid: Dir)
    requires Lead(rows, j) && i < j && mid.Keys == {rows[i].NewFile(), rows[j].legacyFile}
    requires forall m :: Lead(rows, m) ==> rows[i].NewFile() != rows[m].legacyFile
    requires RunRows(rows, i + 1, d, false, rewrite).dir == mid && RunRows(rows, i + 1, d, false, rewrite).threw.None?
    ensures RunRows(rows, j, d, false, rewrite).dir == mid && RunRows(rows, j, d, false, rewrite).threw.None?
  {
    forall m: nat | i + 1 <= m < j ensures rows[m].legacyFile !in mid {
      var l := LeadOf(rows, m);
      BeforeLead(rows, j, m);
    }
    AbsentRows(rows, i + 1, j, d, rewrite);
  }

  /** Two rows write the same file: the first content is torn by the second write. */
  lemma Overwritten(rows: seq<Row>, i: nat, j: nat)
    requires Lead(rows, i) && Lead(rows, j) && i < j && rows[i].NewFile() == rows[j].NewFile()
    requires forall k, m :: Lead(rows, k) && Lead(rows, m) ==> rows[k].NewFile() != rows[m].legacyFile
    ensures LosesSomewhere(rows)
  {
    var f := rows[i].legacyFile;
    var d: Dir := map[f := "a", rows[j].legacyFile := "a"];
    var rewrite: Rewriter := (x, t) => Some("r");
    BeforeLead(rows, j, i);
    FirstMove(rows, i, j, d, rewrite);
    var r := RunRows(rows, j, d, false, rewrite);
    var after := r.dir[rows[j].NewFile() := "c"];
    assert MidWrite(rows[j], r, after, rewrite);
    OneCrash(rows, d, j, after, rewrite);
    Lost(rows, [d, after], f, rewrite);
  }

  /** And that condition is enough for all directories exactly when no two rows write the same file
      and none writes a file that a row reads. */
  lemma SafeExactlyWhenNoClobberIsEnough(rows: seq<Row>)
    ensures Safe(rows)
       <==> forall d0, rewrite: Rewriter :: NoClobber(rows, d0, rewrite) ==> NeverLoses(rows, d0, rewrite)
  {
    if Safe(rows) {
      forall d0, rewrite: Rewriter | NoClobber(rows, d0, rewrite) ensures NeverLoses(rows, d0, rewrite) {
        NeverLosesExactlyWithoutClobber(rows, d0, rewrite);
      }
    } else if i, j :| Lead(rows, i) && Lead(rows, j) && rows[i].NewFile() == rows[j].legacyFile {
      if rows[j].NewFile() == rows[j].legacyFile { TornInPlace(rows, j); } else { MovedOn(rows, i, j); }
    } else {
      var i, j :| Lead(rows, i) && Lead(rows, j) && i != j && rows[i].NewFile() == rows[j].NewFile();
      if i < j { Overwritten(rows, i, j); } else { Overwritten(rows, j, i); }
    }
  }

  // ---------- Reruns ----------

  lemma FileDetermined(rows: seq<Row>, d0: Dir, dA: Dir, rA: Dir, dB: Dir, rB: Dir, f: string, rewrite: Rewriter)
    requires Partial(rows, d0, dA, rewrite) && Settled(rows, Reach(rows, 0, d0, rewrite), d0, dA, rA, rewrite)
    requires Partial(rows, d0, dB, rewrite) && Settled(rows, Reach(rows, 0, d0, rewrite), d0, dB, rB, rewrite)
    ensures SameFile(rA, rB, f)
  {
    var n := Reach(rows, 0, d0, rewrite);
    if !Unnamed(rows, f) {
      var i :| Lead(rows, i) && (f == rows[i].legacyFile || f == rows[i].NewFile());
      if i < n {
        assert RowSettled(rows[i], d0, rA, rewrite) && RowSettled(rows[i], d0, rB, rewrite);
      } else {
        assert Untouched(rows[i], dA, rA) && Untouched(rows[i], dB, rB);
        assert RowPartial(rows[i], false, d0, dA, rewrite) && RowPartial(rows[i], false, d0, dB, rewrite);
      }
    }
  }

  lemma SameFilesSameDir(a: Dir, b: Dir)
    requires forall f :: SameFile(a, b, f)
    ensures a == b
  {
    assert forall f :: f in a <==> f in b by { forall f ensures f in a <==> f in b { assert SameFile(a, b, f); } }
    forall f | f in a ensures a[f] == b[f] { assert SameFile(a, b, f); }
  }

  /** After any number of crashes, a run that is left to finish ends as one clean run would have:
      with the same directory, and stopping at the same file if at all. */
  lemma RerunFinishes(rows: seq<Row>, dirs: seq<Dir>, rewrite: Rewriter)
    requires Safe(rows) && Crashes(rows, dirs, rewrite)
    ensures
      var clean := RunRows(rows, |rows|, dirs[0], false, rewrite);
      var rerun := RunRows(rows, |rows|, dirs[|dirs| - 1], false, rewrite);
      rerun.dir == clean.dir && rerun.threw == clean.threw
  {
    var d0, d, n := dirs[0], dirs[|dirs| - 1], Reach(rows, 0, dirs[0], rewrite);
    CrashesLeavePartial(rows, dirs, rewrite);
    RunSettles(rows, n, d0, d0, rewrite);
    RunSettles(rows, n, d0, d, rewrite);
    var a, b := RunRows(rows, n, d, false, rewrite).dir, RunRows(rows, n, d0, false, rewrite).dir;
    forall f ensures SameFile(a, b, f) { FileDetermined(rows, d0, d, a, d0, b, f, rewrite); }
    SameFilesSameDir(a, b);
    if n < |rows| {
      ReachStops(rows, d0, d0, |rows|, rewrite);
      ReachStops(rows, d0, d, |rows|, rewrite);
    }
  }

  lemma FinishedReaches(rows: seq<Row>, d: Dir, rewrite: Rewriter)
    requires Safe(rows) && RunRows(rows, |rows|, d, false, rewrite).threw.None?
    ensures Reach(rows, 0, d, rewrite) == |rows|
  {
    if Reach(rows, 0, d, rewrite) < |rows| { ReachStops(rows, d, d, |rows|, rewrite); }
  }

  lemma FinishedSettles(rows: seq<Row>, d: Dir, rewrite: Rewriter) returns (r: Dir)
    requires Safe(rows) && RunRows(rows, |rows|, d, false, rewrite).threw.None?
    ensures r == RunRows(rows, |rows|, d, false, rewrite).dir && Settled(rows, |rows|, d, d, r, rewrite)
  {
    FinishedReaches(rows, d, rewrite);
    RunSettles(rows, |rows|, d, d, rewrite);
    r := RunRows(rows, |rows|, d, false, rewrite).dir;
  }

  /** A run that got through leaves no old file of the table. */
  lemma FinishedLeavesNoOldFile(rows: seq<Row>, d: Dir, i: nat, rewrite: Rewriter)
    requires Safe(rows) && i < |rows| && RunRows(rows, |rows|, d, false, rewrite).threw.None?
    ensures rows[i].legacyFile !in RunRows(rows, |rows|, d, false, rewrite).dir
  {
    var r := FinishedSettles(rows, d, rewrite);
    SettledLeavesNoOldFile(rows, d, i, r, rewrite);
  }

  lemma SettledLeavesNoOldFile(rows: seq<Row>, d: Dir, i: nat, r: Dir, rewrite: Rewriter)
    requires i < |rows| && Settled(rows, |rows|, d, d, r, rewrite)
    ensures rows[i].legacyFile !in r
  {
    var l := LeadOf(rows, i);
    assert RowSettled(rows[l], d, r, rewrite);
  }

  function FilesWith(rows: seq<Row>, k: nat, d: Dir, moved: bool): seq<string>
    requires k <= |rows|
  {
    if k == 0 then []
    else
      var here := (rows[k - 1].NewFile() in d) == moved;
      FilesWith(rows, k - 1, d, moved) + (if here then [rows[k - 1].legacyFile] else [])
  }

  lemma {:induction false} NothingToDo(rows: seq<Row>, k: nat, d: Dir, dryRun: bool, rewrite: Rewriter)
    requires k <= |rows| && forall i :: 0 <= i < |rows| ==> rows[i].legacyFile !in d
    ensures RunRows(rows, k, d, dryRun, rewrite)
         == Run(d, [], FilesWith(rows, k, d, false), FilesWith(rows, k, d, true), None)
  {
    if k > 0 { NothingToDo(rows, k - 1, d, dryRun, rewrite); }
  }

  /** A further run changes nothing and lists every row as already migrated or missing, by whether
      its new file is there. */
  lemma SecondRunChangesNothing(rows: seq<Row>, d: Dir, rewrite: Rewriter)
    requires Safe(rows) && RunRows(rows, |rows|, d, false, rewrite).threw.None?
    ensures
      var first := RunRows(rows, |rows|, d, false, rewrite).dir;
      RunRows(rows, |rows|, first, false, rewrite)
        == Run(first, [], FilesWith(rows, |rows|, first, false), FilesWith(rows, |rows|, first, true), None)
  {
    var first := RunRows(rows, |rows|, d, false, rewrite).dir;
    forall i | 0 <= i < |rows| ensures rows[i].legacyFile !in first {
      FinishedLeavesNoOldFile(rows, d, i, rewrite);
    }
    NothingToDo(rows, |rows|, first, false, rewrite);
  }

  // ---------- The dry run ----------

  /** Nothing that row `i` does is seen by row `j`. */
  predicate Unseen(rows: seq<Row>, i: nat, j: nat)
    requires i < |rows| && j < |rows|
  {
    && rows[i].legacyFile != rows[j].legacyFile && rows[i].NewFile() != rows[j].legacyFile
    && (rows[i].NewFile() != rows[i].legacyFile ==>
          rows[i].NewFile() != rows[j].NewFile() && rows[i].legacyFile != rows[j].NewFile())
  }

  ghost predicate Foreseen(rows: seq<Row>, n: nat)
    requires n <= |rows|
  {
    forall i: nat, j: nat :: i < j < n ==> Unseen(rows, i, j)
  }

  /** After `k` rows the dry run has touched no file and reports what the real run does. */
  predicate Predicted(rows: seq<Row>, k: nat, d: Dir, rewrite: Rewriter)
    requires k <= |rows|
  {
    var dry, wet := RunRows(rows, k, d, true, rewrite), RunRows(rows, k, d, false, rewrite);
    dry.dir == d && dry == wet.(dir := d)
  }

  ghost predicate LooksSame(row: Row, d: Dir, e: Dir) {
    SameFile(d, e, row.legacyFile) && (row.NewFile() in e <==> row.NewFile() in d)
  }

  lemma DryStep(row: Row, d: Dir, dry: Run, wet: Run, rewrite: Rewriter)
    requires dry.dir == d && dry == wet.(dir := d) && (wet.threw.None? ==> LooksSame(row, d, wet.dir))
    ensures
      var s, t := StepRow(dry, row, true, rewrite), StepRow(wet, row, false, rewrite);
      s.dir == d && s == t.(dir := d)
  {}

  lemma StepUnseen(rows: seq<Row>, i: nat, j: nat, d: Dir, wet: Run, rewrite: Rewriter)
    requires i < j < |rows| && Unseen(rows, i, j) && LooksSame(rows[j], d, wet.dir)
    ensures LooksSame(rows[j], d, StepRow(wet, rows[i], false, rewrite).dir)
  {}

  lemma {:induction false} LaterRowsLookSame(rows: seq<Row>, k: nat, n: nat, d: Dir, rewrite: Rewriter)
    requires k <= n <= |rows| && Foreseen(rows, n)
    ensures forall j: nat {:trigger rows[j]} :: k <= j < n ==>
            LooksSame(rows[j], d, RunRows(rows, k, d, false, rewrite).dir)
    decreases k
  {
    if k > 0 {
      LaterRowsLookSame(rows, k - 1, n, d, rewrite);
      forall j: nat {:trigger rows[j]} | k <= j < n
        ensures LooksSame(rows[j], d, RunRows(rows, k, d, false, rewrite).dir)
      {
        StepUnseen(rows, k - 1, j, d, RunRows(rows, k - 1, d, false, rewrite), rewrite);
      }
    }
  }

  lemma {:induction false} ForeseenPredicts(rows: seq<Row>, k: nat, n: nat, d: Dir, rewrite: Rewriter)
    requires k <= n <= |rows| && Foreseen(rows, n)
    ensures Predicted(rows, k, d, rewrite)
    decreases k
  {
    if k > 0 {
      ForeseenPredicts(rows, k - 1, n, d, rewrite);
      LaterRowsLookSame(rows, k - 1, n, d, rewrite);
      DryStep(rows[k - 1], d, RunRows(rows, k - 1, d, true, rewrite), RunRows(rows, k - 1, d, false, rewrite), rewrite);
    }
  }

  /** Works the first time only. */
  function Once(text: string, target: string): Option<string> {
    if text == "" then Some("once") else None
  }

  /** The real run on a directory that holds one row's old file only, up to a later row. */
  lemma OneFile(rows: seq<Row>, i: nat, j: nat) returns (wet: Run)
    requires i < j < |rows| && Foreseen(rows, j)
    ensures wet == RunRows(rows, j, map[rows[i].legacyFile := ""], false, Once)
    ensures wet.threw.None? && wet.dir == map[rows[i].NewFile() := "once"]
  {
    var d := map[rows[i].legacyFile := ""];
    forall m: nat | m < i ensures rows[m].legacyFile !in d { assert Unseen(rows, m, i); }
    AbsentRows(rows, 0, i, d, Once);
    var now := RunRows(rows, i + 1, d, false, Once).dir;
    assert now == map[rows[i].NewFile() := "once"];
    forall m: nat | i + 1 <= m < j ensures rows[m].legacyFile !in now { assert Unseen(rows, i, m); }
    AbsentRows(rows, i + 1, j, d, Once);
    wet := RunRows(rows, j, d, false, Once);
  }

  lemma SeenIsMissed(rows: seq<Row>, i: nat, j: nat)
    requires i < j < |rows| && Foreseen(rows, j) && !Unseen(rows, i, j)
    ensures !Predicted(rows, j + 1, map[rows[i].legacyFile := ""], Once)
  {
    var d := map[rows[i].legacyFile := ""];
    var wet := OneFile(rows, i, j);
    ForeseenPredicts(rows, j, j, d, Once);
    var dry := RunRows(rows, j, d, true, Once);
    assert dry == wet.(dir := d);
    StepsDiffer(rows[i], rows[j], dry, wet);
  }

  lemma StepsDiffer(first: Row, row: Row, dry: Run, wet: Run)
    requires dry.dir == map[first.legacyFile := ""] && dry == wet.(dir := dry.dir)
    requires wet.threw.None? && wet.dir == map[first.NewFile() := "once"]
    requires !Unseen([first, row], 0, 1)
    ensures StepRow(dry, row, true, Once) != StepRow(wet, row, false, Once).(dir := dry.dir)
  {}

  lemma {:induction false} FirstSeen(rows: seq<Row>, n: nat) returns (i: nat, j: nat)
    requires n <= |rows| && !Foreseen(rows, n)
    ensures i < j < n && Foreseen(rows, j) && !Unseen(rows, i, j)
    decreases n
  {
    if Foreseen(rows, n - 1) {
      i, j :| i < j < n && !Unseen(rows, i, j);
    } else {
      i, j := FirstSeen(rows, n - 1);
    }
  }

  /** A dry run touches no file and reports, row by row, what the real run does, for every directory
      and contents, exactly when no row sees what an earlier one did. */
  lemma DryRunPredictsExactly(rows: seq<Row>)
    ensures Foreseen(rows, |rows|) <==>
            forall k: nat, d: Dir, rewrite: Rewriter :: k <= |rows| ==> Predicted(rows, k, d, rewrite)
  {
    if Foreseen(rows, |rows|) {
      forall k: nat, d: Dir, rewrite: Rewriter | k <= |rows| ensures Predicted(rows, k, d, rewrite) {
        ForeseenPredicts(rows, k, |rows|, d, rewrite);
      }
    } else {
      var i, j := FirstSeen(rows, |rows|);
      SeenIsMissed(rows, i, j);
    }
  }

  // ---------- The lists that are reported ----------

  /** The old files of the first `k` rows that a condition picks, in order. */
  function Picked(rows: seq<Row>, k: nat, picks: Row -> bool): seq<string>
    requires k <= |rows|
  {
    if k == 0 then []
    else Picked(rows, k - 1, picks) + if picks(rows[k - 1]) then [rows[k - 1].legacyFile] else []
  }

  /** The three lists, by what the directory holds at the start. */
  ghost predicate ListsFit(rows: seq<Row>, k: nat, d: Dir, r: Run)
    requires k <= |rows|
  {
    && r.migrated == Picked(rows, k, (row: Row) => row.legacyFile in d)
    && r.alreadyMigrated == Picked(rows, k, (row: Row) => row.legacyFile !in d && row.NewFile() in d)
    && r.missing == Picked(rows, k, (row: Row) => row.legacyFile !in d && row.NewFile() !in d)
  }

  lemma {:induction false} DryListsFit(rows: seq<Row>, k: nat, d: Dir, rewrite: Rewriter)
    requires k <= |rows| && RunRows(rows, k, d, true, rewrite).threw.None?
    ensures ListsFit(rows, k, d, RunRows(rows, k, d, true, rewrite)) && RunRows(rows, k, d, true, rewrite).dir == d
    decreases k
  {
    if k > 0 { DryListsFit(rows, k - 1, d, rewrite); }
  }

  /** A dry run of any table, and a real run in which no row sees what an earlier one did, list as
      migrated exactly the rows whose old file was there, as already migrated those of which only the new
      file was there, and as missing the others, each in the order of the table. */
  lemma ListsExactly(rows: seq<Row>, k: nat, d: Dir, dryRun: bool, rewrite: Rewriter)
    requires k <= |rows| && (dryRun || Foreseen(rows, |rows|)) && RunRows(rows, k, d, dryRun, rewrite).threw.None?
    ensures ListsFit(rows, k, d, RunRows(rows, k, d, dryRun, rewrite))
  {
    if !dryRun { ForeseenPredicts(rows, k, |rows|, d, rewrite); }
    DryListsFit(rows, k, d, rewrite);
  }

  /** One row whose old file can be rewritten: the new content stands under the new name, the old name is
      gone unless it is the same, and nothing else changed. */
  lemma RowMoves(rows: seq<Row>, k: nat, d: Dir, rewrite: Rewriter, f: string)
    requires k < |rows| && RunRows(rows, k, d, false, rewrite).threw.None?
    requires rows[k].legacyFile in RunRows(rows, k, d, false, rewrite).dir
    ensures
      var before, after := RunRows(rows, k, d, false, rewrite).dir, RunRows(rows, k + 1, d, false, rewrite);
      var new_ := Underscored(rows[k].target) + ".json";
      var out := rewrite(before[rows[k].legacyFile], rows[k].target);
      if out.None? then after.threw == Some(rows[k].legacyFile) && after.dir == before
      else
        && after.threw.None? && new_ in after.dir && after.dir[new_] == out.value
        && (new_ != rows[k].legacyFile ==> rows[k].legacyFile !in after.dir)
        && (f !in {new_, rows[k].legacyFile} ==> SameFile(before, after.dir, f))
  {}
}
