/** `dedupePublishGroups` and `buildPublishEvents` of `scripts/backfill-lifecycle.ts`, and the checks
    of `scripts/verify-backfill-invariants.ts` on the events that the backfill builds. */
module BackfillChecks {
  import opened Wrappers
  import opened BackfillEvents

  // ---------- Publish groups ----------

  /** A missing hash and an empty one fall together. */
  function DedupKey(g: OccurrenceGroup): string {
    Joined(g.modelSlug, if g.taskSetHash.Some? then g.taskSetHash.value else "")
  }

  function RealKeys(groups: seq<OccurrenceGroup>): set<string> {
    set i | 0 <= i < |groups| && !groups[i].cascaded :: DedupKey(groups[i])
  }

  function Filtered(groups: seq<OccurrenceGroup>, realKeys: set<string>): (r: seq<OccurrenceGroup>)
    ensures forall g :: g in r <==> g in groups && (!g.cascaded || DedupKey(g) !in realKeys)
  {
    if groups == [] then []
    else
      var g := groups[0];
      assert groups == [g] + groups[1..];
      (if !g.cascaded || DedupKey(g) !in realKeys then [g] else []) + Filtered(groups[1..], realKeys)
  }

  lemma FilteredStep(groups: seq<OccurrenceGroup>, realKeys: set<string>)
    requires groups != []
    ensures
      var rest, r := Filtered(groups[1..], realKeys), Filtered(groups, realKeys);
      if !groups[0].cascaded || DedupKey(groups[0]) !in realKeys then r == [groups[0]] + rest && r[1..] == rest
      else r == rest
  {}

  function DedupePublishGroups(groups: seq<OccurrenceGroup>): seq<OccurrenceGroup> {
    Filtered(groups, RealKeys(groups))
  }

  function Reals(groups: seq<OccurrenceGroup>): seq<OccurrenceGroup> {
    if groups == [] then []
    else (if groups[0].cascaded then [] else [groups[0]]) + Reals(groups[1..])
  }

  lemma {:induction false} FilteredKeepsReals(groups: seq<OccurrenceGroup>, realKeys: set<string>)
    ensures Reals(Filtered(groups, realKeys)) == Reals(groups)
  {
    if groups != [] {
      FilteredKeepsReals(groups[1..], realKeys);
      FilteredStep(groups, realKeys);
    }
  }

  lemma {:induction false} FilteredAgain(groups: seq<OccurrenceGroup>, realKeys: set<string>)
    ensures Filtered(Filtered(groups, realKeys), realKeys) == Filtered(groups, realKeys)
  {
    if groups != [] {
      FilteredAgain(groups[1..], realKeys);
      FilteredStep(groups, realKeys);
      var r := Filtered(groups, realKeys);
      if r != [] && (!groups[0].cascaded || DedupKey(groups[0]) !in realKeys) { FilteredStep(r, realKeys); }
    }
  }

  lemma RealKeysKept(groups: seq<OccurrenceGroup>)
    ensures RealKeys(DedupePublishGroups(groups)) == RealKeys(groups)
  {
    var r := DedupePublishGroups(groups);
    forall k | k in RealKeys(groups) ensures k in RealKeys(r) {
      var i :| 0 <= i < |groups| && !groups[i].cascaded && DedupKey(groups[i]) == k;
      assert groups[i] in r;
    }
    forall k | k in RealKeys(r) ensures k in RealKeys(groups) {
      var i :| 0 <= i < |r| && !r[i].cascaded && DedupKey(r[i]) == k;
      assert r[i] in groups;
    }
  }

  lemma KindsApart(groups: seq<OccurrenceGroup>, r: OccurrenceGroup, c: OccurrenceGroup)
    requires r in DedupePublishGroups(groups) && c in DedupePublishGroups(groups) && !r.cascaded && c.cascaded
    ensures DedupKey(r) != DedupKey(c)
  {
    var i :| 0 <= i < |groups| && groups[i] == r;
    assert DedupKey(groups[i]) in RealKeys(groups);
  }

  /** Every real row stays, in place; no key keeps both kinds; no key goes; once is enough. */
  lemma DedupeRight(groups: seq<OccurrenceGroup>)
    ensures
      var r := DedupePublishGroups(groups);
      && Reals(r) == Reals(groups)
      && (forall g, h :: g in r && h in r && DedupKey(g) == DedupKey(h) ==> g.cascaded == h.cascaded)
      && (forall g :: g in groups ==> exists h :: h in r && DedupKey(h) == DedupKey(g))
      && DedupePublishGroups(r) == r
  {
    var r := DedupePublishGroups(groups);
    FilteredKeepsReals(groups, RealKeys(groups));
    RealKeysKept(groups);
    FilteredAgain(groups, RealKeys(groups));
    forall g, h | g in r && h in r && DedupKey(g) == DedupKey(h) && !g.cascaded ensures !h.cascaded {
      if h.cascaded { KindsApart(groups, g, h); }
    }
    forall g | g in groups ensures exists h :: h in r && DedupKey(h) == DedupKey(g) {
      var h := Stands(groups, g);
    }
  }

  /** The row that is left for the key of a row. */
  lemma Stands(groups: seq<OccurrenceGroup>, g: OccurrenceGroup) returns (h: OccurrenceGroup)
    requires g in groups
    ensures h in DedupePublishGroups(groups) && DedupKey(h) == DedupKey(g)
  {
    if g.cascaded && DedupKey(g) in RealKeys(groups) {
      var i :| 0 <= i < |groups| && !groups[i].cascaded && DedupKey(groups[i]) == DedupKey(g);
      h := groups[i];
    } else {
      h := g;
    }
  }

  // ---------- Publish events ----------

  function PublishEvent(g: OccurrenceGroup, parse: DateParser, nowNote: string): Event {
    Event(parse(g.lastSeen), g.modelSlug, ResolveTaskSetHash(g.taskSetHash), PublishCompleted,
          CountPayload(g.occurrences), if g.cascaded then "occurrences cascaded" else nowNote)
  }

  function BuildPublishEvents(groups: seq<OccurrenceGroup>, parse: DateParser, nowNote: string): (events: seq<Event>)
    ensures |events| == |groups| && forall i :: 0 <= i < |groups| ==>
            events[i] == PublishEvent(groups[i], parse, nowNote)
  {
    seq(|groups|, i requires 0 <= i < |groups| => PublishEvent(groups[i], parse, nowNote))
  }

  /** One event for each group, in order, with its date, its count, and a note if its occurrences are gone. */
  lemma PublishEventsRight(groups: seq<OccurrenceGroup>, i: nat, parse: DateParser, nowNote: string)
    requires i < |groups|
    ensures
      var e, g := BuildPublishEvents(groups, parse, nowNote)[i], groups[i];
      && e.ts == parse(g.lastSeen) && e.modelSlug == g.modelSlug && e.eventType == PublishCompleted
      && e.payload == CountPayload(g.occurrences)
      && (if g.taskSetHash in {None, Some("")} then e.taskSetHash == "pre-p6-unknown"
          else Some(e.taskSetHash) == g.taskSetHash)
      && e.note == if g.cascaded then "occurrences cascaded" else nowNote
  {}

  predicate EmptyHash(g: OccurrenceGroup) {
    g.taskSetHash == None || g.taskSetHash == Some("")
  }

  /** A real and a cascaded row of the list whose events name the same model and task set. */
  ghost predicate PublishedTwice(groups: seq<OccurrenceGroup>) {
    exists r, c :: r in groups && c in groups && !r.cascaded && c.cascaded && SameEventTarget(r, c)
  }

  predicate SameEventTarget(r: OccurrenceGroup, c: OccurrenceGroup) {
    r.modelSlug == c.modelSlug && ResolveTaskSetHash(r.taskSetHash) == ResolveTaskSetHash(c.taskSetHash)
  }

  /** One of the rows spells out the sentinel, the other has no hash. */
  predicate SpelledAndMissing(r: OccurrenceGroup, c: OccurrenceGroup) {
    && r.modelSlug == c.modelSlug
    && ((r.taskSetHash == Some(PRE_P6_TASK_SET_SENTINEL) && EmptyHash(c))
        || (c.taskSetHash == Some(PRE_P6_TASK_SET_SENTINEL) && EmptyHash(r)))
  }

  predicate LeftApart(r: OccurrenceGroup, c: OccurrenceGroup, realKeys: set<string>) {
    !r.cascaded && c.cascaded && SpelledAndMissing(r, c) && DedupKey(c) !in realKeys
  }

  ghost predicate SomeLeftApart(groups: seq<OccurrenceGroup>) {
    exists r, c :: r in groups && c in groups && LeftApart(r, c, RealKeys(groups))
  }

  lemma TwiceIsSpelled(r: OccurrenceGroup, c: OccurrenceGroup)
    requires SameEventTarget(r, c) && DedupKey(r) != DedupKey(c)
    ensures SpelledAndMissing(r, c)
  {}

  lemma SpelledIsTwice(r: OccurrenceGroup, c: OccurrenceGroup)
    requires SpelledAndMissing(r, c)
    ensures SameEventTarget(r, c)
  {}

  lemma TwiceLeavesApart(groups: seq<OccurrenceGroup>)
    requires PublishedTwice(DedupePublishGroups(groups))
    ensures SomeLeftApart(groups)
  {
    var kept := DedupePublishGroups(groups);
    var r, c :| r in kept && c in kept && !r.cascaded && c.cascaded && SameEventTarget(r, c);
    KindsApart(groups, r, c);
    TwiceIsSpelled(r, c);
    assert r in groups && c in groups && LeftApart(r, c, RealKeys(groups));
  }

  lemma ApartLeavesTwice(groups: seq<OccurrenceGroup>)
    requires SomeLeftApart(groups)
    ensures PublishedTwice(DedupePublishGroups(groups))
  {
    var r, c :| r in groups && c in groups && LeftApart(r, c, RealKeys(groups));
    SpelledIsTwice(r, c);
    var kept := DedupePublishGroups(groups);
    assert r in kept && c in kept;
  }

  /** The deduplication compares raw hashes, the events carry resolved ones. So a model is still
      published twice exactly when one row spells out the sentinel, the other has no hash, and no
      real row has the key of the cascaded one. */
  lemma PublishedTwiceExactly(groups: seq<OccurrenceGroup>)
    ensures PublishedTwice(DedupePublishGroups(groups)) <==> SomeLeftApart(groups)
  {
    if PublishedTwice(DedupePublishGroups(groups)) { TwiceLeavesApart(groups); }
    if SomeLeftApart(groups) { ApartLeavesTwice(groups); }
  }

  // ---------- The checks ----------

  datatype KeyedRow = KeyedRow(modelSlug: string, taskSetHash: Option<string>)

  /** Here only a missing hash becomes the sentinel, an empty one stays. */
  function CheckKey(r: KeyedRow): string {
    Joined(r.modelSlug, if r.taskSetHash.Some? then r.taskSetHash.value else PRE_P6_TASK_SET_SENTINEL)
  }

  function EventKeys(events: seq<Event>, eventType: EventType): set<string> {
    set i | 0 <= i < |events| && events[i].eventType == eventType :: Joined(events[i].modelSlug, events[i].taskSetHash)
  }

  lemma KeyAmong(events: seq<Event>, i: nat, eventType: EventType)
    requires i < |events| && events[i].eventType == eventType
    ensures Joined(events[i].modelSlug, events[i].taskSetHash) in EventKeys(events, eventType)
  {}

  /** The keys of the rows without repetition, in order. */
  function Needed(rows: seq<KeyedRow>): (r: seq<string>)
    ensures forall i, j :: 0 <= i < j < |r| ==> r[i] != r[j]
    ensures forall k :: k in r <==> exists x :: x in rows && CheckKey(x) == k
  {
    if rows == [] then []
    else
      var n := |rows| - 1;
      assert rows == rows[..n] + [rows[n]];
      var r := Needed(rows[..n]);
      if CheckKey(rows[n]) in r then r else r + [CheckKey(rows[n])]
  }

  function Without(keys: seq<string>, have: set<string>): (r: seq<string>)
    ensures forall k :: k in r <==> k in keys && k !in have
  {
    if keys == [] then []
    else
      assert keys == [keys[0]] + keys[1..];
      (if keys[0] in have then [] else [keys[0]]) + Without(keys[1..], have)
  }

  /** `assertAnalysisCoversShortcomings` and `assertPublishCoversOccurrences` */
  function Missing(rows: seq<KeyedRow>, events: seq<Event>, eventType: EventType): seq<string> {
    Without(Needed(rows), EventKeys(events, eventType))
  }

  function ShortcomingRow(s: Shortcoming): KeyedRow {
    KeyedRow(s.modelSlug, s.taskSetHash)
  }

  function ShortcomingRows(rows: seq<Shortcoming>): (r: seq<KeyedRow>)
    ensures |r| == |rows| && forall i :: 0 <= i < |rows| ==> r[i] == ShortcomingRow(rows[i])
  {
    seq(|rows|, i requires 0 <= i < |rows| => ShortcomingRow(rows[i]))
  }

  function GroupRow(g: OccurrenceGroup): KeyedRow {
    KeyedRow(g.modelSlug, g.taskSetHash)
  }

  function GroupRows(groups: seq<OccurrenceGroup>): (r: seq<KeyedRow>)
    ensures |r| == |groups| && forall i :: 0 <= i < |groups| ==> r[i] == GroupRow(groups[i])
  {
    seq(|groups|, i requires 0 <= i < |groups| => GroupRow(groups[i]))
  }

  /** Everything the backfill writes. */
  ghost function AllEvents(runs: seq<BackfillRun>, shortcomings: seq<Shortcoming>, groups: seq<OccurrenceGroup>,
                           parse: DateParser, nowNote: string): seq<Event> {
    BuildBenchEvents(runs, parse, nowNote) + AnalysisEvents(shortcomings, parse, nowNote)
    + BuildPublishEvents(DedupePublishGroups(groups), parse, nowNote)
  }

  /** Where the events of a type stand. */
  lemma EventAt(runs: seq<BackfillRun>, shortcomings: seq<Shortcoming>, groups: seq<OccurrenceGroup>, i: nat,
                parse: DateParser, nowNote: string)
    requires i < |AllEvents(runs, shortcomings, groups, parse, nowNote)|
    ensures
      var all, kept := AllEvents(runs, shortcomings, groups, parse, nowNote), DedupePublishGroups(groups);
      var m := |runs| + |KeyOrder(shortcomings)|;
      && (all[i].eventType == AnalysisCompleted <==> |runs| <= i < m)
      && (all[i].eventType == PublishCompleted <==> m <= i)
      && (|runs| <= i < m ==> all[i] == AnalysisEvents(shortcomings, parse, nowNote)[i - |runs|])
      && (m <= i ==> i - m < |kept| && all[i] == PublishEvent(kept[i - m], parse, nowNote))
  {
    var bench, analysis := BuildBenchEvents(runs, parse, nowNote), AnalysisEvents(shortcomings, parse, nowNote);
    InThree(bench, analysis, BuildPublishEvents(DedupePublishGroups(groups), parse, nowNote), i);
    if |runs| <= i < |runs| + |analysis| { AnalysisType(shortcomings, i - |runs|, parse, nowNote); }
  }

  lemma InThree<T>(a: seq<T>, b: seq<T>, c: seq<T>, i: nat)
    requires i < |a + b + c|
    ensures (a + b + c)[i] == if i < |a| then a[i] else if i < |a| + |b| then b[i - |a|] else c[i - |a| - |b|]
  {}

  lemma AnalysedHasRow(runs: seq<BackfillRun>, shortcomings: seq<Shortcoming>, groups: seq<OccurrenceGroup>,
                       k: string, parse: DateParser, nowNote: string)
    requires k in EventKeys(AllEvents(runs, shortcomings, groups, parse, nowNote), AnalysisCompleted)
    ensures HasKey(shortcomings, k)
  {
    var all := AllEvents(runs, shortcomings, groups, parse, nowNote);
    var i :| 0 <= i < |all| && all[i].eventType == AnalysisCompleted
      && Joined(all[i].modelSlug, all[i].taskSetHash) == k;
    EventAt(runs, shortcomings, groups, i, parse, nowNote);
    var m := EventRow(shortcomings, i - |runs|, parse, nowNote);
  }

  lemma AnalysisAt(runs: seq<BackfillRun>, shortcomings: seq<Shortcoming>, groups: seq<OccurrenceGroup>,
                   j: nat, parse: DateParser, nowNote: string)
    requires j < |KeyOrder(shortcomings)|
    ensures
      var all := AllEvents(runs, shortcomings, groups, parse, nowNote);
      |runs| + j < |all| && all[|runs| + j] == AnalysisEvents(shortcomings, parse, nowNote)[j]
  {}

  lemma RowIsAnalysed(runs: seq<BackfillRun>, shortcomings: seq<Shortcoming>, groups: seq<OccurrenceGroup>,
                      k: string, parse: DateParser, nowNote: string)
    requires HasKey(shortcomings, k)
    ensures k in EventKeys(AllEvents(runs, shortcomings, groups, parse, nowNote), AnalysisCompleted)
  {
    KeyOrderHolds(shortcomings, k);
    var j :| 0 <= j < |KeyOrder(shortcomings)| && KeyOrder(shortcomings)[j] == k;
    var m := EventRow(shortcomings, j, parse, nowNote);
    AnalysisAt(runs, shortcomings, groups, j, parse, nowNote);
    AnalysisType(shortcomings, j, parse, nowNote);
    KeyAmong(AllEvents(runs, shortcomings, groups, parse, nowNote), |runs| + j, AnalysisCompleted);
  }

  lemma AnalysisType(rows: seq<Shortcoming>, j: nat, parse: DateParser, nowNote: string)
    requires j < |KeyOrder(rows)|
    ensures AnalysisEvents(rows, parse, nowNote)[j].eventType == AnalysisCompleted
  {
    assert KeyOrder(rows)[j] in KeyOrder(rows);
    KeyOrderHolds(rows, KeyOrder(rows)[j]);
    var i := BucketRow(rows, KeyOrder(rows)[j], parse);
  }

  ghost predicate HasEmptyHash(rows: seq<Shortcoming>, k: string) {
    exists s :: s in rows && s.taskSetHash == Some("") && CheckKey(ShortcomingRow(s)) == k
  }

  /** A needed key is that of a row, resolved, or of a row whose hash is the empty string. */
  lemma NeededShortcoming(rows: seq<Shortcoming>, k: string)
    requires CleanSlugs(rows)
    ensures k in Needed(ShortcomingRows(rows)) && !HasEmptyHash(rows, k) ==> HasKey(rows, k)
    ensures HasEmptyHash(rows, k) ==> k in Needed(ShortcomingRows(rows)) && !HasKey(rows, k)
  {
    var keyed := ShortcomingRows(rows);
    if k in Needed(keyed) && !HasEmptyHash(rows, k) {
      var x :| x in keyed && CheckKey(x) == k;
      var i :| 0 <= i < |rows| && keyed[i] == x;
      assert rows[i] in rows && ShortcomingKey(rows[i]) == k;
    }
    if HasEmptyHash(rows, k) {
      var s :| s in rows && s.taskSetHash == Some("") && CheckKey(ShortcomingRow(s)) == k;
      var i :| 0 <= i < |rows| && rows[i] == s;
      assert keyed[i] in keyed;
      NoEmptyHashKey(rows, i);
    }
  }

  /** On the list that was built the analysis check misses exactly the rows whose hash is the empty
      string: the backfill gives them the sentinel, the check does not. */
  lemma AnalysisCheckMisses(runs: seq<BackfillRun>, shortcomings: seq<Shortcoming>, groups: seq<OccurrenceGroup>,
                            k: string, parse: DateParser, nowNote: string)
    requires CleanSlugs(shortcomings)
    ensures k in Missing(ShortcomingRows(shortcomings), AllEvents(runs, shortcomings, groups, parse, nowNote),
                         AnalysisCompleted)
       <==> HasEmptyHash(shortcomings, k)
  {
    if k in EventKeys(AllEvents(runs, shortcomings, groups, parse, nowNote), AnalysisCompleted) {
      AnalysedHasRow(runs, shortcomings, groups, k, parse, nowNote);
    }
    if HasKey(shortcomings, k) { RowIsAnalysed(runs, shortcomings, groups, k, parse, nowNote); }
    NeededShortcoming(shortcomings, k);
  }

  lemma NoEmptyHashKey(rows: seq<Shortcoming>, i: nat)
    requires CleanSlugs(rows) && i < |rows|
    ensures !HasKey(rows, Joined(rows[i].modelSlug, ""))
  {
    if HasKey(rows, Joined(rows[i].modelSlug, "")) {
      var j :| 0 <= j < |rows| && ShortcomingKey(rows[j]) == Joined(rows[i].modelSlug, "");
      JoinedInjective(rows[j].modelSlug, ResolveTaskSetHash(rows[j].taskSetHash), rows[i].modelSlug, "");
    }
  }

  function GroupKey(g: OccurrenceGroup): string {
    Joined(g.modelSlug, ResolveTaskSetHash(g.taskSetHash))
  }

  ghost predicate KeyLeft(groups: seq<OccurrenceGroup>, k: string) {
    exists g :: g in DedupePublishGroups(groups) && GroupKey(g) == k
  }

  lemma PublishedIsLeft(runs: seq<BackfillRun>, shortcomings: seq<Shortcoming>, groups: seq<OccurrenceGroup>,
                        k: string, parse: DateParser, nowNote: string)
    requires k in EventKeys(AllEvents(runs, shortcomings, groups, parse, nowNote), PublishCompleted)
    ensures KeyLeft(groups, k)
  {
    var all, kept := AllEvents(runs, shortcomings, groups, parse, nowNote), DedupePublishGroups(groups);
    var i :| 0 <= i < |all| && all[i].eventType == PublishCompleted
      && Joined(all[i].modelSlug, all[i].taskSetHash) == k;
    EventAt(runs, shortcomings, groups, i, parse, nowNote);
    assert kept[i - |runs| - |KeyOrder(shortcomings)|] in kept;
  }

  lemma LeftIsPublished(runs: seq<BackfillRun>, shortcomings: seq<Shortcoming>, groups: seq<OccurrenceGroup>,
                        k: string, parse: DateParser, nowNote: string)
    requires KeyLeft(groups, k)
    ensures k in EventKeys(AllEvents(runs, shortcomings, groups, parse, nowNote), PublishCompleted)
  {
    var kept := DedupePublishGroups(groups);
    var g :| g in kept && GroupKey(g) == k;
    var j :| 0 <= j < |kept| && kept[j] == g;
    var i := |runs| + |KeyOrder(shortcomings)| + j;
    EventAt(runs, shortcomings, groups, i, parse, nowNote);
    KeyAmong(AllEvents(runs, shortcomings, groups, parse, nowNote), i, PublishCompleted);
  }

  ghost predicate HasEmptyGroupHash(groups: seq<OccurrenceGroup>, k: string) {
    exists g :: g in groups && g.taskSetHash == Some("") && CheckKey(GroupRow(g)) == k
  }

  /** On the list that was built the publish check, even for the rows before deduplication, misses
      exactly those whose hash is the empty string. */
  lemma PublishCheckMisses(runs: seq<BackfillRun>, shortcomings: seq<Shortcoming>, groups: seq<OccurrenceGroup>,
                           k: string, parse: DateParser, nowNote: string)
    requires forall g :: g in groups ==> SEP !in g.modelSlug
    ensures k in Missing(GroupRows(groups), AllEvents(runs, shortcomings, groups, parse, nowNote), PublishCompleted)
       <==> HasEmptyGroupHash(groups, k)
  {
    var have := EventKeys(AllEvents(runs, shortcomings, groups, parse, nowNote), PublishCompleted);
    if k in have { PublishedIsLeft(runs, shortcomings, groups, k, parse, nowNote); }
    if KeyLeft(groups, k) { LeftIsPublished(runs, shortcomings, groups, k, parse, nowNote); }
    NeededGroups(groups, k);
  }

  /** A needed key is left after deduplication, or is that of a row whose hash is the empty string. */
  lemma NeededGroups(groups: seq<OccurrenceGroup>, k: string)
    requires forall g :: g in groups ==> SEP !in g.modelSlug
    ensures k in Needed(GroupRows(groups)) && !HasEmptyGroupHash(groups, k) ==> KeyLeft(groups, k)
    ensures HasEmptyGroupHash(groups, k) ==> k in Needed(GroupRows(groups)) && !KeyLeft(groups, k)
  {
    var rows := GroupRows(groups);
    if k in Needed(rows) && !HasEmptyGroupHash(groups, k) {
      var x :| x in rows && CheckKey(x) == k;
      var i :| 0 <= i < |groups| && rows[i] == x;
      assert groups[i] in groups;
      KeyPublished(groups, groups[i]);
    }
    if HasEmptyGroupHash(groups, k) {
      var g :| g in groups && g.taskSetHash == Some("") && CheckKey(GroupRow(g)) == k;
      var i :| 0 <= i < |groups| && groups[i] == g;
      assert rows[i] in rows;
      NoEmptyHashPublished(groups, g);
    }
  }

  lemma KeyPublished(groups: seq<OccurrenceGroup>, g: OccurrenceGroup)
    requires g in groups && forall x :: x in groups ==> SEP !in x.modelSlug
    ensures KeyLeft(groups, GroupKey(g))
  {
    var h := Stands(groups, g);
    JoinedInjective(g.modelSlug, if g.taskSetHash.Some? then g.taskSetHash.value else "",
                    h.modelSlug, if h.taskSetHash.Some? then h.taskSetHash.value else "");
    assert GroupKey(h) == GroupKey(g);
  }

  lemma NoEmptyHashPublished(groups: seq<OccurrenceGroup>, g: OccurrenceGroup)
    requires g in groups && forall x :: x in groups ==> SEP !in x.modelSlug
    ensures !KeyLeft(groups, Joined(g.modelSlug, ""))
  {
    forall h | h in DedupePublishGroups(groups) ensures GroupKey(h) != Joined(g.modelSlug, "") {
      if GroupKey(h) == Joined(g.modelSlug, "") {
        JoinedInjective(h.modelSlug, ResolveTaskSetHash(h.taskSetHash), g.modelSlug, "");
      }
    }
  }
}
