/** The checks of `scripts/verify-backfill-invariants.ts` on the log that the backfill leaves. The
    server drops an event whose payload, date and type it already holds, whatever the model and the
    task set, so the log can hold less than the list that was built. */
module BackfillOutcome {
  import opened Wrappers
  import opened BackfillEvents
  import opened BackfillChecks
  import W = BackfillWrite

  predicate SameOnServer(a: Event, b: Event) {
    a.payload == b.payload && a.ts == b.ts && a.eventType == b.eventType
  }

  /** A key made of payload hash, date and type, for a hash without collisions. */
  ghost predicate IsServerKey(key: Event -> string) {
    forall a, b :: key(a) == key(b) <==> SameOnServer(a, b)
  }

  /** Model and task set do not count. */
  lemma ServerKeyExactly(key: Event -> string, a: Event, b: Event)
    requires IsServerKey(key)
    ensures key(a) == key(b) <==> (a.payload, a.ts, a.eventType) == (b.payload, b.ts, b.eventType)
  {}

  /** The server holds an earlier event of the list that it takes for this one. */
  ghost predicate Shadowed(all: seq<Event>, i: nat)
    requires i < |all|
  {
    exists h :: 0 <= h < i && SameOnServer(all[h], all[i])
  }

  predicate IsFor(e: Event, k: string, eventType: EventType) {
    e.eventType == eventType && Joined(e.modelSlug, e.taskSetHash) == k
  }

  /** Some event for the key is the first of its kind, so it lands. */
  ghost predicate Lands(all: seq<Event>, k: string, eventType: EventType) {
    exists i: nat :: i < |all| && IsFor(all[i], k, eventType) && !Shadowed(all, i)
  }

  lemma FirstIffNotShadowed(all: seq<Event>, i: nat, key: Event -> string)
    requires i < |all| && IsServerKey(key)
    ensures W.IsFirst(all, i, key) <==> !Shadowed(all, i)
  {}

  lemma LandedKeyLands(all: seq<Event>, k: string, eventType: EventType, key: Event -> string)
    requires IsServerKey(key) && k in EventKeys(W.LandAll([], all, key), eventType)
    ensures Lands(all, k, eventType)
  {
    var log, at := W.LandAll([], all, key), W.Firsts(all, key);
    W.LandsFirsts(all, key);
    W.FirstsRight(all, key);
    var t :| 0 <= t < |log| && log[t].eventType == eventType && Joined(log[t].modelSlug, log[t].taskSetHash) == k;
    assert at[t] in at && log[t] == all[at[t]];
    FirstIffNotShadowed(all, at[t], key);
  }

  lemma LandsInLog(all: seq<Event>, k: string, eventType: EventType, key: Event -> string)
    requires IsServerKey(key) && Lands(all, k, eventType)
    ensures k in EventKeys(W.LandAll([], all, key), eventType)
  {
    var log, at := W.LandAll([], all, key), W.Firsts(all, key);
    W.LandsFirsts(all, key);
    W.FirstsRight(all, key);
    var i: nat :| i < |all| && IsFor(all[i], k, eventType) && !Shadowed(all, i);
    FirstIffNotShadowed(all, i, key);
    var t :| 0 <= t < |at| && at[t] == i;
    KeyAmong(log, t, eventType);
  }

  /** On the log a check misses a needed key exactly when every event for it is shadowed. */
  lemma MissingOnLog(rows: seq<KeyedRow>, all: seq<Event>, k: string, eventType: EventType, key: Event -> string)
    requires IsServerKey(key)
    ensures k in Missing(rows, W.LandAll([], all, key), eventType) <==> k in Needed(rows) && !Lands(all, k, eventType)
  {
    if k in EventKeys(W.LandAll([], all, key), eventType) { LandedKeyLands(all, k, eventType, key); }
    if Lands(all, k, eventType) { LandsInLog(all, k, eventType, key); }
  }

  // ---------- Events of one type among others ----------

  ghost predicate NoneOfType(events: seq<Event>, eventType: EventType) {
    forall i :: 0 <= i < |events| ==> events[i].eventType != eventType
  }

  /** Only events of its own type can shadow an event. */
  lemma ShadowAmongType(before: seq<Event>, own: seq<Event>, after: seq<Event>, j: nat)
    requires j < |own| && NoneOfType(before, own[j].eventType)
    ensures Shadowed(before + own + after, |before| + j) <==> Shadowed(own, j)
  {
    var all := before + own + after;
    assert all[|before| + j] == own[j];
    if Shadowed(all, |before| + j) {
      var h :| 0 <= h < |before| + j && SameOnServer(all[h], own[j]);
      assert all[h] == own[h - |before|];
    }
    if Shadowed(own, j) {
      var h :| 0 <= h < j && SameOnServer(own[h], own[j]);
      assert all[|before| + h] == own[h];
    }
  }

  lemma LandsAmongType(before: seq<Event>, own: seq<Event>, after: seq<Event>, k: string, eventType: EventType)
    requires NoneOfType(before, eventType) && NoneOfType(after, eventType)
    ensures Lands(before + own + after, k, eventType) <==> Lands(own, k, eventType)
  {
    var all := before + own + after;
    if Lands(all, k, eventType) {
      var i: nat :| i < |all| && IsFor(all[i], k, eventType) && !Shadowed(all, i);
      assert |before| <= i < |before| + |own| && all[i] == own[i - |before|];
      ShadowAmongType(before, own, after, i - |before|);
    }
    if Lands(own, k, eventType) {
      var j: nat :| j < |own| && IsFor(own[j], k, eventType) && !Shadowed(own, j);
      ShadowAmongType(before, own, after, j);
      assert all[|before| + j] == own[j];
    }
  }

  // ---------- Analysis events ----------

  /** The date of the event for the `j`th key. */
  ghost function EventDate(rows: seq<Shortcoming>, j: nat, parse: DateParser): Option<int>
    requires j < |KeyOrder(rows)|
  {
    var b := Bucket(rows, KeyOrder(rows)[j], parse);
    if b.Some? then parse(b.value.firstSeen) else None
  }

  /** The event for the key has the date of the event for an earlier key. */
  ghost predicate DateTaken(rows: seq<Shortcoming>, k: string, parse: DateParser) {
    exists h: nat, j: nat :: h < j < |KeyOrder(rows)| && KeyOrder(rows)[j] == k
      && EventDate(rows, h, parse) == EventDate(rows, j, parse)
  }

  lemma AnalysisEventIs(rows: seq<Shortcoming>, j: nat, parse: DateParser, nowNote: string)
    requires j < |KeyOrder(rows)|
    ensures
      var e := AnalysisEvents(rows, parse, nowNote)[j];
      e.payload == NoPayload && e.eventType == AnalysisCompleted && e.ts == EventDate(rows, j, parse)
      && Joined(e.modelSlug, e.taskSetHash) == KeyOrder(rows)[j]
  {
    AnalysisType(rows, j, parse, nowNote);
    var i := EventRow(rows, j, parse, nowNote);
  }

  lemma AnalysisLandsAmong(rows: seq<Shortcoming>, k: string, parse: DateParser, nowNote: string)
    ensures Lands(AnalysisEvents(rows, parse, nowNote), k, AnalysisCompleted) ==>
              HasKey(rows, k) && !DateTaken(rows, k, parse)
  {
    var events := AnalysisEvents(rows, parse, nowNote);
    if Lands(events, k, AnalysisCompleted) {
      var j: nat :| j < |events| && IsFor(events[j], k, AnalysisCompleted) && !Shadowed(events, j);
      AnalysisEventIs(rows, j, parse, nowNote);
      assert k in KeyOrder(rows);
      KeyOrderHolds(rows, k);
      forall h: nat | h < j ensures EventDate(rows, h, parse) != EventDate(rows, j, parse) {
        AnalysisEventIs(rows, h, parse, nowNote);
        assert !SameOnServer(events[h], events[j]);
      }
    }
  }

  lemma FreeDateLands(rows: seq<Shortcoming>, k: string, parse: DateParser, nowNote: string)
    requires HasKey(rows, k) && !DateTaken(rows, k, parse)
    ensures Lands(AnalysisEvents(rows, parse, nowNote), k, AnalysisCompleted)
  {
    var events := AnalysisEvents(rows, parse, nowNote);
    KeyOrderHolds(rows, k);
    var j: nat :| j < |KeyOrder(rows)| && KeyOrder(rows)[j] == k;
    AnalysisEventIs(rows, j, parse, nowNote);
    forall h: nat | h < j ensures !SameOnServer(events[h], events[j]) { AnalysisEventIs(rows, h, parse, nowNote); }
    assert IsFor(events[j], k, AnalysisCompleted);
  }

  lemma AnalysisLands(runs: seq<BackfillRun>, rows: seq<Shortcoming>, groups: seq<OccurrenceGroup>,
                      k: string, parse: DateParser, nowNote: string)
    ensures Lands(AllEvents(runs, rows, groups, parse, nowNote), k, AnalysisCompleted)
            <==> HasKey(rows, k) && !DateTaken(rows, k, parse)
  {
    LandsAmongType(BuildBenchEvents(runs, parse, nowNote), AnalysisEvents(rows, parse, nowNote),
                   BuildPublishEvents(DedupePublishGroups(groups), parse, nowNote), k, AnalysisCompleted);
    AnalysisLandsAmong(rows, k, parse, nowNote);
    if HasKey(rows, k) && !DateTaken(rows, k, parse) { FreeDateLands(rows, k, parse, nowNote); }
  }

  /** The log after any number of interrupted runs on an empty log and one that got through. */
  ghost predicate Backfilled(log: seq<Event>, all: seq<Event>, attempts: seq<W.Attempt<Event>>,
                             deliveries: nat -> W.Delivery, key: Event -> string, duplicateReply: string, paceMs: int) {
    && IsServerKey(key) && W.Possible(attempts, duplicateReply) && W.SameEvents(attempts, all)
    && W.Honest(deliveries, |all|, duplicateReply)
    && (var p := W.WriteRun(W.AfterAttempts([], attempts, key, duplicateReply, paceMs), all, |all|,
                            deliveries, key, duplicateReply, paceMs);
        p.threw.None? && p.log == log)
  }

  lemma BackfilledLog(log: seq<Event>, all: seq<Event>, attempts: seq<W.Attempt<Event>>,
                      deliveries: nat -> W.Delivery, key: Event -> string, duplicateReply: string, paceMs: int)
    requires Backfilled(log, all, attempts, deliveries, key, duplicateReply, paceMs)
    ensures log == W.LandAll([], all, key)
  {
    W.CompletedRunSettles([], attempts, all, deliveries, key, duplicateReply, paceMs);
  }

  /** After a backfill the analysis check misses exactly the keys of rows with an empty hash, and those
      whose event has the date of the event for an earlier key. */
  lemma AnalysisCheckAfterBackfill(runs: seq<BackfillRun>, rows: seq<Shortcoming>, groups: seq<OccurrenceGroup>,
                                   k: string, parse: DateParser, nowNote: string, log: seq<Event>,
                                   attempts: seq<W.Attempt<Event>>, deliveries: nat -> W.Delivery,
                                   key: Event -> string, duplicateReply: string, paceMs: int)
    requires CleanSlugs(rows)
    requires Backfilled(log, AllEvents(runs, rows, groups, parse, nowNote), attempts, deliveries, key,
                        duplicateReply, paceMs)
    ensures k in Missing(ShortcomingRows(rows), log, AnalysisCompleted)
       <==> HasEmptyHash(rows, k) || (k in Needed(ShortcomingRows(rows)) && DateTaken(rows, k, parse))
  {
    var all := AllEvents(runs, rows, groups, parse, nowNote);
    BackfilledLog(log, all, attempts, deliveries, key, duplicateReply, paceMs);
    MissingOnLog(ShortcomingRows(rows), all, k, AnalysisCompleted, key);
    AnalysisLands(runs, rows, groups, k, parse, nowNote);
    NeededShortcoming(rows, k);
  }

  /** Rows of different models or task sets never have the same first date. */
  ghost predicate DatesApart(rows: seq<Shortcoming>, parse: DateParser) {
    forall i, j :: 0 <= i < |rows| && 0 <= j < |rows| && ShortcomingKey(rows[i]) != ShortcomingKey(rows[j]) ==>
                     parse(rows[i].firstSeen) != parse(rows[j].firstSeen)
  }

  /** Then no date is taken, and the check misses the empty hashes only. */
  lemma DatesApartSuffice(rows: seq<Shortcoming>, k: string, parse: DateParser)
    requires DatesApart(rows, parse)
    ensures !DateTaken(rows, k, parse)
  {
    forall h: nat, j: nat | h < j < |KeyOrder(rows)| ensures EventDate(rows, h, parse) != EventDate(rows, j, parse) {
      var x := EventDateRow(rows, h, parse);
      var y := EventDateRow(rows, j, parse);
    }
  }

  lemma EventDateRow(rows: seq<Shortcoming>, j: nat, parse: DateParser) returns (i: nat)
    requires j < |KeyOrder(rows)|
    ensures i < |rows| && ShortcomingKey(rows[i]) == KeyOrder(rows)[j]
            && parse(rows[i].firstSeen) == EventDate(rows, j, parse)
  {
    assert KeyOrder(rows)[j] in KeyOrder(rows);
    KeyOrderHolds(rows, KeyOrder(rows)[j]);
    i := BucketRow(rows, KeyOrder(rows)[j], parse);
  }

  // ---------- Publish events ----------

  /** The group's event carries the count and the date of an earlier one. */
  ghost predicate CountTaken(kept: seq<OccurrenceGroup>, j: nat, parse: DateParser)
    requires j < |kept|
  {
    exists h :: 0 <= h < j && SameCount(kept[h], kept[j], parse)
  }

  predicate SameCount(g: OccurrenceGroup, h: OccurrenceGroup, parse: DateParser) {
    g.occurrences == h.occurrences && parse(g.lastSeen) == parse(h.lastSeen)
  }

  /** Some group of the key is the first with its count and date. */
  ghost predicate SomeCountFree(kept: seq<OccurrenceGroup>, k: string, parse: DateParser) {
    exists j: nat :: j < |kept| && GroupKey(kept[j]) == k && !CountTaken(kept, j, parse)
  }

  lemma PublishLandsAmong(kept: seq<OccurrenceGroup>, k: string, parse: DateParser, nowNote: string)
    ensures Lands(BuildPublishEvents(kept, parse, nowNote), k, PublishCompleted) <==> SomeCountFree(kept, k, parse)
  {
    var events := BuildPublishEvents(kept, parse, nowNote);
    forall h: nat, j: nat | h < j < |kept|
      ensures SameOnServer(events[h], events[j]) <==> SameCount(kept[h], kept[j], parse)
    {}
    forall j: nat | j < |kept|
      ensures Shadowed(events, j) <==> CountTaken(kept, j, parse)
      ensures IsFor(events[j], k, PublishCompleted) <==> GroupKey(kept[j]) == k
    {
      ShadowIsTaken(kept, j, parse, nowNote);
    }
  }

  lemma ShadowIsTaken(kept: seq<OccurrenceGroup>, j: nat, parse: DateParser, nowNote: string)
    requires j < |kept|
    ensures Shadowed(BuildPublishEvents(kept, parse, nowNote), j) <==> CountTaken(kept, j, parse)
  {
    var events := BuildPublishEvents(kept, parse, nowNote);
    if Shadowed(events, j) {
      var h :| 0 <= h < j && SameOnServer(events[h], events[j]);
      assert SameCount(kept[h], kept[j], parse);
    }
    if CountTaken(kept, j, parse) {
      var h :| 0 <= h < j && SameCount(kept[h], kept[j], parse);
      assert SameOnServer(events[h], events[j]);
    }
  }

  lemma PublishLands(runs: seq<BackfillRun>, rows: seq<Shortcoming>, groups: seq<OccurrenceGroup>, k: string,
                     parse: DateParser, nowNote: string)
    ensures Lands(AllEvents(runs, rows, groups, parse, nowNote), k, PublishCompleted)
            <==> SomeCountFree(DedupePublishGroups(groups), k, parse)
  {
    var before := BuildBenchEvents(runs, parse, nowNote) + AnalysisEvents(rows, parse, nowNote);
    var own := BuildPublishEvents(DedupePublishGroups(groups), parse, nowNote);
    forall i | 0 <= i < |before| ensures before[i].eventType != PublishCompleted {
      if i >= |runs| { AnalysisType(rows, i - |runs|, parse, nowNote); }
    }
    LandsAmongType(before, own, [], k, PublishCompleted);
    assert AllEvents(runs, rows, groups, parse, nowNote) == before + own + [];
    PublishLandsAmong(DedupePublishGroups(groups), k, parse, nowNote);
  }

  lemma NeededGroup(groups: seq<OccurrenceGroup>, k: string, parse: DateParser)
    requires forall g :: g in groups ==> SEP !in g.modelSlug
    ensures HasEmptyGroupHash(groups, k) ==>
              k in Needed(GroupRows(groups)) && !SomeCountFree(DedupePublishGroups(groups), k, parse)
  {
    NeededGroups(groups, k);
    var kept := DedupePublishGroups(groups);
    assert forall j :: 0 <= j < |kept| ==> kept[j] in kept;
  }

  /** After a backfill the publish check, for the rows before deduplication, misses exactly the keys of
      rows with an empty hash, and those all of whose events carry the count and date of an earlier
      one. */
  lemma PublishCheckAfterBackfill(runs: seq<BackfillRun>, rows: seq<Shortcoming>, groups: seq<OccurrenceGroup>,
                                  k: string, parse: DateParser, nowNote: string,
                                  log: seq<Event>, attempts: seq<W.Attempt<Event>>, deliveries: nat -> W.Delivery,
                                    key: Event -> string, duplicateReply: string, paceMs: int)
    requires forall g :: g in groups ==> SEP !in g.modelSlug
    requires Backfilled(log, AllEvents(runs, rows, groups, parse, nowNote), attempts, deliveries, key,
                        duplicateReply, paceMs)
    ensures k in Missing(GroupRows(groups), log, PublishCompleted)
       <==> || HasEmptyGroupHash(groups, k)
            || (k in Needed(GroupRows(groups)) && !SomeCountFree(DedupePublishGroups(groups), k, parse))
  {
    var all := AllEvents(runs, rows, groups, parse, nowNote);
    BackfilledLog(log, all, attempts, deliveries, key, duplicateReply, paceMs);
    MissingOnLog(GroupRows(groups), all, k, PublishCompleted, key);
    PublishLands(runs, rows, groups, k, parse, nowNote);
    NeededGroup(groups, k, parse);
  }

  /** Groups of different models or task sets never have both the same count and the same date. */
  ghost predicate CountsApart(groups: seq<OccurrenceGroup>, parse: DateParser) {
    forall g, h :: g in groups && h in groups && GroupKey(g) != GroupKey(h) ==> !SameCount(g, h, parse)
  }

  /** Then the first group of a key that has one is free, and the check misses the empty hashes only. */
  lemma CountsApartSuffice(groups: seq<OccurrenceGroup>, k: string, parse: DateParser)
    requires forall g :: g in groups ==> SEP !in g.modelSlug
    requires CountsApart(groups, parse) && k in Needed(GroupRows(groups)) && !HasEmptyGroupHash(groups, k)
    ensures SomeCountFree(DedupePublishGroups(groups), k, parse)
  {
    NeededGroups(groups, k);
    var kept := DedupePublishGroups(groups);
    var g :| g in kept && GroupKey(g) == k;
    assert CountsApart(kept, parse);
    FirstIsFree(kept, g, parse);
  }

  lemma FirstIsFree(kept: seq<OccurrenceGroup>, g: OccurrenceGroup, parse: DateParser)
    requires CountsApart(kept, parse) && g in kept
    ensures SomeCountFree(kept, GroupKey(g), parse)
  {
    var j :| 0 <= j < |kept| && kept[j] == g;
    var f := FirstOfKey(kept, GroupKey(g), j);
    forall e | 0 <= e < f ensures !SameCount(kept[e], kept[f], parse) {
      assert kept[e] in kept && kept[f] in kept;
    }
    assert !CountTaken(kept, f, parse);
  }

  lemma {:induction false} FirstOfKey(kept: seq<OccurrenceGroup>, k: string, j: nat) returns (f: nat)
    requires j < |kept| && GroupKey(kept[j]) == k
    ensures f <= j && GroupKey(kept[f]) == k && forall e :: 0 <= e < f ==> GroupKey(kept[e]) != k
    decreases j
  {
    if e :| 0 <= e < j && GroupKey(kept[e]) == k { f := FirstOfKey(kept, k, e); } else { f := j; }
  }

  /** Two models first seen at the same moment: the second event is dropped and its key is missed. */
  lemma SameMomentMissed(slug: string, slug': string, at: string, parse: DateParser, nowNote: string,
                         key: Event -> string)
    requires SEP !in slug && SEP !in slug' && slug != slug' && IsServerKey(key)
    ensures
      var rows := [Shortcoming(slug, None, at), Shortcoming(slug', None, at)];
      var log := W.LandAll([], AllEvents([], rows, [], parse, nowNote), key);
      Missing(ShortcomingRows(rows), log, AnalysisCompleted) != []
  {
    var rows := [Shortcoming(slug, None, at), Shortcoming(slug', None, at)];
    var all := AllEvents([], rows, [], parse, nowNote);
    var k, k' := ShortcomingKey(rows[0]), ShortcomingKey(rows[1]);
    if k == k' { JoinedInjective(slug, PRE_P6_TASK_SET_SENTINEL, slug', PRE_P6_TASK_SET_SENTINEL); }
    assert rows[..1] == [rows[0]] && rows[..1][..0] == [];
    assert KeyOrder(rows[..1]) == [k] && KeyOrder(rows) == [k, k'];
    var x := EventDateRow(rows, 0, parse);
    var y := EventDateRow(rows, 1, parse);
    assert DateTaken(rows, k', parse);
    AnalysisLands([], rows, [], k', parse, nowNote);
    MissingOnLog(ShortcomingRows(rows), all, k', AnalysisCompleted, key);
    assert ShortcomingRows(rows)[1] in ShortcomingRows(rows);
  }
}
