/** The events that `scripts/backfill-lifecycle.ts` builds from old rows. */
module BackfillEvents {
  import opened Wrappers
  import Separators

  const PRE_P6_TASK_SET_SENTINEL := "pre-p6-unknown"
  const SEP := '\U{1F}'

  /** `Date.parse`: none is an invalid date, which compares false with everything. */
  type DateParser = string -> Option<int>

  datatype BackfillRun = BackfillRun(id: string, modelSlug: string, taskSetHash: Option<string>, startedAt: string)

  datatype Shortcoming = Shortcoming(modelSlug: string, taskSetHash: Option<string>, firstSeen: string)

  datatype OccurrenceGroup = OccurrenceGroup(modelSlug: string, taskSetHash: Option<string>, lastSeen: string,
                                             occurrences: nat, cascaded: bool)

  /** The event types `bench.completed`, `analysis.completed` and `publish.completed` */
  datatype EventType = BenchCompleted | AnalysisCompleted | PublishCompleted

  datatype Payload = RunPayload(runId: string) | NoPayload | CountPayload(occurrences: nat)

  datatype Event = Event(ts: Option<int>, modelSlug: string, taskSetHash: string, eventType: EventType,
                         payload: Payload, note: string)

  function ResolveTaskSetHash(raw: Option<string>): (hash: string)
    ensures hash != ""
    ensures hash == PRE_P6_TASK_SET_SENTINEL || Some(hash) == raw
  {
    if raw.Some? && raw.value != "" then raw.value else PRE_P6_TASK_SET_SENTINEL
  }

  function Joined(slug: string, hash: string): string {
    slug + [SEP] + hash
  }

  /** The separator is the unit separator, the control character 31. */
  lemma JoinedExactly(slug: string, hash: string)
    ensures Joined(slug, hash) == slug + [31 as char] + hash
  {}

  /** Slugs without the separator keep joined keys apart. */
  lemma JoinedInjective(slug: string, hash: string, slug': string, hash': string)
    requires SEP !in slug && SEP !in slug' && Joined(slug, hash) == Joined(slug', hash')
    ensures slug == slug' && hash == hash'
  {
    Separators.SplitAtFirst(slug, hash, slug', hash', SEP);
  }

  /** A slug with the separator always shares its key with another pair. */
  lemma JoinedClash(slug: string, hash: string) returns (slug': string, hash': string)
    requires SEP in slug
    ensures Joined(slug, hash) == Joined(slug', hash') && (slug, hash) != (slug', hash')
  {
    var k :| 0 <= k < |slug| && slug[k] == SEP;
    slug', hash' := slug[..k], slug[k + 1..] + [SEP] + hash;
    assert slug == slug[..k] + [SEP] + slug[k + 1..];
    assert slug[..k] + [SEP] + slug[k + 1..] + [SEP] + hash == slug[..k] + [SEP] + (slug[k + 1..] + [SEP] + hash);
  }

  // ---------- One event per run ----------

  function BenchEvent(r: BackfillRun, parse: DateParser, nowNote: string): Event {
    Event(parse(r.startedAt), r.modelSlug, ResolveTaskSetHash(r.taskSetHash), BenchCompleted, RunPayload(r.id),
          if r.taskSetHash.Some? && r.taskSetHash.value != "" then nowNote
          else nowNote + "; task_set_hash unknown — pre-P6 era")
  }

  function BuildBenchEvents(runs: seq<BackfillRun>, parse: DateParser, nowNote: string): (events: seq<Event>)
    ensures |events| == |runs| && forall i :: 0 <= i < |runs| ==> events[i] == BenchEvent(runs[i], parse, nowNote)
  {
    seq(|runs|, i requires 0 <= i < |runs| => BenchEvent(runs[i], parse, nowNote))
  }

  /** One event for each run, in order, with its date, its model, its task set or the sentinel, and a
      note that says so. */
  lemma BenchEventsRight(runs: seq<BackfillRun>, i: nat, parse: DateParser, nowNote: string)
    requires i < |runs|
    ensures
      var e, r := BuildBenchEvents(runs, parse, nowNote)[i], runs[i];
      && e.ts == parse(r.startedAt) && e.modelSlug == r.modelSlug && e.eventType == BenchCompleted
      && e.payload == RunPayload(r.id)
      && (r.taskSetHash in {None, Some("")} ==>
            e.taskSetHash == "pre-p6-unknown" && e.note == nowNote + "; task_set_hash unknown — pre-P6 era")
      && (r.taskSetHash !in {None, Some("")} ==> Some(e.taskSetHash) == r.taskSetHash && e.note == nowNote)
  {}

  // ---------- One analysis event per model and task set ----------

  function ShortcomingKey(s: Shortcoming): string {
    Joined(s.modelSlug, ResolveTaskSetHash(s.taskSetHash))
  }

  /** `Date.parse(a) < Date.parse(b)` */
  predicate Before(a: Option<int>, b: Option<int>) {
    a.Some? && b.Some? && a.value < b.value
  }

  ghost predicate HasKey(rows: seq<Shortcoming>, k: string) {
    exists i :: 0 <= i < |rows| && ShortcomingKey(rows[i]) == k
  }

  lemma HasKeyStep(rows: seq<Shortcoming>, k: string)
    requires rows != []
    ensures HasKey(rows, k) <==> HasKey(rows[..|rows| - 1], k) || ShortcomingKey(rows[|rows| - 1]) == k
  {
    var init := rows[..|rows| - 1];
    if HasKey(init, k) {
      var i :| 0 <= i < |init| && ShortcomingKey(init[i]) == k;
      assert rows[i] == init[i];
    }
    if HasKey(rows, k) && ShortcomingKey(rows[|rows| - 1]) != k {
      var i :| 0 <= i < |rows| && ShortcomingKey(rows[i]) == k;
      assert rows[i] == init[i];
    }
  }

  /** The keys of the rows in the order in which they first occur. */
  function KeyOrder(rows: seq<Shortcoming>): (r: seq<string>)
    ensures forall i, j :: 0 <= i < j < |r| ==> r[i] != r[j]
  {
    if rows == [] then []
    else
      var r := KeyOrder(rows[..|rows| - 1]);
      var k := ShortcomingKey(rows[|rows| - 1]);
      if k in r then r else r + [k]
  }

  lemma {:induction false} KeyOrderHolds(rows: seq<Shortcoming>, k: string)
    ensures k in KeyOrder(rows) <==> HasKey(rows, k)
    decreases |rows|
  {
    if rows != [] {
      HasKeyStep(rows, k);
      KeyOrderHolds(rows[..|rows| - 1], k);
    }
  }

  /** The row as it is put into a bucket. */
  function Kept(s: Shortcoming): Shortcoming {
    s.(taskSetHash := Some(ResolveTaskSetHash(s.taskSetHash)))
  }

  /** What the bucket of a key holds after the rows. */
  function Bucket(rows: seq<Shortcoming>, k: string, parse: DateParser): Option<Shortcoming> {
    if rows == [] then None
    else
      var cur := Bucket(rows[..|rows| - 1], k, parse);
      var s := rows[|rows| - 1];
      if ShortcomingKey(s) == k && (cur.None? || Before(parse(s.firstSeen), parse(cur.value.firstSeen)))
      then Some(Kept(s))
      else cur
  }

  /** The row that a bucket holds. */
  lemma {:induction false} BucketRow(rows: seq<Shortcoming>, k: string, parse: DateParser) returns (i: nat)
    requires HasKey(rows, k)
    ensures i < |rows| && ShortcomingKey(rows[i]) == k && Bucket(rows, k, parse) == Some(Kept(rows[i]))
    decreases |rows|
  {
    var n := |rows| - 1;
    HasKeyStep(rows, k);
    if HasKey(rows[..n], k) {
      i := BucketRow(rows[..n], k, parse);
      if Bucket(rows, k, parse) != Bucket(rows[..n], k, parse) { i := n; }
    } else {
      NoBucket(rows[..n], k, parse);
      i := n;
    }
  }

  lemma {:induction false} NoBucket(rows: seq<Shortcoming>, k: string, parse: DateParser)
    requires !HasKey(rows, k)
    ensures Bucket(rows, k, parse) == None
    decreases |rows|
  {
    if rows != [] {
      HasKeyStep(rows, k);
      NoBucket(rows[..|rows| - 1], k, parse);
    }
  }

  function AnalysisEvent(s: Shortcoming, parse: DateParser, nowNote: string): Event {
    Event(parse(s.firstSeen), s.modelSlug, ResolveTaskSetHash(s.taskSetHash), AnalysisCompleted, NoPayload, nowNote)
  }

  /** The events: one for every key, in order of first occurrence. */
  ghost function AnalysisEvents(rows: seq<Shortcoming>, parse: DateParser, nowNote: string): (events: seq<Event>)
    ensures |events| == |KeyOrder(rows)|
    ensures forall i :: 0 <= i < |events| ==> events[i] == EventOf(rows, KeyOrder(rows)[i], parse, nowNote)
  {
    seq(|KeyOrder(rows)|, i requires 0 <= i < |KeyOrder(rows)| => EventOf(rows, KeyOrder(rows)[i], parse, nowNote))
  }

  ghost function EventOf(rows: seq<Shortcoming>, k: string, parse: DateParser, nowNote: string): Event {
    var b := Bucket(rows, k, parse);
    if b.Some? then AnalysisEvent(b.value, parse, nowNote) else Event(None, "", "", AnalysisCompleted, NoPayload, "")
  }

  /** The `Map` of `buildAnalysisEvents`, as insertion order and values, agrees with the rows seen so far. */
  ghost predicate Tracks(order: seq<string>, buckets: map<string, Shortcoming>, rows: seq<Shortcoming>,
                         parse: DateParser) {
    && order == KeyOrder(rows)
    && (forall k :: k in order ==> k in buckets)
    && (forall k :: Bucket(rows, k, parse) == if k in buckets then Some(buckets[k]) else None)
    && (forall k :: k in buckets ==> k in order)
  }

  lemma TracksStep(order: seq<string>, buckets: map<string, Shortcoming>, rows: seq<Shortcoming>, n: nat,
                   parse: DateParser)
    requires n < |rows| && Tracks(order, buckets, rows[..n], parse)
    ensures
      var s, key := rows[n], ShortcomingKey(rows[n]);
      if key !in buckets then Tracks(order + [key], buckets[key := Kept(s)], rows[..n + 1], parse)
      else if Before(parse(s.firstSeen), parse(buckets[key].firstSeen))
      then Tracks(order, buckets[key := Kept(s)], rows[..n + 1], parse)
      else Tracks(order, buckets, rows[..n + 1], parse)
  {
    assert rows[..n + 1][..n] == rows[..n];
    var key := ShortcomingKey(rows[n]);
    assert key in order <==> key in buckets;
    assert Bucket(rows[..n], key, parse) == if key in buckets then Some(buckets[key]) else None;
  }

  method BuildAnalysisEvents(rows: seq<Shortcoming>, parse: DateParser, nowNote: string) returns (events: seq<Event>)
    ensures events == AnalysisEvents(rows, parse, nowNote)
  {
    var order: seq<string> := [];
    var buckets: map<string, Shortcoming> := map[];
    for n := 0 to |rows|
      invariant Tracks(order, buckets, rows[..n], parse)
    {
      var s := rows[n];
      var hash := ResolveTaskSetHash(s.taskSetHash);
      var key := Joined(s.modelSlug, hash);
      TracksStep(order, buckets, rows, n, parse);
      if key !in buckets {
        order := order + [key];
        buckets := buckets[key := s.(taskSetHash := Some(hash))];
      } else if Before(parse(s.firstSeen), parse(buckets[key].firstSeen)) {
        buckets := buckets[key := s.(taskSetHash := Some(hash))];
      }
    }
    assert rows[..|rows|] == rows;
    forall i | 0 <= i < |order|
      ensures order[i] in buckets && AnalysisEvents(rows, parse, nowNote)[i]
              == AnalysisEvent(buckets[order[i]], parse, nowNote)
    {
      TracksAt(order, buckets, rows, i, parse, nowNote);
    }
    events := EventsInOrder(order, buckets, AnalysisEvents(rows, parse, nowNote), parse, nowNote);
  }

  lemma TracksAt(order: seq<string>, buckets: map<string, Shortcoming>, rows: seq<Shortcoming>, i: nat,
                 parse: DateParser, nowNote: string)
    requires Tracks(order, buckets, rows, parse) && i < |order|
    ensures order[i] in buckets && EventOf(rows, order[i], parse, nowNote)
            == AnalysisEvent(buckets[order[i]], parse, nowNote)
  {
    assert order[i] in order && Bucket(rows, order[i], parse) == Some(buckets[order[i]]);
  }

  method EventsInOrder(order: seq<string>, buckets: map<string, Shortcoming>, ghost expected: seq<Event>,
                       parse: DateParser, nowNote: string)
    returns (events: seq<Event>)
    requires |expected| == |order|
    requires forall i :: 0 <= i < |order| ==>
               order[i] in buckets && expected[i] == AnalysisEvent(buckets[order[i]], parse, nowNote)
    ensures events == expected
  {
    events := [];
    for i := 0 to |order|
      invariant events == expected[..i]
    {
      events := events + [AnalysisEvent(buckets[order[i]], parse, nowNote)];
    }
  }

  ghost predicate CleanSlugs(rows: seq<Shortcoming>) {
    forall i :: 0 <= i < |rows| ==> SEP !in rows[i].modelSlug
  }

  predicate SamePair(e: Event, s: Shortcoming) {
    e.modelSlug == s.modelSlug && e.taskSetHash == ResolveTaskSetHash(s.taskSetHash)
  }

  lemma EventRow(rows: seq<Shortcoming>, j: nat, parse: DateParser, nowNote: string) returns (i: nat)
    requires j < |KeyOrder(rows)|
    ensures
      var e := AnalysisEvents(rows, parse, nowNote)[j];
      i < |rows| && SamePair(e, rows[i]) && Joined(e.modelSlug, e.taskSetHash) == KeyOrder(rows)[j]
        == ShortcomingKey(rows[i])
  {
    var k := KeyOrder(rows)[j];
    assert k in KeyOrder(rows);
    KeyOrderHolds(rows, k);
    i := BucketRow(rows, k, parse);
  }

  lemma RowEvent(rows: seq<Shortcoming>, i: nat, parse: DateParser, nowNote: string) returns (j: nat)
    requires i < |rows| && CleanSlugs(rows)
    ensures j < |KeyOrder(rows)| && KeyOrder(rows)[j] == ShortcomingKey(rows[i])
    ensures SamePair(AnalysisEvents(rows, parse, nowNote)[j], rows[i])
  {
    KeyOrderHolds(rows, ShortcomingKey(rows[i]));
    j :| 0 <= j < |KeyOrder(rows)| && KeyOrder(rows)[j] == ShortcomingKey(rows[i]);
    var m := EventRow(rows, j, parse, nowNote);
    JoinedInjective(rows[i].modelSlug, ResolveTaskSetHash(rows[i].taskSetHash), rows[m].modelSlug,
                    ResolveTaskSetHash(rows[m].taskSetHash));
  }

  ghost predicate Covered(s: Shortcoming, events: seq<Event>) {
    exists j :: 0 <= j < |events| && SamePair(events[j], s)
  }

  ghost predicate StandsForRow(e: Event, rows: seq<Shortcoming>) {
    exists i :: 0 <= i < |rows| && SamePair(e, rows[i])
  }

  predicate SameTarget(e: Event, e': Event) {
    e.modelSlug == e'.modelSlug && e.taskSetHash == e'.taskSetHash
  }

  /** Every event stands for a row and every row for an event; no two events share model and task set. */
  lemma OneEventPerPair(rows: seq<Shortcoming>, parse: DateParser, nowNote: string)
    requires CleanSlugs(rows)
    ensures
      var events := AnalysisEvents(rows, parse, nowNote);
      && (forall i :: 0 <= i < |rows| ==> Covered(rows[i], events))
      && (forall j :: 0 <= j < |events| ==> StandsForRow(events[j], rows))
      && (forall i, j :: 0 <= i < j < |events| ==> !SameTarget(events[i], events[j]))
  {
    var events := AnalysisEvents(rows, parse, nowNote);
    forall i | 0 <= i < |rows| ensures Covered(rows[i], events) {
      var j := RowEvent(rows, i, parse, nowNote);
    }
    forall j | 0 <= j < |events| ensures StandsForRow(events[j], rows) {
      var i := EventRow(rows, j, parse, nowNote);
    }
    forall i, j | 0 <= i < j < |events| ensures !SameTarget(events[i], events[j]) {
      EventsApart(rows, i, j, parse, nowNote);
    }
  }

  lemma EventsApart(rows: seq<Shortcoming>, i: nat, j: nat, parse: DateParser, nowNote: string)
    requires i < j < |KeyOrder(rows)|
    ensures !SameTarget(AnalysisEvents(rows, parse, nowNote)[i], AnalysisEvents(rows, parse, nowNote)[j])
  {
    var m := EventRow(rows, i, parse, nowNote);
    var n := EventRow(rows, j, parse, nowNote);
  }

  // ---------- The earliest date ----------

  /** The first row of the key. */
  ghost predicate FirstOf(rows: seq<Shortcoming>, f: nat, k: string) {
    f < |rows| && ShortcomingKey(rows[f]) == k && !HasKey(rows[..f], k)
  }

  /** Nothing compares less than an invalid date, so one that comes first stays. */
  lemma {:induction false} InvalidFirstStays(rows: seq<Shortcoming>, f: nat, k: string, parse: DateParser)
    requires FirstOf(rows, f, k) && parse(rows[f].firstSeen).None?
    ensures Bucket(rows, k, parse) == Some(Kept(rows[f]))
    decreases |rows|
  {
    var n := |rows| - 1;
    if f < n {
      assert rows[..n][..f] == rows[..f];
      InvalidFirstStays(rows[..n], f, k, parse);
    } else {
      NoBucket(rows[..n], k, parse);
    }
  }

  /** No row of the key has an earlier date than `ts`. */
  ghost predicate NoneEarlier(rows: seq<Shortcoming>, k: string, ts: int, parse: DateParser) {
    forall i :: 0 <= i < |rows| && ShortcomingKey(rows[i]) == k ==> !Before(parse(rows[i].firstSeen), Some(ts))
  }

  /** One more row: the bucket holds it if it is earlier. */
  lemma EarliestGrows(before: seq<Shortcoming>, s: Shortcoming, k: string, held: Shortcoming, parse: DateParser)
    requires parse(held.firstSeen).Some? && NoneEarlier(before, k, parse(held.firstSeen).value, parse)
    ensures
      var earlier := ShortcomingKey(s) == k && Before(parse(s.firstSeen), parse(held.firstSeen));
      NoneEarlier(before + [s], k, (if earlier then parse(s.firstSeen) else parse(held.firstSeen)).value, parse)
  {
    var rows := before + [s];
    forall i | 0 <= i < |rows| && ShortcomingKey(rows[i]) == k
      ensures !Before(parse(rows[i].firstSeen), parse(held.firstSeen)) || rows[i] == s
    {
      if i < |before| { assert rows[i] == before[i]; }
    }
  }

  lemma {:induction false} ValidFirstGivesEarliest(rows: seq<Shortcoming>, f: nat, k: string, parse: DateParser)
    requires FirstOf(rows, f, k) && parse(rows[f].firstSeen).Some?
    ensures
      var b := Bucket(rows, k, parse);
      b.Some? && parse(b.value.firstSeen).Some? && NoneEarlier(rows, k, parse(b.value.firstSeen).value, parse)
    decreases |rows|
  {
    var n := |rows| - 1;
    if f < n {
      assert rows[..n][..f] == rows[..f];
      ValidFirstGivesEarliest(rows[..n], f, k, parse);
      assert rows == rows[..n] + [rows[n]];
      EarliestGrows(rows[..n], rows[n], k, Bucket(rows[..n], k, parse).value, parse);
    } else {
      NoBucket(rows[..n], k, parse);
      forall i | 0 <= i < |rows| && ShortcomingKey(rows[i]) == k ensures i == n {
        if i < n { NotBeforeFirst(rows, f, k, i); }
      }
    }
  }

  lemma NotBeforeFirst(rows: seq<Shortcoming>, f: nat, k: string, i: nat)
    requires FirstOf(rows, f, k) && i < f
    ensures ShortcomingKey(rows[i]) != k
  {
    assert HasKey(rows[..f], ShortcomingKey(rows[i])) by { assert rows[..f][i] == rows[i]; }
  }

  /** The event of a pair carries the least of its rows' valid dates; but if the first of those rows
      has an invalid date, the event has no date, whatever the others say. */
  lemma EventCarriesEarliest(rows: seq<Shortcoming>, f: nat, j: nat, parse: DateParser, nowNote: string)
    requires j < |KeyOrder(rows)| && FirstOf(rows, f, KeyOrder(rows)[j])
    ensures
      var k, ts := KeyOrder(rows)[j], AnalysisEvents(rows, parse, nowNote)[j].ts;
      && (ts.None? <==> parse(rows[f].firstSeen).None?)
      && (ts.Some? ==>
            && NoneEarlier(rows, k, ts.value, parse)
            && exists i :: 0 <= i < |rows| && ShortcomingKey(rows[i]) == k && parse(rows[i].firstSeen) == ts)
  {
    var k := KeyOrder(rows)[j];
    assert HasKey(rows, k);
    var i := BucketRow(rows, k, parse);
    if parse(rows[f].firstSeen).None? {
      InvalidFirstStays(rows, f, k, parse);
    } else {
      ValidFirstGivesEarliest(rows, f, k, parse);
    }
  }

  /** Each analysis event is that of a row: its model, its task set or the sentinel, an empty payload. */
  lemma AnalysisEventsRight(rows: seq<Shortcoming>, j: nat, parse: DateParser, nowNote: string) returns (i: nat)
    requires j < |KeyOrder(rows)|
    ensures
      var e := AnalysisEvents(rows, parse, nowNote)[j];
      && i < |rows| && e.modelSlug == rows[i].modelSlug && e.ts == parse(rows[i].firstSeen)
      && e.eventType == AnalysisCompleted && e.payload == NoPayload && e.note == nowNote
      && (if rows[i].taskSetHash in {None, Some("")} then e.taskSetHash == "pre-p6-unknown"
          else Some(e.taskSetHash) == rows[i].taskSetHash)
  {
    assert KeyOrder(rows)[j] in KeyOrder(rows);
    KeyOrderHolds(rows, KeyOrder(rows)[j]);
    i := BucketRow(rows, KeyOrder(rows)[j], parse);
  }
}
