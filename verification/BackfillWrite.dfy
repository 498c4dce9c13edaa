/** `writeEvents` of `scripts/backfill-lifecycle.ts` against a server that drops events whose key it
    already holds, with runs that are cut short anywhere and started again. */
module BackfillWrite {
  import opened Wrappers

  /** What the server compares events by; any function of the event will do. */
  type Key<!T> = T -> string

  /** What becomes of one request: answered, stored without an answer, or never stored. */
  datatype Delivery = Delivered | ReplyLost(message: string) | NotDelivered(message: string)

  predicate Includes(s: string, part: string) {
    exists i :: 0 <= i <= |s| && StartsAt(s, part, i)
  }

  predicate StartsAt(s: string, part: string, i: nat)
    requires i <= |s|
  {
    part <= s[i..]
  }

  /** How `writeEvents` recognises the reply to a duplicate. */
  predicate ReadsAsDuplicate(message: string) {
    Includes(message, "(409)") && Includes(message, "duplicate_event")
  }

  /** Searching finds a part wherever it stands. */
  lemma IncludesExactly(s: string, part: string)
    ensures Includes(s, part) <==> exists before, after :: s == before + part + after
  {
    if Includes(s, part) {
      var i :| 0 <= i <= |s| && StartsAt(s, part, i);
      assert s[i..] == part + s[i..][|part|..] && s == s[..i] + s[i..];
      assert s == s[..i] + part + s[i..][|part|..];
    }
    if before, after :| s == before + part + after {
      assert s == before + (part + after);
      assert s[|before|..] == part + after;
      assert StartsAt(s, part, |before|);
    }
  }

  /** A message reads like a duplicate's reply exactly if both marks stand somewhere in it. */
  lemma DuplicateMarks(message: string)
    ensures ReadsAsDuplicate(message) <==>
            && (exists before, after :: message == before + "(409)" + after)
            && (exists before, after :: message == before + "duplicate_event" + after)
  {
    IncludesExactly(message, "(409)");
    IncludesExactly(message, "duplicate_event");
  }

  predicate HasKey<T>(log: seq<T>, k: string, key: Key<T>) {
    exists i :: 0 <= i < |log| && key(log[i]) == k
  }

  function Landed<T>(log: seq<T>, ev: T, key: Key<T>): seq<T> {
    if HasKey(log, key(ev), key) then log else log + [ev]
  }

  /** The log once every event of the list has landed, in order. */
  function LandAll<T>(log: seq<T>, events: seq<T>, key: Key<T>): (r: seq<T>)
    ensures log <= r
    decreases |events|
  {
    if events == [] then log
    else Landed(LandAll(log, events[..|events| - 1], key), events[|events| - 1], key)
  }

  class EventServer<T> {
    var log: seq<T>
    const key: Key<T>
    const duplicateReply: string

    constructor (log: seq<T>, key: Key<T>, duplicateReply: string)
      ensures this.log == log && this.key == key && this.duplicateReply == duplicateReply
    {
      this.log, this.key, this.duplicateReply := log, key, duplicateReply;
    }

    /** The error the caller sees, if any. */
    method Append(ev: T, delivery: Delivery) returns (error: Option<string>)
      modifies this
      ensures log == LogAfter(old(log), ev, delivery, key)
      ensures error == ErrorOf(old(log), ev, delivery, key, duplicateReply)
    {
      if delivery.NotDelivered? { return Some(delivery.message); }
      var duplicate := HasKey(log, key(ev), key);
      if !duplicate { log := log + [ev]; }
      if delivery.ReplyLost? { return Some(delivery.message); }
      return if duplicate then Some(duplicateReply) else None;
    }
  }

  function LogAfter<T>(log: seq<T>, ev: T, delivery: Delivery, key: Key<T>): seq<T> {
    if delivery.NotDelivered? then log else Landed(log, ev, key)
  }

  function ErrorOf<T>(log: seq<T>, ev: T, delivery: Delivery, key: Key<T>, duplicateReply: string): Option<string> {
    if !delivery.Delivered? then Some(delivery.message)
    else if HasKey(log, key(ev), key) then Some(duplicateReply)
    else None
  }

  datatype Progress<T> = Progress(log: seq<T>, written: nat, skipped: nat, slept: nat, threw: Option<string>)

  function StepWrite<T>(p: Progress<T>, ev: T, delivery: Delivery, key: Key<T>, duplicateReply: string,
                        paceMs: int): Progress<T> {
    if p.threw.Some? then p
    else
      var error := ErrorOf(p.log, ev, delivery, key, duplicateReply);
      var q := p.(log := LogAfter(p.log, ev, delivery, key));
      var paced := q.(slept := q.slept + if paceMs > 0 then paceMs else 0);
      if error.None? then paced.(written := q.written + 1)
      else if ReadsAsDuplicate(error.value) then paced.(skipped := q.skipped + 1)
      else q.(threw := error)
  }

  /** The run over the first `k` events. */
  function WriteRun<T>(log: seq<T>, events: seq<T>, k: nat, deliveries: nat -> Delivery, key: Key<T>,
                       duplicateReply: string, paceMs: int): Progress<T>
    requires k <= |events|
  {
    if k == 0 then Progress(log, 0, 0, 0, None)
    else
      StepWrite(WriteRun(log, events, k - 1, deliveries, key, duplicateReply, paceMs),
                events[k - 1], deliveries(k - 1), key, duplicateReply, paceMs)
  }

  method WriteEvents<T>(events: seq<T>, server: EventServer<T>, deliveries: nat -> Delivery, paceMs: int)
    returns (written: nat, skipped: nat, slept: nat, threw: Option<string>)
    modifies server
    ensures Progress(server.log, written, skipped, slept, threw)
         == WriteRun(old(server.log), events, |events|, deliveries, server.key, server.duplicateReply, paceMs)
  {
    written, skipped, slept, threw := 0, 0, 0, None;
    for i := 0 to |events|
      invariant Progress(server.log, written, skipped, slept, None)
             == WriteRun(old(server.log), events, i, deliveries, server.key, server.duplicateReply, paceMs)
    {
      var error := server.Append(events[i], deliveries(i));
      if error.None? {
        written := written + 1;
      } else if ReadsAsDuplicate(error.value) {
        skipped := skipped + 1;
      } else {
        threw := error;
        ThrownStays(old(server.log), events, i + 1, |events|, deliveries, server.key, server.duplicateReply, paceMs);
        return;
      }
      if paceMs > 0 { slept := slept + paceMs; }
    }
  }

  lemma {:induction false} ThrownStays<T>(log: seq<T>, events: seq<T>, i: nat, k: nat, deliveries: nat -> Delivery,
                                          key: Key<T>, duplicateReply: string, paceMs: int)
    requires i <= k <= |events| && WriteRun(log, events, i, deliveries, key, duplicateReply, paceMs).threw.Some?
    ensures WriteRun(log, events, k, deliveries, key, duplicateReply, paceMs)
            == WriteRun(log, events, i, deliveries, key, duplicateReply, paceMs)
    decreases k - i
  {
    if i < k { ThrownStays(log, events, i, k - 1, deliveries, key, duplicateReply, paceMs); }
  }

  // ---------- One run ----------

  /** The reply to a duplicate is recognised, and no request of the first `n` that failed to arrive
      gives a text that reads like it. */
  ghost predicate Honest(deliveries: nat -> Delivery, n: nat, duplicateReply: string) {
    && ReadsAsDuplicate(duplicateReply)
    && forall i: nat :: i < n && deliveries(i).NotDelivered? ==> !ReadsAsDuplicate(deliveries(i).message)
  }

  /** No reply of the first `n` was lost with a text that reads like a duplicate's. */
  ghost predicate CountsRight(deliveries: nat -> Delivery, n: nat) {
    forall i: nat :: i < n && deliveries(i).ReplyLost? ==> !ReadsAsDuplicate(deliveries(i).message)
  }

  /** Without an error every event was handled and landed. An error at event `i` means that exactly
      the first `i` events were handled; the log also holds event `i` only if its reply was lost. */
  ghost predicate Handled<T>(log: seq<T>, events: seq<T>, k: nat, p: Progress<T>, deliveries: nat -> Delivery,
                             key: Key<T>)
    requires k <= |events|
  {
    var i := p.written + p.skipped;
    if p.threw.None? then
      && i == k && p.log == LandAll(log, events[..k], key)
      && (CountsRight(deliveries, k) ==> p.written == |p.log| - |log|)
    else
      && i < k && !deliveries(i).Delivered?
      && p.log == LandAll(log, events[..if deliveries(i).ReplyLost? then i + 1 else i], key)
  }

  lemma LandOneMore<T>(log: seq<T>, events: seq<T>, k: nat, key: Key<T>)
    requires k < |events|
    ensures LandAll(log, events[..k + 1], key) == Landed(LandAll(log, events[..k], key), events[k], key)
  {
    assert events[..k + 1][..k] == events[..k];
  }

  lemma StepHandles<T>(log: seq<T>, events: seq<T>, k: nat, p: Progress<T>, deliveries: nat -> Delivery,
                       key: Key<T>, duplicateReply: string, paceMs: int)
    requires k < |events| && Honest(deliveries, k + 1, duplicateReply) && Handled(log, events, k, p, deliveries, key)
    ensures Handled(log, events, k + 1, StepWrite(p, events[k], deliveries(k), key, duplicateReply, paceMs),
                    deliveries, key)
  {
    LandOneMore(log, events, k, key);
    if p.threw.None? {
      match deliveries(k)
      case Delivered => assert StepWrite(p, events[k], deliveries(k), key, duplicateReply, paceMs).threw.None?;
      case ReplyLost(message) => assert CountsRight(deliveries, k + 1) ==> !ReadsAsDuplicate(deliveries(k).message);
      case NotDelivered(message) => assert !ReadsAsDuplicate(deliveries(k).message);
    }
  }

  lemma {:induction false} RunHandles<T>(log: seq<T>, events: seq<T>, k: nat, deliveries: nat -> Delivery,
                                         key: Key<T>, duplicateReply: string, paceMs: int)
    requires k <= |events| && Honest(deliveries, k, duplicateReply)
    ensures Handled(log, events, k, WriteRun(log, events, k, deliveries, key, duplicateReply, paceMs), deliveries, key)
    decreases k
  {
    if k > 0 {
      RunHandles(log, events, k - 1, deliveries, key, duplicateReply, paceMs);
      StepHandles(log, events, k - 1, WriteRun(log, events, k - 1, deliveries, key, duplicateReply, paceMs),
                  deliveries, key, duplicateReply, paceMs);
    }
  }

  lemma StepPaces<T>(p: Progress<T>, ev: T, delivery: Delivery, key: Key<T>, duplicateReply: string, paceMs: int)
    ensures
      var q := StepWrite(p, ev, delivery, key, duplicateReply, paceMs);
      var more := q.written + q.skipped - p.written - p.skipped;
      more in {0, 1} && q.slept == p.slept + if more == 1 && paceMs > 0 then paceMs else 0
  {}

  /** A run waits once for every event it handled. */
  lemma {:induction false} RunPaces<T>(log: seq<T>, events: seq<T>, k: nat, deliveries: nat -> Delivery,
                                       key: Key<T>, duplicateReply: string, paceMs: int)
    requires k <= |events|
    ensures
      var p := WriteRun(log, events, k, deliveries, key, duplicateReply, paceMs);
      p.slept == Times(p.written + p.skipped, if paceMs > 0 then paceMs else 0)
    decreases k
  {
    if k > 0 {
      RunPaces(log, events, k - 1, deliveries, key, duplicateReply, paceMs);
      StepPaces(WriteRun(log, events, k - 1, deliveries, key, duplicateReply, paceMs),
                events[k - 1], deliveries(k - 1), key, duplicateReply, paceMs);
    }
  }

  function Times(n: nat, pace: nat): nat {
    if n == 0 then 0 else Times(n - 1, pace) + pace
  }

  // ---------- Landing again ----------

  lemma {:induction false} LandAllHas<T>(log: seq<T>, events: seq<T>, i: nat, key: Key<T>)
    requires i < |events|
    ensures HasKey(LandAll(log, events, key), key(events[i]), key)
    decreases |events|
  {
    var n := |events| - 1;
    if i < n {
      LandAllHas(log, events[..n], i, key);
      var r := LandAll(log, events[..n], key);
      var j :| 0 <= j < |r| && key(r[j]) == key(events[i]);
      assert LandAll(log, events, key)[j] == r[j];
    } else {
      var r := LandAll(log, events, key);
      assert HasKey(r, key(events[n]), key) by {
        if r != LandAll(log, events[..n], key) { assert r[|r| - 1] == events[n]; }
      }
    }
  }

  lemma {:induction false} LandAllSplits<T>(log: seq<T>, events: seq<T>, m: nat, key: Key<T>)
    requires m <= |events|
    ensures LandAll(log, events, key) == LandAll(LandAll(log, events[..m], key), events[m..], key)
    decreases |events|
  {
    var n := |events| - 1;
    if m <= n {
      LandAllSplits(log, events[..n], m, key);
      assert events[..n][..m] == events[..m] && events[..n][m..] == events[m..][..n - m];
      assert events[m..][|events[m..]| - 1] == events[n];
    } else {
      assert events[..m] == events && events[m..] == [];
    }
  }

  /** Events whose keys the log holds change nothing. */
  lemma {:induction false} KnownLandNothing<T>(log: seq<T>, events: seq<T>, key: Key<T>)
    requires forall i :: 0 <= i < |events| ==> HasKey(log, key(events[i]), key)
    ensures LandAll(log, events, key) == log
    decreases |events|
  {
    if events != [] {
      var n := |events| - 1;
      forall i | 0 <= i < n ensures HasKey(log, key(events[..n][i]), key) { assert events[..n][i] == events[i]; }
      KnownLandNothing(log, events[..n], key);
      assert HasKey(log, key(events[n]), key);
    }
  }

  /** Landing a prefix twice is landing the longer one. */
  lemma LandAgain<T>(log: seq<T>, events: seq<T>, m: nat, j: nat, key: Key<T>)
    requires m <= |events| && j <= |events|
    ensures LandAll(LandAll(log, events[..m], key), events[..j], key)
            == LandAll(log, events[..if j < m then m else j], key)
  {
    var held := LandAll(log, events[..m], key);
    var again := if j < m then j else m;
    forall i | 0 <= i < again ensures HasKey(held, key(events[..again][i]), key) {
      LandAllHas(log, events[..m], i, key);
      assert events[..again][i] == events[..m][i];
    }
    KnownLandNothing(held, events[..again], key);
    if m <= j {
      LandAllSplits(held, events[..j], m, key);
      LandAllSplits(log, events[..j], m, key);
      assert events[..j][..m] == events[..m];
    }
  }

  // ---------- What a completed run has landed ----------

  /** The events of the first `k` requests that reached the server. */
  function Arrived<T>(events: seq<T>, k: nat, deliveries: nat -> Delivery): seq<T>
    requires k <= |events|
  {
    if k == 0 then []
    else Arrived(events, k - 1, deliveries) + if deliveries(k - 1).NotDelivered? then [] else [events[k - 1]]
  }

  /** Whatever the replies say, the log holds what arrived: of all events if the run got through, of
      those up to the one that threw otherwise. */
  ghost predicate LandedArrived<T>(log: seq<T>, events: seq<T>, k: nat, p: Progress<T>, deliveries: nat -> Delivery,
                                   key: Key<T>)
    requires k <= |events|
  {
    var i := p.written + p.skipped;
    if p.threw.None? then i == k && p.log == LandAll(log, Arrived(events, k, deliveries), key)
    else i < k && p.log == LandAll(log, Arrived(events, i + 1, deliveries), key)
  }

  lemma ArrivalLands<T>(log: seq<T>, events: seq<T>, k: nat, deliveries: nat -> Delivery, key: Key<T>)
    requires k < |events|
    ensures LandAll(log, Arrived(events, k + 1, deliveries), key)
         == LogAfter(LandAll(log, Arrived(events, k, deliveries), key), events[k], deliveries(k), key)
  {
    var before, after := Arrived(events, k, deliveries), Arrived(events, k + 1, deliveries);
    if deliveries(k).NotDelivered? {
      assert after == before;
    } else {
      assert after == before + [events[k]] && after[..|before|] == before;
    }
  }

  lemma StepArrives<T>(log: seq<T>, events: seq<T>, k: nat, p: Progress<T>, deliveries: nat -> Delivery,
                       key: Key<T>, duplicateReply: string, paceMs: int)
    requires k < |events| && LandedArrived(log, events, k, p, deliveries, key)
    ensures LandedArrived(log, events, k + 1, StepWrite(p, events[k], deliveries(k), key, duplicateReply, paceMs),
                          deliveries, key)
  {
    var q := StepWrite(p, events[k], deliveries(k), key, duplicateReply, paceMs);
    StepCounts(p, events[k], deliveries(k), key, duplicateReply, paceMs);
    if p.threw.None? {
      ArrivalLands(log, events, k, deliveries, key);
      assert q.log == LandAll(log, Arrived(events, k + 1, deliveries), key);
      LandedNow(log, events, k, q, deliveries, key);
    }
  }

  lemma LandedNow<T>(log: seq<T>, events: seq<T>, k: nat, q: Progress<T>, deliveries: nat -> Delivery, key: Key<T>)
    requires k < |events| && q.written + q.skipped == k + if q.threw.None? then 1 else 0
    requires q.log == LandAll(log, Arrived(events, k + 1, deliveries), key)
    ensures LandedArrived(log, events, k + 1, q, deliveries, key)
  {
    if q.threw.Some? { assert q.written + q.skipped + 1 == k + 1; }
  }

  lemma StepCounts<T>(p: Progress<T>, ev: T, delivery: Delivery, key: Key<T>, duplicateReply: string, paceMs: int)
    ensures
      var q := StepWrite(p, ev, delivery, key, duplicateReply, paceMs);
      if p.threw.Some? then q == p
      else
        && q.log == LogAfter(p.log, ev, delivery, key)
        && q.written + q.skipped == p.written + p.skipped + if q.threw.None? then 1 else 0
  {}

  lemma {:induction false} RunLandsArrived<T>(log: seq<T>, events: seq<T>, k: nat, deliveries: nat -> Delivery,
                                              key: Key<T>, duplicateReply: string, paceMs: int)
    requires k <= |events|
    ensures LandedArrived(log, events, k, WriteRun(log, events, k, deliveries, key, duplicateReply, paceMs),
                          deliveries, key)
    decreases k
  {
    if k > 0 {
      RunLandsArrived(log, events, k - 1, deliveries, key, duplicateReply, paceMs);
      StepArrives(log, events, k - 1, WriteRun(log, events, k - 1, deliveries, key, duplicateReply, paceMs),
                  deliveries, key, duplicateReply, paceMs);
    }
  }

  /** Every fault reads like a duplicate. */
  ghost predicate AllPassFor(deliveries: nat -> Delivery, n: nat) {
    forall i: nat :: i < n && !deliveries(i).Delivered? ==> ReadsAsDuplicate(deliveries(i).message)
  }

  /** A run gets through exactly when every fault reads like a duplicate, whatever the log. */
  lemma {:induction false} CompletesExactly<T>(log: seq<T>, events: seq<T>, k: nat, deliveries: nat -> Delivery,
                                               key: Key<T>, duplicateReply: string, paceMs: int)
    requires k <= |events| && ReadsAsDuplicate(duplicateReply)
    ensures WriteRun(log, events, k, deliveries, key, duplicateReply, paceMs).threw.None? <==> AllPassFor(deliveries, k)
    decreases k
  {
    if k > 0 { CompletesExactly(log, events, k - 1, deliveries, key, duplicateReply, paceMs); }
  }

  /** The events without repetition, each at its first place. */
  function Uniques<T(==,!new)>(events: seq<T>): (r: seq<T>)
    ensures forall x :: x in r <==> x in events
    decreases |events|
  {
    if events == [] then []
    else
      var n := |events| - 1;
      assert events == events[..n] + [events[n]];
      var r := Uniques(events[..n]);
      if events[n] in r then r else r + [events[n]]
  }

  /** Repetitions of an event land nothing. */
  lemma {:induction false} UniquesLand<T(!new)>(log: seq<T>, events: seq<T>, key: Key<T>)
    ensures LandAll(log, events, key) == LandAll(log, Uniques(events), key)
    decreases |events|
  {
    if events != [] {
      var n := |events| - 1;
      var r := Uniques(events[..n]);
      UniquesLand(log, events[..n], key);
      if events[n] in r {
        var i :| 0 <= i < |r| && r[i] == events[n];
        LandAllHas(log, r, i, key);
      } else {
        assert (r + [events[n]])[..|r|] == r;
      }
    }
  }

  ghost predicate TellsApart<T(!new)>(key: Key<T>, events: seq<T>) {
    forall x, y :: x in events && y in events && key(x) == key(y) ==> x == y
  }

  /** A key that tells the events apart keeps each of them. */
  lemma {:induction false} ApartLandAll<T(!new)>(events: seq<T>, key: Key<T>)
    requires TellsApart(key, events)
    ensures LandAll([], events, key) == Uniques(events)
    decreases |events|
  {
    if events != [] {
      var n := |events| - 1;
      var r := Uniques(events[..n]);
      assert events == events[..n] + [events[n]];
      ApartLandAll(events[..n], key);
      InHasKey(r, events[n], key);
      if HasKey(r, key(events[n]), key) {
        var i :| 0 <= i < |r| && key(r[i]) == key(events[n]);
        assert r[i] in events;
      }
    }
  }

  lemma InHasKey<T>(events: seq<T>, x: T, key: Key<T>)
    ensures x in events ==> HasKey(events, key(x), key)
  {}

  /** A key: how far into the list the event stands. */
  function Place<T(==)>(us: seq<T>, x: T): string {
    if us == [] || us[0] == x then "" else "." + Place(us[1..], x)
  }

  lemma {:induction false} PlaceTells<T>(us: seq<T>, x: T, y: T)
    requires x in us && Place(us, x) == Place(us, y)
    ensures x == y
    decreases |us|
  {
    if us[0] != x {
      assert us == [us[0]] + us[1..];
      assert |Place(us, y)| > 0;
      assert Place(us, x)[1..] == Place(us[1..], x) && Place(us, y)[1..] == Place(us[1..], y);
      PlaceTells(us[1..], x, y);
    }
  }

  lemma {:induction false} ArrivedAmong<T>(events: seq<T>, k: nat, deliveries: nat -> Delivery, x: T)
    requires k <= |events| && x in Arrived(events, k, deliveries)
    ensures exists i: nat :: i < k && events[i] == x && !deliveries(i).NotDelivered?
    decreases k
  {
    if x in Arrived(events, k - 1, deliveries) { ArrivedAmong(events, k - 1, deliveries, x); }
  }

  /** Completed runs over the list land all of it, on every log and for every key. */
  ghost predicate LandsAll<T(!new)>(events: seq<T>, deliveries: nat -> Delivery, duplicateReply: string, paceMs: int) {
    forall log: seq<T>, key: Key<T> ::
      WriteRun(log, events, |events|, deliveries, key, duplicateReply, paceMs).log == LandAll(log, events, key)
  }

  lemma CompletedLandsArrived<T>(log: seq<T>, events: seq<T>, deliveries: nat -> Delivery, key: Key<T>,
                                 duplicateReply: string, paceMs: int)
    requires ReadsAsDuplicate(duplicateReply) && AllPassFor(deliveries, |events|)
    ensures WriteRun(log, events, |events|, deliveries, key, duplicateReply, paceMs).log
         == LandAll(log, Arrived(events, |events|, deliveries), key)
  {
    CompletesExactly(log, events, |events|, deliveries, key, duplicateReply, paceMs);
    RunLandsArrived(log, events, |events|, deliveries, key, duplicateReply, paceMs);
  }

  /** Events told apart by their place in the list without repetitions. */
  lemma PlacedLandDifferently<T(!new)>(arrived: seq<T>, events: seq<T>, key: Key<T>)
    requires Uniques(arrived) != Uniques(events) && forall x :: x in arrived ==> x in events
    requires forall x :: key(x) == Place(Uniques(events), x)
    ensures LandAll([], arrived, key) != LandAll([], events, key)
  {
    var us := Uniques(events);
    forall x, y | x in us && y in us && key(x) == key(y) ensures x == y { PlaceTells(us, x, y); }
    ApartLandAll(events, key);
    ApartLandAll(arrived, key);
  }

  /** A run that gets through has landed the whole list, on every log and for every key, exactly when
      what arrived is the list up to repetitions. */
  lemma LandsAllExactly<T(!new)>(events: seq<T>, deliveries: nat -> Delivery, duplicateReply: string, paceMs: int)
    requires ReadsAsDuplicate(duplicateReply) && AllPassFor(deliveries, |events|)
    ensures LandsAll(events, deliveries, duplicateReply, paceMs)
       <==> Uniques(Arrived(events, |events|, deliveries)) == Uniques(events)
  {
    if Uniques(Arrived(events, |events|, deliveries)) == Uniques(events) {
      forall log: seq<T>, key: Key<T>
        ensures WriteRun(log, events, |events|, deliveries, key, duplicateReply, paceMs).log
                == LandAll(log, events, key)
      {
        ArrivedEnough(log, events, deliveries, key, duplicateReply, paceMs);
      }
    } else {
      var key := ArrivedTooLittle(events, deliveries, duplicateReply, paceMs);
    }
  }

  lemma ArrivedEnough<T(!new)>(log: seq<T>, events: seq<T>, deliveries: nat -> Delivery, key: Key<T>,
                               duplicateReply: string, paceMs: int)
    requires ReadsAsDuplicate(duplicateReply) && AllPassFor(deliveries, |events|)
    requires Uniques(Arrived(events, |events|, deliveries)) == Uniques(events)
    ensures WriteRun(log, events, |events|, deliveries, key, duplicateReply, paceMs).log == LandAll(log, events, key)
  {
    CompletedLandsArrived(log, events, deliveries, key, duplicateReply, paceMs);
    UniquesLand(log, Arrived(events, |events|, deliveries), key);
    UniquesLand(log, events, key);
  }

  lemma ArrivedTooLittle<T(!new)>(events: seq<T>, deliveries: nat -> Delivery, duplicateReply: string, paceMs: int)
    returns (key: Key<T>)
    requires ReadsAsDuplicate(duplicateReply) && AllPassFor(deliveries, |events|)
    requires Uniques(Arrived(events, |events|, deliveries)) != Uniques(events)
    ensures WriteRun([], events, |events|, deliveries, key, duplicateReply, paceMs).log != LandAll([], events, key)
  {
    key := x => Place(Uniques(events), x);
    var arrived := Arrived(events, |events|, deliveries);
    forall x | x in arrived ensures x in events { ArrivedAmong(events, |events|, deliveries, x); }
    PlacedLandDifferently(arrived, events, key);
    CompletedLandsArrived([], events, deliveries, key, duplicateReply, paceMs);
  }

  ghost predicate AllDifferent<T>(events: seq<T>) {
    forall i, j :: 0 <= i < j < |events| ==> events[i] != events[j]
  }

  /** No request of the list failed to arrive with a text that reads like a duplicate's. */
  ghost predicate NoLookalike(deliveries: nat -> Delivery, n: nat) {
    forall i: nat :: i < n && deliveries(i).NotDelivered? ==> !ReadsAsDuplicate(deliveries(i).message)
  }

  lemma {:induction false} ArrivedAll<T>(events: seq<T>, k: nat, deliveries: nat -> Delivery)
    requires k <= |events| && forall i: nat :: i < k ==> !deliveries(i).NotDelivered?
    ensures Arrived(events, k, deliveries) == events[..k]
    decreases k
  {
    if k > 0 { ArrivedAll(events, k - 1, deliveries); }
  }

  /** For a list of different events that is when no request failed to arrive with such a text. */
  lemma DifferentLandExactly<T(!new)>(events: seq<T>, deliveries: nat -> Delivery, duplicateReply: string, paceMs: int)
    requires ReadsAsDuplicate(duplicateReply) && AllPassFor(deliveries, |events|) && AllDifferent(events)
    ensures LandsAll(events, deliveries, duplicateReply, paceMs) <==> NoLookalike(deliveries, |events|)
  {
    LandsAllExactly(events, deliveries, duplicateReply, paceMs);
    if NoLookalike(deliveries, |events|) {
      ArrivedAll(events, |events|, deliveries);
      assert events[..|events|] == events;
    } else {
      var i: nat :| i < |events| && deliveries(i).NotDelivered?;
      assert events[i] in Uniques(events);
      if events[i] in Arrived(events, |events|, deliveries) { ArrivedAmong(events, |events|, deliveries, events[i]); }
    }
  }

  /** A repetition may be lost without harm, so for a list with repetitions the condition is that of
      `LandsAllExactly`. */
  lemma LostRepetitionIsHarmless<T(!new)>(x: T, deliveries: nat -> Delivery, duplicateReply: string, paceMs: int)
    requires ReadsAsDuplicate(duplicateReply) && AllPassFor(deliveries, 2)
    requires deliveries(0).Delivered? && deliveries(1).NotDelivered?
    ensures !NoLookalike(deliveries, 2) && LandsAll([x, x], deliveries, duplicateReply, paceMs)
  {
    var events := [x, x];
    LandsAllExactly(events, deliveries, duplicateReply, paceMs);
    assert Arrived(events, 0, deliveries) == [];
    assert Arrived(events, 1, deliveries) == [x] == Arrived(events, 2, deliveries);
    assert [x][..0] == [] && events[..1] == [x];
    assert Uniques([x]) == [x] == Uniques(events);
  }

  lemma {:induction false} LandAllAmong<T>(log: seq<T>, events: seq<T>, key: Key<T>, x: T)
    requires x in LandAll(log, events, key)
    ensures x in log || x in events
    decreases |events|
  {
    if events != [] && x in LandAll(log, events[..|events| - 1], key) {
      LandAllAmong(log, events[..|events| - 1], key, x);
    }
  }

  /** The event of such a request is lost without an error. */
  lemma LookalikeLosesEvent<T>(events: seq<T>, i: nat, deliveries: nat -> Delivery, key: Key<T>,
                               duplicateReply: string, paceMs: int)
    requires ReadsAsDuplicate(duplicateReply) && AllPassFor(deliveries, |events|) && AllDifferent(events)
    requires i < |events| && deliveries(i).NotDelivered?
    ensures
      var p := WriteRun([], events, |events|, deliveries, key, duplicateReply, paceMs);
      p.threw.None? && p.written + p.skipped == |events| && events[i] !in p.log
  {
    CompletesExactly([], events, |events|, deliveries, key, duplicateReply, paceMs);
    RunLandsArrived([], events, |events|, deliveries, key, duplicateReply, paceMs);
    var p := WriteRun([], events, |events|, deliveries, key, duplicateReply, paceMs);
    if events[i] in p.log {
      LandAllAmong([], Arrived(events, |events|, deliveries), key, events[i]);
      ArrivedAmong(events, |events|, deliveries, events[i]);
    }
  }

  // ---------- Any number of runs ----------

  /** A run that got as far as the first `reach` events, if no error stopped it earlier. */
  datatype Attempt<T> = Attempt(events: seq<T>, deliveries: nat -> Delivery, reach: nat)

  ghost predicate Possible<T>(attempts: seq<Attempt<T>>, duplicateReply: string) {
    forall i :: 0 <= i < |attempts| ==>
      attempts[i].reach <= |attempts[i].events| && Honest(attempts[i].deliveries, attempts[i].reach, duplicateReply)
  }

  ghost predicate SameEvents<T>(attempts: seq<Attempt<T>>, events: seq<T>) {
    forall i :: 0 <= i < |attempts| ==> attempts[i].events == events
  }

  ghost function AfterAttempts<T>(log: seq<T>, attempts: seq<Attempt<T>>, key: Key<T>, duplicateReply: string,
                                  paceMs: int): seq<T>
    requires Possible(attempts, duplicateReply)
    decreases |attempts|
  {
    if attempts == [] then log
    else
      var n := |attempts| - 1;
      WriteRun(AfterAttempts(log, attempts[..n], key, duplicateReply, paceMs),
               attempts[n].events, attempts[n].reach, attempts[n].deliveries, key, duplicateReply, paceMs).log
  }

  lemma {:induction false} AttemptsLandPrefix<T>(log: seq<T>, attempts: seq<Attempt<T>>, events: seq<T>,
                                                 key: Key<T>, duplicateReply: string, paceMs: int)
    returns (m: nat)
    requires Possible(attempts, duplicateReply) && SameEvents(attempts, events)
    ensures m <= |events| && AfterAttempts(log, attempts, key, duplicateReply, paceMs) == LandAll(log, events[..m], key)
    decreases |attempts|
  {
    if attempts == [] {
      m := 0;
    } else {
      var n := |attempts| - 1;
      var a := attempts[n];
      var before := AttemptsLandPrefix(log, attempts[..n], events, key, duplicateReply, paceMs);
      var held := LandAll(log, events[..before], key);
      var j := RunLandsPrefix(held, events, a.reach, a.deliveries, key, duplicateReply, paceMs);
      LandAgain(log, events, before, j, key);
      m := if j < before then before else j;
    }
  }

  lemma RunLandsPrefix<T>(log: seq<T>, events: seq<T>, k: nat, deliveries: nat -> Delivery, key: Key<T>,
                          duplicateReply: string, paceMs: int)
    returns (j: nat)
    requires k <= |events| && Honest(deliveries, k, duplicateReply)
    ensures j <= k
    ensures WriteRun(log, events, k, deliveries, key, duplicateReply, paceMs).log == LandAll(log, events[..j], key)
  {
    RunHandles(log, events, k, deliveries, key, duplicateReply, paceMs);
    var p := WriteRun(log, events, k, deliveries, key, duplicateReply, paceMs);
    var i := p.written + p.skipped;
    j := if p.threw.None? then k else if deliveries(i).ReplyLost? then i + 1 else i;
  }

  /** However many runs were cut short before it, a run that gets through leaves the log that one
      undisturbed pass over the list would have left. */
  lemma CompletedRunSettles<T>(log: seq<T>, attempts: seq<Attempt<T>>, events: seq<T>, deliveries: nat -> Delivery,
                               key: Key<T>, duplicateReply: string, paceMs: int)
    requires Possible(attempts, duplicateReply) && SameEvents(attempts, events)
    requires Honest(deliveries, |events|, duplicateReply)
    ensures
      var held := AfterAttempts(log, attempts, key, duplicateReply, paceMs);
      var p := WriteRun(held, events, |events|, deliveries, key, duplicateReply, paceMs);
      p.threw.None? ==>
        && p.log == LandAll(log, events, key) && p.written + p.skipped == |events|
        && (CountsRight(deliveries, |events|) ==> p.written == |p.log| - |held|)
  {
    var held := AfterAttempts(log, attempts, key, duplicateReply, paceMs);
    var m := AttemptsLandPrefix(log, attempts, events, key, duplicateReply, paceMs);
    RunHandles(held, events, |events|, deliveries, key, duplicateReply, paceMs);
    LandAgain(log, events, m, |events|, key);
    assert events[..|events|] == events;
  }

  // ---------- Runs whose events differ only outside the key ----------

  function Itself(k: string): string {
    k
  }

  function Keys<T>(events: seq<T>, key: Key<T>): (r: seq<string>)
    ensures |r| == |events| && forall i :: 0 <= i < |r| ==> r[i] == key(events[i])
  {
    seq(|events|, i requires 0 <= i < |events| => key(events[i]))
  }

  lemma KeyLands<T>(log: seq<T>, ev: T, key: Key<T>)
    ensures HasKey(Keys(log, key), key(ev), Itself) <==> HasKey(log, key(ev), key)
    ensures Landed(Keys(log, key), key(ev), Itself) == Keys(Landed(log, ev, key), key)
  {
    if HasKey(log, key(ev), key) {
      var i :| 0 <= i < |log| && key(log[i]) == key(ev);
      assert Itself(Keys(log, key)[i]) == key(ev);
    } else {
      forall i | 0 <= i < |log| ensures Itself(Keys(log, key)[i]) != key(ev) { assert key(log[i]) != key(ev); }
    }
  }

  /** A run sees nothing of its events but their keys. */
  lemma {:induction false} KeyRun<T>(log: seq<T>, events: seq<T>, k: nat, deliveries: nat -> Delivery,
                                     key: Key<T>, duplicateReply: string, paceMs: int)
    requires k <= |events|
    ensures
      var p := WriteRun(log, events, k, deliveries, key, duplicateReply, paceMs);
      WriteRun(Keys(log, key), Keys(events, key), k, deliveries, Itself, duplicateReply, paceMs)
        == Progress(Keys(p.log, key), p.written, p.skipped, p.slept, p.threw)
    decreases k
  {
    if k > 0 {
      KeyRun(log, events, k - 1, deliveries, key, duplicateReply, paceMs);
      KeyLands(WriteRun(log, events, k - 1, deliveries, key, duplicateReply, paceMs).log, events[k - 1], key);
    }
  }

  function KeyAttempts<T>(attempts: seq<Attempt<T>>, key: Key<T>): (r: seq<Attempt<string>>)
    ensures |r| == |attempts|
    ensures forall i :: 0 <= i < |r| ==>
              r[i] == Attempt(Keys(attempts[i].events, key), attempts[i].deliveries, attempts[i].reach)
  {
    seq(|attempts|, i requires 0 <= i < |attempts| =>
      Attempt(Keys(attempts[i].events, key), attempts[i].deliveries, attempts[i].reach))
  }

  lemma KeyAttemptsPossible<T>(attempts: seq<Attempt<T>>, key: Key<T>, duplicateReply: string)
    requires Possible(attempts, duplicateReply)
    ensures Possible(KeyAttempts(attempts, key), duplicateReply)
  {
  }

  lemma {:induction false} KeyAfterAttempts<T>(log: seq<T>, attempts: seq<Attempt<T>>, key: Key<T>,
                                               duplicateReply: string, paceMs: int)
    requires Possible(attempts, duplicateReply) && Possible(KeyAttempts(attempts, key), duplicateReply)
    ensures AfterAttempts(Keys(log, key), KeyAttempts(attempts, key), Itself, duplicateReply, paceMs)
         == Keys(AfterAttempts(log, attempts, key, duplicateReply, paceMs), key)
    decreases |attempts|
  {
    if attempts != [] {
      var n := |attempts| - 1;
      var earlier, a := attempts[..n], attempts[n];
      assert KeyAttempts(attempts, key)[..n] == KeyAttempts(earlier, key);
      KeyAttemptsPossible(earlier, key, duplicateReply);
      KeyAfterAttempts(log, earlier, key, duplicateReply, paceMs);
      var held := AfterAttempts(log, earlier, key, duplicateReply, paceMs);
      KeyRun(held, a.events, a.reach, a.deliveries, key, duplicateReply, paceMs);
      assert KeyAttempts(attempts, key)[n] == Attempt(Keys(a.events, key), a.deliveries, a.reach);
      assert AfterAttempts(log, attempts, key, duplicateReply, paceMs)
          == WriteRun(held, a.events, a.reach, a.deliveries, key, duplicateReply, paceMs).log;
    }
  }

  /** Every start of the program stamps its events anew. Runs whose lists agree on the keys still
      settle the log to the same keys in the same order. */
  lemma RestampedRunSettles<T>(log: seq<T>, attempts: seq<Attempt<T>>, events: seq<T>, deliveries: nat -> Delivery,
                               key: Key<T>, duplicateReply: string, paceMs: int)
    requires Possible(attempts, duplicateReply) && Honest(deliveries, |events|, duplicateReply)
    requires forall i :: 0 <= i < |attempts| ==> Keys(attempts[i].events, key) == Keys(events, key)
    ensures
      var held := AfterAttempts(log, attempts, key, duplicateReply, paceMs);
      var p := WriteRun(held, events, |events|, deliveries, key, duplicateReply, paceMs);
      p.threw.None? ==> Keys(p.log, key) == LandAll(Keys(log, key), Keys(events, key), Itself)
  {
    var held := AfterAttempts(log, attempts, key, duplicateReply, paceMs);
    KeyAttemptsPossible(attempts, key, duplicateReply);
    KeyAfterAttempts(log, attempts, key, duplicateReply, paceMs);
    KeyRun(held, events, |events|, deliveries, key, duplicateReply, paceMs);
    CompletedRunSettles(Keys(log, key), KeyAttempts(attempts, key), Keys(events, key), deliveries, Itself,
                        duplicateReply, paceMs);
  }

  // ---------- Deduplication in order ----------

  predicate IsFirst<T>(events: seq<T>, i: nat, key: Key<T>)
    requires i < |events|
  {
    forall j :: 0 <= j < i ==> key(events[j]) != key(events[i])
  }

  /** The positions whose key did not occur before. */
  function Firsts<T>(events: seq<T>, key: Key<T>): (r: seq<nat>)
    ensures forall t :: 0 <= t < |r| ==> r[t] < |events|
    decreases |events|
  {
    if events == [] then []
    else
      var r := Firsts(events[..|events| - 1], key);
      if IsFirst(events, |events| - 1, key) then r + [|events| - 1] else r
  }

  /** They are exactly those, in increasing order. */
  lemma {:induction false} FirstsRight<T>(events: seq<T>, key: Key<T>)
    ensures forall t, u :: 0 <= t < u < |Firsts(events, key)| ==> Firsts(events, key)[t] < Firsts(events, key)[u]
    ensures forall i: nat :: i < |events| ==> (IsFirst(events, i, key) <==> i in Firsts(events, key))
    decreases |events|
  {
    if events != [] {
      var n := |events| - 1;
      var r := Firsts(events[..n], key);
      FirstsRight(events[..n], key);
      forall i: nat | i < n ensures IsFirst(events, i, key) <==> i in r { FirstInPrefix(events, i, key); }
    }
  }

  lemma FirstInPrefix<T>(events: seq<T>, i: nat, key: Key<T>)
    requires i < |events| - 1
    ensures IsFirst(events, i, key) <==> IsFirst(events[..|events| - 1], i, key)
  {
    assert forall j :: 0 <= j < |events| - 1 ==> events[..|events| - 1][j] == events[j];
  }

  function Pick<T>(events: seq<T>, at: seq<nat>): (r: seq<T>)
    requires forall t :: 0 <= t < |at| ==> at[t] < |events|
    ensures |r| == |at| && forall t :: 0 <= t < |at| ==> r[t] == events[at[t]]
  {
    seq(|at|, t requires 0 <= t < |at| => events[at[t]])
  }

  lemma PickStep<T>(events: seq<T>, at: seq<nat>)
    requires events != [] && forall t :: 0 <= t < |at| ==> at[t] < |events| - 1
    ensures Pick(events, at) == Pick(events[..|events| - 1], at)
    ensures Pick(events, at + [|events| - 1]) == Pick(events[..|events| - 1], at) + [events[|events| - 1]]
  {}

  /** On an empty log the events land deduplicated in order: each key once, at its first event. */
  lemma {:induction false} LandsFirsts<T>(events: seq<T>, key: Key<T>)
    ensures LandAll([], events, key) == Pick(events, Firsts(events, key))
    decreases |events|
  {
    if events != [] {
      var n := |events| - 1;
      LandsFirsts(events[..n], key);
      PickStep(events, Firsts(events[..n], key));
      FirstIffNew(events, key);
    }
  }

  lemma FirstIffNew<T>(events: seq<T>, key: Key<T>)
    requires events != []
    ensures
      var n := |events| - 1;
      IsFirst(events, n, key) <==> !HasKey(LandAll([], events[..n], key), key(events[n]), key)
  {
    var n := |events| - 1;
    if !IsFirst(events, n, key) {
      var j :| 0 <= j < n && key(events[j]) == key(events[n]);
      LandAllHas([], events[..n], j, key);
    } else {
      LandAllOnly(events[..n], key(events[n]), key);
    }
  }

  lemma {:induction false} LandAllOnly<T>(events: seq<T>, k: string, key: Key<T>)
    requires forall j :: 0 <= j < |events| ==> key(events[j]) != k
    ensures !HasKey(LandAll([], events, key), k, key)
    decreases |events|
  {
    if events != [] { LandAllOnly(events[..|events| - 1], k, key); }
  }
}
