/** A reader for the text of `canonicalJSON`, and what it proves: two values print the same text
    exactly when they are the same JSON value, and printed keys increase at every depth. */
module CanonicalReader {
  import opened Wrappers
  import opened JsonText
  import opened CanonicalJson

  // ---------- Printing without sorting ----------

  function Print(v: Value): Text
    decreases v, 1
  {
    match v
    case Bool(b) => if b then TRUE_TEXT else FALSE_TEXT
    case Num(Finite(text)) => text
    case Str(s) => Quote(s)
    case Arr(items) => [91] + Join(PrintItems(items)) + [93]
    case Obj(ms) => [123] + Join(PrintMembers(ms)) + [125]
    case _ => NULL_TEXT
  }

  function PrintItems(items: seq<Slot>): (r: seq<Text>)
    ensures |r| == |items|
    decreases items, 0
  {
    if items == [] then []
    else
      var slot := items[0];
      [match slot case Hole => [] case Item(x) => (assert (slot decreases to x); Print(x))] + PrintItems(items[1..])
  }

  function PrintMembers(ms: seq<Member>): (r: seq<Text>)
    ensures |r| == |ms|
    decreases ms, 0
  {
    if ms == [] then []
    else [match ms[0] case Member(k, x) => Quote(k) + [COLON] + Print(x)] + PrintMembers(ms[1..])
  }

  ghost predicate CleanItems(items: seq<Slot>) {
    forall i :: 0 <= i < |items| && items[i].Item? ==> Clean(items[i].value)
  }

  ghost predicate CleanMembers(ms: seq<Member>) {
    forall i :: 0 <= i < |ms| ==> Clean(ms[i].value)
  }

  // ---------- The serializer prints the normal form ----------

  lemma {:induction false} InsertNorm(m: Member, ms: seq<Member>)
    ensures NormMembers(InsertBy(KeyOf, m, ms)) == InsertBy(KeyOf, Member(m.key, Norm(m.value)), NormMembers(ms))
    decreases |ms|
  {
    if ms != [] && !Less(m.key, ms[0].key) {
      InsertNorm(m, ms[1..]);
    }
  }

  lemma {:induction false} SortNorm(ms: seq<Member>)
    ensures NormMembers(SortMembers(ms)) == SortMembers(NormMembers(ms))
    decreases |ms|
  {
    if ms != [] {
      SortNorm(ms[1..]);
      InsertNorm(ms[0], SortMembers(ms[1..]));
    }
  }

  lemma CleanSorted(ms: seq<Member>)
    ensures CleanMembers(SortMembers(ms)) <==> CleanMembers(ms)
  {
    var r := SortMembers(ms);
    if CleanMembers(ms) {
      forall i | 0 <= i < |r| ensures Clean(r[i].value) { assert r[i] in r; }
    }
    if CleanMembers(r) {
      forall i | 0 <= i < |ms| ensures Clean(ms[i].value) { assert ms[i] in ms && ms[i] in r; }
    }
  }

  /** Serializing succeeds exactly on clean values, and prints the normal form. */
  lemma {:induction false} SerializePrints(v: Value)
    ensures Clean(v) ==> Serialize(v) == Done(Print(Norm(v)))
    ensures Serialize(v).Done? <==> Clean(v)
    decreases v, 1, 0
  {
    match v
    case Arr(items) =>
      SerializeItemsPrints(items);
      if items == [Hole] { assert Join(PrintItems(items)) == Join(PrintItems([])); }
    case Obj(ms) =>
      SerializeMembersPrints(SortMembers(ms), v);
      SortNorm(ms);
      CleanSorted(ms);
    case _ =>
  }

  lemma {:induction false} SerializeItemsPrints(items: seq<Slot>)
    ensures SerializeItems(items).Done? <==> CleanItems(items)
    ensures CleanItems(items) ==> SerializeItems(items).value == PrintItems(NormItems(items))
    decreases items, 0, 0
  {
    if items != [] {
      var slot := items[0];
      match slot {
        case Hole =>
        case Item(x) => assert (slot decreases to x); SerializePrints(x);
      }
      SerializeItemsPrints(items[1..]);
      assert forall i :: 0 <= i < |items[1..]| ==> items[1..][i] == items[i + 1];
      assert CleanItems(items) <==> (slot.Item? ==> Clean(slot.value)) && CleanItems(items[1..]) by {
        if (slot.Item? ==> Clean(slot.value)) && CleanItems(items[1..]) {
          forall i | 0 <= i < |items| && items[i].Item? ensures Clean(items[i].value) {
            if i > 0 { assert items[1..][i - 1] == items[i]; }
          }
        }
      }
      assert items == [slot] + items[1..];
    }
  }

  lemma {:induction false} SerializeMembersPrints(ms: seq<Member>, owner: Value)
    requires owner.Obj? && forall m :: m in ms ==> m in owner.members
    ensures SerializeMembers(ms, owner).Done? <==> CleanMembers(ms)
    ensures CleanMembers(ms) ==> SerializeMembers(ms, owner).value == PrintMembers(NormMembers(ms))
    decreases owner, 0, |ms|
  {
    if ms != [] {
      assert ms[0] in owner.members;
      match ms[0] { case Member(_, x) => SerializePrints(x); }
      SerializeMembersPrints(ms[1..], owner);
      assert forall i :: 0 <= i < |ms[1..]| ==> ms[1..][i] == ms[i + 1];
      assert CleanMembers(ms) <==> Clean(ms[0].value) && CleanMembers(ms[1..]) by {
        if Clean(ms[0].value) && CleanMembers(ms[1..]) {
          forall i | 0 <= i < |ms| ensures Clean(ms[i].value) {
            if i > 0 { assert ms[1..][i - 1] == ms[i]; }
          }
        }
      }
    }
  }

  // ---------- The reader ----------

  function NumberLength(t: Text): (n: nat)
    ensures n <= |t|
    ensures forall i :: 0 <= i < n ==> IsNumberUnit(t[i])
    ensures n < |t| ==> !IsNumberUnit(t[n])
  {
    if t == [] || !IsNumberUnit(t[0]) then 0 else 1 + NumberLength(t[1..])
  }

  /** A value and what follows it. */
  function ReadValue(t: Text): (r: Option<(Value, Text)>)
    ensures r.Some? ==> |r.value.1| < |t|
    decreases |t|, 0
  {
    if t == [] then None
    else if [110, 117, 108, 108] <= t then Some((Null, t[4..]))
    else if [116, 114, 117, 101] <= t then Some((Bool(true), t[4..]))
    else if [102, 97, 108, 115, 101] <= t then Some((Bool(false), t[5..]))
    else if t[0] == 34 then
      var s := ReadUnits(t[1..]);
      if s.None? then None else Some((Str(s.value.0), s.value.1))
    else if t[0] == 91 then
      if 1 < |t| && t[1] == 93 then Some((Arr([]), t[2..]))
      else
        var items := ReadItems(t[1..]);
        if items.None? then None else Some((Arr(items.value.0), items.value.1))
    else if t[0] == 123 then
      if 1 < |t| && t[1] == 125 then Some((Obj([]), t[2..]))
      else
        var ms := ReadMembers(t[1..]);
        if ms.None? then None else Some((Obj(ms.value.0), ms.value.1))
    else if IsNumberText(t[..NumberLength(t)]) then Some((Num(Finite(t[..NumberLength(t)])), t[NumberLength(t)..]))
    else None
  }

  /** One array slot; nothing before a separator is a hole. */
  function ReadSlot(t: Text): (r: Option<(Slot, Text)>)
    ensures r.Some? ==> |r.value.1| <= |t|
    decreases |t|, 1
  {
    if t == [] then None
    else if t[0] == 44 || t[0] == 93 then Some((Hole, t))
    else
      var v := ReadValue(t);
      if v.None? then None else Some((Item(v.value.0), v.value.1))
  }

  /** The slots up to the closing bracket and what follows it. */
  function ReadItems(t: Text): (r: Option<(seq<Slot>, Text)>)
    ensures r.Some? ==> |r.value.1| < |t|
    decreases |t|, 2
  {
    var slot := ReadSlot(t);
    if slot.None? || slot.value.1 == [] then None
    else if slot.value.1[0] == 93 then Some(([slot.value.0], slot.value.1[1..]))
    else if slot.value.1[0] != 44 then None
    else
      var more := ReadItems(slot.value.1[1..]);
      if more.None? then None else Some(([slot.value.0] + more.value.0, more.value.1))
  }

  function ReadMember(t: Text): (r: Option<(Member, Text)>)
    ensures r.Some? ==> |r.value.1| < |t|
    decreases |t|, 1
  {
    if t == [] || t[0] != 34 then None
    else
      var k := ReadUnits(t[1..]);
      if k.None? || k.value.1 == [] || k.value.1[0] != 58 then None
      else
        var v := ReadValue(k.value.1[1..]);
        if v.None? then None else Some((Member(k.value.0, v.value.0), v.value.1))
  }

  function ReadMembers(t: Text): (r: Option<(seq<Member>, Text)>)
    ensures r.Some? ==> |r.value.1| < |t|
    decreases |t|, 2
  {
    var m := ReadMember(t);
    if m.None? || m.value.1 == [] then None
    else if m.value.1[0] == 125 then Some(([m.value.0], m.value.1[1..]))
    else if m.value.1[0] != 44 then None
    else
      var more := ReadMembers(m.value.1[1..]);
      if more.None? then None else Some(([m.value.0] + more.value.0, more.value.1))
  }

  // ---------- Reading inverts printing ----------

  /** What the reader can return: clean, no minus zero, no lone hole. */
  ghost predicate Printable(v: Value) {
    match v
    case Num(n) => n.Finite?
    case Arr(items) =>
      items != [Hole] && forall i :: 0 <= i < |items| && items[i].Item? ==> Printable(items[i].value)
    case Obj(ms) => forall i :: 0 <= i < |ms| ==> Printable(ms[i].value)
    case Undefined => false
    case Exotic => false
    case _ => true
  }

  ghost predicate PrintableItems(items: seq<Slot>) {
    forall i :: 0 <= i < |items| && items[i].Item? ==> Printable(items[i].value)
  }

  ghost predicate PrintableMembers(ms: seq<Member>) {
    forall i :: 0 <= i < |ms| ==> Printable(ms[i].value)
  }

  /** No number continues into `rest`. */
  predicate Ends(rest: Text) {
    rest == [] || !IsNumberUnit(rest[0])
  }

  lemma PrintFirst(v: Value)
    requires Printable(v)
    ensures Print(v) != [] && Print(v)[0] != COMMA && Print(v)[0] != 93 && Print(v)[0] != 125
  {}

  lemma NumberStops(text: NumberText, rest: Text)
    requires Ends(rest)
    ensures NumberLength(text + rest) == |text|
  {
    var t := text + rest;
    var n := NumberLength(t);
    forall i | 0 <= i < |text| ensures IsNumberUnit(t[i]) { assert t[i] == text[i] && text[i] in text; }
    assert rest != [] ==> t[|text|] == rest[0];
  }

  lemma ReadNumber(text: NumberText, rest: Text)
    requires Ends(rest)
    ensures ReadValue(text + rest) == Some((Num(Finite(text)), rest))
  {
    var t := text + rest;
    NumberStops(text, rest);
    assert t[0] == text[0] && text[0] in text;
    assert t[..|text|] == text && t[|text|..] == rest;
    assert !(NULL_TEXT <= t) by { assert NULL_TEXT[0] == 110; }
    assert !(TRUE_TEXT <= t) by { assert TRUE_TEXT[0] == 116; }
    assert !(FALSE_TEXT <= t) by { assert FALSE_TEXT[0] == 102; }
  }

  lemma ReadString(s: Text, rest: Text)
    ensures ReadValue(Quote(s) + rest) == Some((Str(s), rest))
  {
    var t := Quote(s) + rest;
    assert t[0] == QUOTE && t[1..] == QuoteUnits(s) + [QUOTE] + rest;
    ReadQuoted(s, rest);
  }

  lemma ReadWord(v: Value, rest: Text)
    requires v.Null? || v.Bool?
    ensures ReadValue(Print(v) + rest) == Some((v, rest))
  {
    var t := Print(v) + rest;
    assert t[|Print(v)|..] == rest && t[0] == Print(v)[0];
    assert Print(v) <= t;
    if v != Null { assert !(NULL_TEXT <= t) by { assert NULL_TEXT[0] == 110; } }
    if v == Bool(false) { assert !(TRUE_TEXT <= t) by { assert TRUE_TEXT[0] == 116; } }
  }

  /** Reading inverts printing, whatever follows. */
  lemma {:induction false} ReadPrinted(v: Value, rest: Text)
    requires Printable(v) && Ends(rest)
    ensures ReadValue(Print(v) + rest) == Some((v, rest))
    decreases v, 1
  {
    match v
    case Null => ReadWord(v, rest);
    case Bool(_) => ReadWord(v, rest);
    case Num(n) => ReadNumber(n.text, rest);
    case Str(s) => ReadString(s, rest);
    case Arr(items) =>
      if items == [] {
        ReadEmpty(v, rest);
      } else {
        ReadPrintedItems(items, rest, [93] + rest, Join(PrintItems(items)) + ([93] + rest));
        ReadArray(items, rest);
      }
    case Obj(ms) =>
      if ms == [] {
        ReadEmpty(v, rest);
      } else {
        ReadPrintedMembers(ms, rest, [125] + rest, Join(PrintMembers(ms)) + ([125] + rest));
        ReadObject(ms, rest);
      }
  }

  lemma ReadEmpty(v: Value, rest: Text)
    requires v == Arr([]) || v == Obj([])
    ensures ReadValue(Print(v) + rest) == Some((v, rest))
  {
    var t := Print(v) + rest;
    assert t[2..] == rest && t[0] == Print(v)[0] && t[1] == Print(v)[1];
    NotWord(t);
  }

  lemma NotWord(t: Text)
    requires t != [] && (t[0] == 91 || t[0] == 123)
    ensures !(NULL_TEXT <= t) && !(TRUE_TEXT <= t) && !(FALSE_TEXT <= t)
  {
    assert NULL_TEXT[0] == 110 && TRUE_TEXT[0] == 116 && FALSE_TEXT[0] == 102;
  }

  lemma ReadValueArray(t: Text, items: seq<Slot>, rest: Text)
    requires 1 < |t| && t[0] == 91 && t[1] != 93 && ReadItems(t[1..]) == Some((items, rest))
    ensures ReadValue(t) == Some((Arr(items), rest))
  {
    NotWord(t);
  }

  lemma ItemsFirst(items: seq<Slot>)
    requires items != [] && items != [Hole] && PrintableItems(items)
    ensures Join(PrintItems(items)) != [] && Join(PrintItems(items))[0] != 93
  {
    if items[0].Item? { PrintFirst(items[0].value); }
  }

  lemma ReadArray(items: seq<Slot>, rest: Text)
    requires items != [] && items != [Hole] && PrintableItems(items)
    requires ReadItems(Join(PrintItems(items)) + ([93] + rest)) == Some((items, rest))
    ensures ReadValue(Print(Arr(items)) + rest) == Some((Arr(items), rest))
  {
    var body := Join(PrintItems(items));
    ItemsFirst(items);
    Assoc(body, [93], rest);
    Wrapped(91, body, 93, rest);
    ReadValueArray([91] + body + [93] + rest, items, rest);
  }

  lemma ReadValueObject(t: Text, ms: seq<Member>, rest: Text)
    requires 1 < |t| && t[0] == 123 && t[1] != 125 && ReadMembers(t[1..]) == Some((ms, rest))
    ensures ReadValue(t) == Some((Obj(ms), rest))
  {
    NotWord(t);
  }

  lemma ReadObject(ms: seq<Member>, rest: Text)
    requires ms != []
    requires ReadMembers(Join(PrintMembers(ms)) + ([125] + rest)) == Some((ms, rest))
    ensures ReadValue(Print(Obj(ms)) + rest) == Some((Obj(ms), rest))
  {
    var body := Join(PrintMembers(ms));
    MembersFirst(ms);
    Assoc(body, [125], rest);
    Wrapped(123, body, 125, rest);
    ReadValueObject([123] + body + [125] + rest, ms, rest);
  }

  lemma Wrapped(open: Unit, body: Text, close: Unit, rest: Text)
    requires body != []
    ensures
      var t := [open] + body + [close] + rest;
      t[0] == open && t[1] == body[0] && t[1..] == body + [close] + rest
  {}

  lemma MembersFirst(ms: seq<Member>)
    requires ms != []
    ensures Join(PrintMembers(ms)) != [] && Join(PrintMembers(ms))[0] == QUOTE
  {
    var parts := PrintMembers(ms);
    assert parts[0] == Quote(ms[0].key) + [COLON] + Print(ms[0].value);
    assert parts[0][0] == QUOTE;
    assert Join(parts)[0] == parts[0][0];
  }

  lemma ItemsLast(t: Text, slot: Slot, rest: Text)
    requires ReadSlot(t) == Some((slot, [93] + rest))
    ensures ReadItems(t) == Some(([slot], rest))
  {
    assert ([93] + rest)[1..] == rest;
  }

  lemma ItemsStep(t: Text, slot: Slot, more: Text, tail: seq<Slot>, rest: Text)
    requires ReadSlot(t) == Some((slot, [COMMA] + more)) && ReadItems(more) == Some((tail, rest))
    ensures ReadItems(t) == Some(([slot] + tail, rest))
  {
    assert ([COMMA] + more)[1..] == more;
  }

  lemma MembersLast(t: Text, m: Member, rest: Text)
    requires ReadMember(t) == Some((m, [125] + rest))
    ensures ReadMembers(t) == Some(([m], rest))
  {
    assert ([125] + rest)[1..] == rest;
  }

  lemma MembersStep(t: Text, m: Member, more: Text, tail: seq<Member>, rest: Text)
    requires ReadMember(t) == Some((m, [COMMA] + more)) && ReadMembers(more) == Some((tail, rest))
    ensures ReadMembers(t) == Some(([m] + tail, rest))
  {
    assert ([COMMA] + more)[1..] == more;
  }

  lemma JoinCons(head: Text, parts: seq<Text>, close: Text)
    ensures parts == [] ==> Join([head] + parts) + close == head + close
    ensures parts != [] ==> Join([head] + parts) + close == head + ([COMMA] + (Join(parts) + close))
  {
    assert ([head] + parts)[1..] == parts;
  }

  function PrintMember(m: Member): Text {
    Quote(m.key) + [COLON] + Print(m.value)
  }

  function PrintSlot(slot: Slot): Text {
    match slot case Hole => [] case Item(x) => Print(x)
  }

  lemma HeadAndTail<T>(s: seq<T>)
    requires s != []
    ensures s == [s[0]] + s[1..] && (s[1..] == [] ==> s == [s[0]])
  {}

  lemma ItemsText(items: seq<Slot>, tail: seq<Slot>, close: Text)
    requires items != [] && tail == items[1..]
    ensures Join(PrintItems(items)) + close
         == PrintSlot(items[0]) + if tail == [] then close else [COMMA] + (Join(PrintItems(tail)) + close)
  {
    assert PrintItems(items) == [PrintSlot(items[0])] + PrintItems(tail);
    JoinCons(PrintSlot(items[0]), PrintItems(tail), close);
  }

  lemma {:induction false} ReadPrintedItems(items: seq<Slot>, rest: Text, close: Text, t: Text)
    requires items != [] && PrintableItems(items) && close == [93] + rest && t == Join(PrintItems(items)) + close
    ensures ReadItems(t) == Some((items, rest))
    decreases items, 0
  {
    var slot, tail := items[0], items[1..];
    HeadAndTail(items);
    ItemsText(items, tail, close);
    if tail == [] {
      ReadPrintedSlot(slot, close);
      ItemsLast(t, slot, rest);
    } else {
      var more := Join(PrintItems(tail)) + close;
      ReadPrintedItems(tail, rest, close, more);
      ReadPrintedSlot(slot, [COMMA] + more);
      ItemsStep(t, slot, more, tail, rest);
    }
  }

  lemma {:induction false} ReadPrintedSlot(slot: Slot, rest: Text)
    requires slot.Item? ==> Printable(slot.value)
    requires rest != [] && (rest[0] == COMMA || rest[0] == 93)
    ensures ReadSlot(PrintSlot(slot) + rest) == Some((slot, rest))
    decreases slot, 2
  {
    if slot.Hole? {
      assert [] + rest == rest;
    } else {
      assert (slot decreases to slot.value);
      ReadPrinted(slot.value, rest);
      PrintFirst(slot.value);
      assert (Print(slot.value) + rest)[0] == Print(slot.value)[0];
    }
  }

  lemma Assoc(a: Text, b: Text, c: Text)
    ensures a + (b + c) == a + b + c
  {}

  lemma MembersText(ms: seq<Member>, tail: seq<Member>, close: Text)
    requires ms != [] && tail == ms[1..]
    ensures Join(PrintMembers(ms)) + close
         == PrintMember(ms[0]) + if tail == [] then close else [COMMA] + (Join(PrintMembers(tail)) + close)
  {
    assert PrintMembers(ms) == [PrintMember(ms[0])] + PrintMembers(tail);
    JoinCons(PrintMember(ms[0]), PrintMembers(tail), close);
  }

  lemma {:induction false} ReadPrintedMembers(ms: seq<Member>, rest: Text, close: Text, t: Text)
    requires ms != [] && PrintableMembers(ms) && close == [125] + rest && t == Join(PrintMembers(ms)) + close
    ensures ReadMembers(t) == Some((ms, rest))
    decreases ms, 0
  {
    var m, tail := ms[0], ms[1..];
    HeadAndTail(ms);
    MembersText(ms, tail, close);
    if tail == [] {
      ReadPrintedMember(m, close);
      MembersLast(t, m, rest);
    } else {
      var more := Join(PrintMembers(tail)) + close;
      ReadPrintedMembers(tail, rest, close, more);
      ReadPrintedMember(m, [COMMA] + more);
      MembersStep(t, m, more, tail, rest);
    }
  }

  lemma {:induction false} ReadPrintedMember(m: Member, rest: Text)
    requires Printable(m.value) && rest != [] && (rest[0] == COMMA || rest[0] == 125)
    ensures ReadMember(PrintMember(m) + rest) == Some((m, rest))
    decreases m, 2
  {
    match m { case Member(_, x) => ReadPrinted(x, rest); }
    QuotedKeyReads(m.key, Print(m.value), rest);
    ReadMemberStep(PrintMember(m) + rest, m, Print(m.value) + rest, rest);
  }

  lemma QuotedKeyReads(key: Text, body: Text, rest: Text)
    ensures
      var t := Quote(key) + [COLON] + body + rest;
      t[0] == QUOTE && ReadUnits(t[1..]) == Some((key, [COLON] + (body + rest)))
  {
    var t := Quote(key) + [COLON] + body + rest;
    var after := [COLON] + (body + rest);
    assert t[1..] == QuoteUnits(key) + [QUOTE] + after;
    ReadQuoted(key, after);
  }

  lemma ReadMemberStep(t: Text, m: Member, more: Text, rest: Text)
    requires t != [] && t[0] == QUOTE && ReadUnits(t[1..]) == Some((m.key, [COLON] + more))
    requires ReadValue(more) == Some((m.value, rest))
    ensures ReadMember(t) == Some((m, rest))
  {
    assert ([COLON] + more)[1..] == more;
  }

  // ---------- Normal forms ----------

  lemma {:induction false} NormItemsAt(items: seq<Slot>, i: nat)
    requires i < |items|
    ensures NormItems(items)[i] == match items[i] case Hole => Hole case Item(x) => Item(Norm(x))
    decreases |items|
  {
    if i > 0 { NormItemsAt(items[1..], i - 1); }
  }

  lemma {:induction false} NormMembersAt(ms: seq<Member>, i: nat)
    requires i < |ms|
    ensures NormMembers(ms)[i] == Member(ms[i].key, Norm(ms[i].value))
    decreases |ms|
  {
    if i > 0 { NormMembersAt(ms[1..], i - 1); }
  }

  lemma NormMembersIn(ms: seq<Member>)
    ensures forall m :: m in ms ==> Member(m.key, Norm(m.value)) in NormMembers(ms)
    ensures forall n :: n in NormMembers(ms) ==> exists m :: m in ms && n == Member(m.key, Norm(m.value))
  {
    forall m | m in ms ensures Member(m.key, Norm(m.value)) in NormMembers(ms) { NormMemberIn(ms, m); }
    forall n | n in NormMembers(ms) ensures exists m :: m in ms && n == Member(m.key, Norm(m.value)) {
      var m := NormMemberOrigin(ms, n);
    }
  }

  lemma NormMembersDistinct(ms: seq<Member>)
    requires DistinctKeys(ms)
    ensures DistinctKeys(NormMembers(ms))
  {
    forall i, j | 0 <= i < j < |ms| ensures NormMembers(ms)[i].key != NormMembers(ms)[j].key {
      NormMembersAt(ms, i);
      NormMembersAt(ms, j);
    }
  }

  /** The normal form of a clean value is printable, and sorted at every depth. */
  lemma {:induction false} NormGood(v: Value)
    requires IsValue(v) && Clean(v)
    ensures Printable(Norm(v)) && SortedDeep(Norm(v))
    decreases v
  {
    match v
    case Arr(items) =>
      var r := Printed(NormItems(items));
      forall i | 0 <= i < |r| && r[i].Item? ensures Printable(r[i].value) && SortedDeep(r[i].value) {
        NormItemsAt(items, i);
        NormGood(items[i].value);
      }
    case Obj(ms) =>
      NormMembersDistinct(ms);
      SortIncreasing(NormMembers(ms));
      var r := SortMembers(NormMembers(ms));
      NormMembersIn(ms);
      forall i | 0 <= i < |r| ensures Printable(r[i].value) && SortedDeep(r[i].value) {
        assert r[i] in r && r[i] in NormMembers(ms);
        var m :| m in ms && r[i] == Member(m.key, Norm(m.value));
        var k :| 0 <= k < |ms| && ms[k] == m;
        NormGood(ms[k].value);
      }
    case _ =>
  }

  /** Two values are the same JSON value exactly when their normal forms are equal. */
  lemma {:induction false} SameIffNormEqual(a: Value, b: Value)
    requires IsValue(a) && IsValue(b)
    ensures Same(a, b) <==> Norm(a) == Norm(b)
    decreases a, 4
  {
    match (a, b)
    case (Arr(xs), Arr(ys)) => SameArrays(xs, ys, a);
    case (Obj(ms), Obj(ns)) =>
      if Norm(a) == Norm(b) { NormEqualSame(ms, ns, a); }
      if Same(a, b) { SameNormEqual(ms, ns, a); }
    case _ =>
  }

  lemma {:induction false} SameArrays(xs: seq<Slot>, ys: seq<Slot>, owner: Value)
    requires owner == Arr(xs) && IsValue(owner) && IsValue(Arr(ys))
    ensures Same(Arr(xs), Arr(ys)) <==> Norm(Arr(xs)) == Norm(Arr(ys))
    decreases owner, 0
  {
    var ps, qs := Printed(xs), Printed(ys);
    PrintedNorm(xs);
    PrintedNorm(ys);
    if |ps| == |qs| {
      forall i | 0 <= i < |ps|
        ensures ((ps[i].Hole? && qs[i].Hole?) || (ps[i].Item? && qs[i].Item? && Same(xs[i].value, qs[i].value)))
                <==> NormItems(ps)[i] == NormItems(qs)[i]
      {
        NormItemsAt(ps, i);
        NormItemsAt(qs, i);
        if ps[i].Item? && qs[i].Item? { SameIffNormEqual(xs[i].value, qs[i].value); }
      }
      if Same(Arr(xs), Arr(ys)) { assert NormItems(ps) == NormItems(qs); }
    }
  }

  lemma PrintedNorm(items: seq<Slot>)
    ensures Printed(NormItems(items)) == NormItems(Printed(items))
  {
    if |items| == 1 { NormItemsAt(items, 0); }
  }

  lemma {:induction false} NormEqualSame(ms: seq<Member>, ns: seq<Member>, owner: Value)
    requires owner == Obj(ms) && IsValue(owner) && IsValue(Obj(ns)) && Norm(owner) == Norm(Obj(ns))
    ensures Same(owner, Obj(ns))
    decreases owner, 0
  {
    NormMembersIn(ms);
    NormMembersIn(ns);
    assert SortMembers(NormMembers(ms)) == SortMembers(NormMembers(ns));
    forall n | n in ns ensures exists m :: m in ms && m.key == n.key {
      assert Member(n.key, Norm(n.value)) in SortMembers(NormMembers(ms));
    }
    forall m | m in ms ensures exists n :: n in ns && n.key == m.key && Same(m.value, n.value) {
      assert Member(m.key, Norm(m.value)) in SortMembers(NormMembers(ns));
      var n :| n in ns && Member(m.key, Norm(m.value)) == Member(n.key, Norm(n.value));
      ValueOf(ms, m);
      ValueOf(ns, n);
      SameIffNormEqual(m.value, n.value);
    }
  }

  lemma ValueOf(ms: seq<Member>, m: Member)
    requires IsValue(Obj(ms)) && m in ms
    ensures IsValue(m.value)
  {}

  lemma KeyDetermines(ms: seq<Member>, m: Member, n: Member)
    requires DistinctKeys(ms) && m in ms && n in ms && m.key == n.key
    ensures m == n
  {}

  /** The normal form of every member of the first object is a member of the second's. */
  lemma {:induction false} SameForward(ms: seq<Member>, ns: seq<Member>, owner: Value, m: Member) returns (n: Member)
    requires owner == Obj(ms) && IsValue(owner) && IsValue(Obj(ns)) && Same(owner, Obj(ns)) && m in ms
    ensures n in ns && n.key == m.key && Norm(n.value) == Norm(m.value)
    decreases owner, 0
  {
    n :| n in ns && n.key == m.key && Same(m.value, n.value);
    ValueOf(ms, m);
    ValueOf(ns, n);
    SameIffNormEqual(m.value, n.value);
  }

  lemma {:induction false} SameBackward(ms: seq<Member>, ns: seq<Member>, owner: Value, n: Member) returns (m: Member)
    requires owner == Obj(ms) && IsValue(owner) && IsValue(Obj(ns)) && Same(owner, Obj(ns)) && n in ns
    ensures m in ms && n.key == m.key && Norm(n.value) == Norm(m.value)
    decreases owner, 1
  {
    m := KeyMet(ms, ns, owner, n);
    var n' := SameForward(ms, ns, owner, m);
    ValueKeys(ns);
    KeyDetermines(ns, n, n');
  }

  lemma KeyMet(ms: seq<Member>, ns: seq<Member>, owner: Value, n: Member) returns (m: Member)
    requires owner == Obj(ms) && Same(owner, Obj(ns)) && n in ns
    ensures m in ms && m.key == n.key
  {
    m :| m in ms && m.key == n.key;
  }

  lemma ValueKeys(ms: seq<Member>)
    requires IsValue(Obj(ms))
    ensures DistinctKeys(ms)
  {}

  lemma {:induction false} SameNormMember(ms: seq<Member>, ns: seq<Member>, owner: Value, x: Member)
    requires owner == Obj(ms) && IsValue(owner) && IsValue(Obj(ns)) && Same(owner, Obj(ns))
    ensures x in NormMembers(ms) <==> x in NormMembers(ns)
    decreases owner, 2
  {
    if x in NormMembers(ms) {
      var m := NormMemberOrigin(ms, x);
      var n := SameForward(ms, ns, owner, m);
      NormMemberIn(ns, n);
    }
    if x in NormMembers(ns) {
      var n := NormMemberOrigin(ns, x);
      var m := SameBackward(ms, ns, owner, n);
      NormMemberIn(ms, m);
    }
  }

  lemma NormMemberOrigin(ms: seq<Member>, x: Member) returns (m: Member)
    requires x in NormMembers(ms)
    ensures m in ms && x == Member(m.key, Norm(m.value))
  {
    var i :| 0 <= i < |ms| && NormMembers(ms)[i] == x;
    NormMembersAt(ms, i);
    m := ms[i];
  }

  lemma NormMemberIn(ms: seq<Member>, m: Member)
    requires m in ms
    ensures Member(m.key, Norm(m.value)) in NormMembers(ms)
  {
    var i :| 0 <= i < |ms| && ms[i] == m;
    NormMembersAt(ms, i);
  }

  lemma {:induction false} SameNormEqual(ms: seq<Member>, ns: seq<Member>, owner: Value)
    requires owner == Obj(ms) && IsValue(owner) && IsValue(Obj(ns)) && Same(owner, Obj(ns))
    ensures Norm(owner) == Norm(Obj(ns))
    decreases owner, 3
  {
    forall x ensures x in NormMembers(ms) <==> x in NormMembers(ns) {
      SameNormMember(ms, ns, owner, x);
    }
    NormMembersDistinct(ms);
    NormMembersDistinct(ns);
    SortedEqual(NormMembers(ms), NormMembers(ns));
  }

  lemma SortedEqual(a: seq<Member>, b: seq<Member>)
    requires DistinctKeys(a) && DistinctKeys(b) && forall x :: x in a <==> x in b
    ensures SortMembers(a) == SortMembers(b)
  {
    SortIncreasing(a);
    SortIncreasing(b);
    IncreasingUnique(SortMembers(a), SortMembers(b));
  }

  lemma {:induction false} SameNorm(v: Value)
    ensures Same(v, Norm(v))
    decreases v
  {
    match v
    case Arr(items) =>
      PrintedNorm(items);
      forall i | 0 <= i < |items| && items[i].Item? ensures Same(items[i].value, Norm(items[i].value)) {
        SameNorm(items[i].value);
      }
      forall i | 0 <= i < |items|
        ensures NormItems(items)[i] == match items[i] case Hole => Hole case Item(x) => Item(Norm(x))
      {
        NormItemsAt(items, i);
      }
    case Obj(ms) =>
      NormMembersIn(ms);
      forall m | m in ms
        ensures exists n :: n in SortMembers(NormMembers(ms)) && n.key == m.key && Same(m.value, n.value)
      {
        SameNorm(m.value);
        assert Member(m.key, Norm(m.value)) in SortMembers(NormMembers(ms));
      }
    case _ =>
  }

  // ---------- Main results ----------

  /** The text reads back as the value itself, with the keys of every object strictly increasing. */
  lemma CanonicalReadsBack(v: Value)
    requires IsValue(v) && Clean(v)
    ensures Serialize(v).Done?
    ensures exists n :: ReadValue(Serialize(v).value) == Some((n, [])) && Same(v, n) && SortedDeep(n)
  {
    SerializePrints(v);
    NormGood(v);
    ReadPrinted(Norm(v), []);
    assert Print(Norm(v)) + [] == Print(Norm(v));
    SameNorm(v);
  }

  /** Two values print the same text exactly when they are the same JSON value; printing fails
      exactly when some leaf cannot be printed. */
  lemma CanonicalIffSame(a: Value, b: Value)
    requires IsValue(a) && IsValue(b)
    ensures Serialize(a).Done? <==> Clean(a)
    ensures Clean(a) && Clean(b) ==> (Serialize(a) == Serialize(b) <==> Same(a, b))
  {
    SerializePrints(a);
    SerializePrints(b);
    SameIffNormEqual(a, b);
    if Clean(a) && Clean(b) && Serialize(a) == Serialize(b) {
      NormGood(a);
      NormGood(b);
      ReadPrinted(Norm(a), []);
      ReadPrinted(Norm(b), []);
    }
  }

  /** The only clash outside key order and the sign of zero: a lone hole prints like no items. */
  lemma LoneHoleClash()
    ensures Serialize(Arr([Hole])) == Serialize(Arr([]))
  {
    assert SerializeItems([Hole]).value == [[]];
  }

  // ---------- Errors and zeros ----------

  /** Some leaf of the value is the reason for the error. */
  ghost predicate Explains(v: Value, e: Error) {
    match v
    case Num(n) => (n.NaN? || n.Infinite?) && e == NonFinite
    case Arr(items) => exists i :: 0 <= i < |items| && items[i].Item? && Explains(items[i].value, e)
    case Obj(ms) =>
      exists i :: 0 <= i < |ms| &&
        if ms[i].value.Undefined? then e == UndefinedAt(ms[i].key) else Explains(ms[i].value, e)
    case Undefined => e == Unsupported
    case Exotic => e == Unsupported
    case _ => false
  }

  /** The error that is thrown is that of a leaf: a number that is not finite, an undefined member under
      its key, or a value that JSON does not have. */
  lemma {:induction false} ErrorExplained(v: Value)
    requires Serialize(v).Throws?
    ensures Explains(v, Serialize(v).error)
    decreases v, 1, 0
  {
    match v
    case Arr(items) => var i := ItemsErrorExplained(items);
    case Obj(ms) =>
      var m := MembersErrorExplained(SortMembers(ms), v);
      var i :| 0 <= i < |ms| && ms[i] == m;
    case _ =>
  }

  lemma {:induction false} ItemsErrorExplained(items: seq<Slot>) returns (i: nat)
    requires SerializeItems(items).Throws?
    ensures i < |items| && items[i].Item? && Explains(items[i].value, SerializeItems(items).error)
    decreases items, 0, 0
  {
    var slot := items[0];
    if slot.Item? && Serialize(slot.value).Throws? {
      match slot { case Item(x) => assert (slot decreases to x); ErrorExplained(x); }
      i := 0;
    } else {
      var j := ItemsErrorExplained(items[1..]);
      i := j + 1;
    }
  }

  lemma {:induction false} MembersErrorExplained(ms: seq<Member>, owner: Value) returns (m: Member)
    requires owner.Obj? && (forall m :: m in ms ==> m in owner.members) && SerializeMembers(ms, owner).Throws?
    ensures m in ms
    ensures var e := SerializeMembers(ms, owner).error;
            if m.value.Undefined? then e == UndefinedAt(m.key) else Explains(m.value, e)
    decreases owner, 0, |ms|
  {
    assert ms[0] in owner.members;
    if ms[0].value.Undefined? {
      m := ms[0];
    } else if Serialize(ms[0].value).Throws? {
      match ms[0] { case Member(_, x) => ErrorExplained(x); }
      m := ms[0];
    } else {
      m := MembersErrorExplained(ms[1..], owner);
    }
  }

  /** Both zeros print as the digit zero. */
  lemma ZerosPrintAlike(zero: NumberText)
    requires zero == [48]
    ensures Serialize(Num(MinusZero)) == Done([48]) == Serialize(Num(Finite(zero)))
  {}
}
