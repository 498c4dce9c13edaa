/** `canonicalJSON` of `shared/canonical.ts` on tree-shaped values: what it prints, and what a
    reader can recover from the printed text. `CanonicalHeap` treats object graphs. */
module CanonicalJson {
  import opened Wrappers
  import opened JsonText

  /** The characters of a printed number. */
  predicate IsNumberUnit(u: Unit) {
    48 <= u < 58 || u == 45 || u == 43 || u == 46 || u == 101
  }

  predicate IsNumberText(t: Text) {
    && t != [] && (48 <= t[0] < 58 || t[0] == 45)
    && forall u :: u in t ==> IsNumberUnit(u)
  }

  /** Digits, signs, point and `e`, with a digit or a minus sign at the start. */
  lemma NumberUnitsExactly(u: char, t: Text)
    requires u as int < 0x1_0000
    ensures IsNumberUnit(u as int) <==> u in "0123456789+-.e"
    ensures IsNumberText([u as int] + t) <==> u in "0123456789-" && forall v :: v in t ==> IsNumberUnit(v)
    ensures !IsNumberText([])
  {
    assert "0123456789+-.e" == ['0', '1', '2', '3', '4', '5', '6', '7', '8', '9', '+', '-', '.', 'e'];
    assert forall v :: v in [u as int] + t <==> v == u as int || v in t;
  }

  type NumberText = t: Text | IsNumberText(t) witness [48]

  /** A number is known by its shortest decimal text; minus zero has a text of its own only here. */
  datatype Number = NaN | Infinite(negative: bool) | MinusZero | Finite(text: NumberText)

  const ZERO: NumberText := [48]

  /** Any JavaScript value. `Exotic` stands for functions, symbols and big integers. */
  datatype Value =
    | Null
    | Bool(b: bool)
    | Num(n: Number)
    | Str(s: Text)
    | Arr(items: seq<Slot>)
    | Obj(members: seq<Member>)
    | Undefined
    | Exotic

  /** Arrays may have holes. */
  datatype Slot = Hole | Item(value: Value)

  datatype Member = Member(key: Text, value: Value)

  datatype Error = NonFinite | UndefinedAt(key: Text) | Unsupported | Cycle

  datatype Outcome<T> = Done(value: T) | Throws(error: Error)

  ghost predicate DistinctKeys(ms: seq<Member>) {
    forall i, j :: 0 <= i < j < |ms| ==> ms[i].key != ms[j].key
  }

  /** An object has each key once. */
  ghost predicate IsValue(v: Value) {
    match v
    case Arr(items) => forall i :: 0 <= i < |items| && items[i].Item? ==> IsValue(items[i].value)
    case Obj(ms) => DistinctKeys(ms) && forall i :: 0 <= i < |ms| ==> IsValue(ms[i].value)
    case _ => true
  }

  // ---------- The serializer ----------

  function KeyOf(m: Member): Text { m.key }

  /** The members of an object in sorted key order. */
  function SortMembers(ms: seq<Member>): (r: seq<Member>)
    ensures forall x :: x in r <==> x in ms
  {
    SortBy(KeyOf, ms)
  }

  function Join(parts: seq<Text>): Text {
    if parts == [] then []
    else if |parts| == 1 then parts[0]
    else parts[0] + [COMMA] + Join(parts[1..])
  }

  const NULL_TEXT: Text := [110, 117, 108, 108]
  const TRUE_TEXT: Text := [116, 114, 117, 101]
  const FALSE_TEXT: Text := [102, 97, 108, 115, 101]

  function Serialize(v: Value): Outcome<Text>
    decreases v, 1, 0
  {
    match v
    case Null => Done(NULL_TEXT)
    case Bool(b) => Done(if b then TRUE_TEXT else FALSE_TEXT)
    case Num(Finite(text)) => Done(text)
    case Num(MinusZero) => Done(ZERO)
    case Num(_) => Throws(NonFinite)
    case Str(s) => Done(Quote(s))
    case Arr(items) =>
      (match SerializeItems(items)
       case Done(parts) => Done([91] + Join(parts) + [93])
       case Throws(e) => Throws(e))
    case Obj(ms) =>
      (match SerializeMembers(SortMembers(ms), v)
       case Done(parts) => Done([123] + Join(parts) + [125])
       case Throws(e) => Throws(e))
    case Undefined => Throws(Unsupported)
    case Exotic => Throws(Unsupported)
  }

  /** `map` skips holes and `join` prints them as nothing. */
  function SerializeItems(items: seq<Slot>): (r: Outcome<seq<Text>>)
    ensures r.Done? ==> |r.value| == |items|
    decreases items, 0, 0
  {
    if items == [] then Done([])
    else
      var slot := items[0];
      var head := match slot case Hole => Done([]) case Item(x) => (assert (slot decreases to x); Serialize(x));
      if head.Throws? then Throws(head.error)
      else
        var tail := SerializeItems(items[1..]);
        if tail.Throws? then tail else Done([head.value] + tail.value)
  }

  function SerializeMembers(ms: seq<Member>, owner: Value): (r: Outcome<seq<Text>>)
    requires owner.Obj? && forall m :: m in ms ==> m in owner.members
    ensures r.Done? ==> |r.value| == |ms|
    decreases owner, 0, |ms|
  {
    if ms == [] then Done([])
    else if ms[0].value.Undefined? then Throws(UndefinedAt(ms[0].key))
    else
      assert ms[0] in owner.members;
      var head := match ms[0] case Member(_, x) => Serialize(x);
      if head.Throws? then Throws(head.error)
      else
        var tail := SerializeMembers(ms[1..], owner);
        if tail.Throws? then tail else Done([Quote(ms[0].key) + [COLON] + head.value] + tail.value)
  }

  // ---------- Specification ----------

  /** Every leaf can be printed. */
  ghost predicate Clean(v: Value) {
    match v
    case Num(n) => n.Finite? || n.MinusZero?
    case Arr(items) => forall i :: 0 <= i < |items| && items[i].Item? ==> Clean(items[i].value)
    case Obj(ms) => forall i :: 0 <= i < |ms| ==> Clean(ms[i].value)
    case Undefined => false
    case Exotic => false
    case _ => true
  }

  function Unsigned(n: Number): Number {
    if n.MinusZero? then Finite(ZERO) else n
  }

  /** One hole alone prints like no item at all. */
  function Printed(items: seq<Slot>): seq<Slot> {
    if items == [Hole] then [] else items
  }

  /** The same JSON value: objects as finite maps, arrays item by item, both zeros equal. */
  ghost predicate Same(a: Value, b: Value)
    decreases a
  {
    match (a, b)
    case (Num(m), Num(n)) => Unsigned(m) == Unsigned(n)
    case (Arr(xs), Arr(ys)) =>
      var (ps, qs) := (Printed(xs), Printed(ys));
      && |ps| == |qs|
      && forall i :: 0 <= i < |ps| ==>
                       (ps[i].Hole? && qs[i].Hole?) || (ps[i].Item? && qs[i].Item? && Same(xs[i].value, qs[i].value))
    case (Obj(ms), Obj(ns)) =>
      && (forall n :: n in ns ==> exists m :: m in ms && m.key == n.key)
      && (forall m :: m in ms ==> exists n :: n in ns && n.key == m.key && Same(m.value, n.value))
    case _ => a == b
  }

  /** The representative a reader gets back: sorted keys, plus zero, no lone hole. */
  function Norm(v: Value): Value
    decreases v, 1
  {
    match v
    case Num(n) => Num(Unsigned(n))
    case Arr(items) => Arr(Printed(NormItems(items)))
    case Obj(ms) => Obj(SortMembers(NormMembers(ms)))
    case _ => v
  }

  function NormItems(items: seq<Slot>): (r: seq<Slot>)
    ensures |r| == |items|
    decreases items, 0
  {
    if items == [] then []
    else
      var slot := items[0];
      [match slot case Hole => Hole case Item(x) => (assert (slot decreases to x); Item(Norm(x)))]
        + NormItems(items[1..])
  }

  function NormMembers(ms: seq<Member>): (r: seq<Member>)
    ensures |r| == |ms|
    decreases ms, 0
  {
    if ms == [] then []
    else [match ms[0] case Member(k, x) => Member(k, Norm(x))] + NormMembers(ms[1..])
  }

  /** Keys strictly increase. */
  ghost predicate Increasing(ms: seq<Member>) {
    forall i, j :: 0 <= i < j < |ms| ==> Less(ms[i].key, ms[j].key)
  }

  /** Keys strictly increase in every object at every depth. */
  ghost predicate SortedDeep(v: Value) {
    match v
    case Arr(items) => forall i :: 0 <= i < |items| && items[i].Item? ==> SortedDeep(items[i].value)
    case Obj(ms) => Increasing(ms) && forall i :: 0 <= i < |ms| ==> SortedDeep(ms[i].value)
    case _ => true
  }

  // ---------- Sorting ----------

  lemma SortIncreasing(ms: seq<Member>)
    requires DistinctKeys(ms)
    ensures Increasing(SortMembers(ms))
  {
    SortByIncreasing(KeyOf, ms);
    assert IncreasingBy(KeyOf, SortMembers(ms));
  }

  /** Two increasing lists with the same members are the same list. */
  lemma {:induction false} IncreasingUnique(a: seq<Member>, b: seq<Member>)
    requires Increasing(a) && Increasing(b) && forall m :: m in a <==> m in b
    ensures a == b
    decreases |a|
  {
    assert a != [] ==> a[0] in a;
    assert b != [] ==> b[0] in b;
    if a != [] {
      var i :| 0 <= i < |b| && b[i] == a[0];
      var j :| 0 <= j < |a| && a[j] == b[0];
      if i > 0 && j > 0 {
        LessTransitive(a[0].key, a[j].key, a[0].key);
        LessIrreflexive(a[0].key);
      }
      if i == 0 || j == 0 {
        TailMembers(a, b);
        TailMembers(b, a);
        IncreasingUnique(a[1..], b[1..]);
      }
    }
  }

  lemma TailMembers(a: seq<Member>, b: seq<Member>)
    requires a != [] && b != [] && a[0] == b[0] && Increasing(a) && forall m :: m in a ==> m in b
    ensures forall m :: m in a[1..] ==> m in b[1..]
  {
    forall m | m in a[1..] ensures m in b[1..] {
      var k :| 0 <= k < |a[1..]| && a[1..][k] == m;
      assert a[k + 1] == m && m in a;
      LessIrreflexive(m.key);
      assert m != b[0];
      var l :| 0 <= l < |b| && b[l] == m;
      assert b[1..][l - 1] == m;
    }
  }
}
