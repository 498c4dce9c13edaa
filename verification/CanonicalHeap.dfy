/** `canonicalJSON` of `shared/canonical.ts` on a heap of arrays and objects that may share nodes
    or contain cycles, with the `seen` set that the recursion shares. */
module CanonicalHeap {
  import opened Wrappers
  import opened JsonText
  import CJ = CanonicalJson

  type Ref = nat

  /** A value in the heap: a leaf, or a reference to an array or object. */
  datatype HValue = Leaf(value: CJ.Value) | To(ref: Ref)

  datatype HSlot = Hole | Item(value: HValue)

  datatype HMember = HMember(key: Text, value: HValue)

  datatype Node = ArrayNode(items: seq<HSlot>) | ObjectNode(members: seq<HMember>)

  type Heap = map<Ref, Node>

  predicate LeafShape(v: CJ.Value) { !v.Arr? && !v.Obj? }

  ghost predicate ValueOk(h: Heap, v: HValue) {
    (v.Leaf? ==> LeafShape(v.value)) && (v.To? ==> v.ref in h)
  }

  /** No dangling reference, and each object has each key once. */
  ghost predicate HeapOk(h: Heap) {
    forall r :: r in h ==>
                  match h[r]
                  case ArrayNode(items) => forall i :: 0 <= i < |items| && items[i].Item? ==> ValueOk(h, items[i].value)
                  case ObjectNode(ms) =>
                    && (forall i :: 0 <= i < |ms| ==> ValueOk(h, ms[i].value))
                    && (forall i, j :: 0 <= i < j < |ms| ==> ms[i].key != ms[j].key)
  }

  // ---------- Paths ----------

  datatype Edge = Index(i: nat) | Key(k: Text)

  function MemberValue(ms: seq<HMember>, k: Text): (r: Option<HValue>)
    ensures r.Some? <==> exists i :: 0 <= i < |ms| && ms[i].key == k
    ensures r.Some? ==> exists i :: 0 <= i < |ms| && ms[i] == HMember(k, r.value)
  {
    if ms == [] then None
    else if ms[0].key == k then Some(ms[0].value)
    else
      var r := MemberValue(ms[1..], k);
      assert r.Some? ==> exists i :: 0 <= i < |ms[1..]| && ms[1..][i] == HMember(k, r.value) && ms[i + 1] == ms[1..][i];
      assert forall i :: 0 < i < |ms| ==> ms[i] == ms[1..][i - 1];
      r
  }

  function Child(n: Node, e: Edge): Option<HValue> {
    match (n, e)
    case (ArrayNode(items), Index(i)) => if i < |items| && items[i].Item? then Some(items[i].value) else None
    case (ObjectNode(ms), Key(k)) => MemberValue(ms, k)
    case _ => None
  }

  /** The value at the end of a path. */
  function Follow(h: Heap, v: HValue, path: seq<Edge>): Option<HValue>
    decreases |path|
  {
    if path == [] then Some(v)
    else if v.Leaf? || v.ref !in h then None
    else
      var c := Child(h[v.ref], path[0]);
      if c.None? then None else Follow(h, c.value, path[1..])
  }

  ghost predicate Reaches(h: Heap, v: HValue, r: Ref) {
    exists path :: Follow(h, v, path) == Some(To(r))
  }

  /** No array or object is reached along two different paths. */
  ghost predicate Unshared(h: Heap, v: HValue) {
    forall p, q, r :: Follow(h, v, p) == Some(To(r)) && Follow(h, v, q) == Some(To(r)) ==> p == q
  }

  /** Every leaf that a path reaches can be printed. */
  ghost predicate LeavesClean(h: Heap, v: HValue) {
    forall p, x :: Follow(h, v, p) == Some(Leaf(x)) ==> CJ.Clean(x)
  }

  ghost predicate Avoids(h: Heap, v: HValue, seen: set<Ref>) {
    forall r :: r in seen ==> !Reaches(h, v, r)
  }

  ghost predicate Apart(h: Heap, v: HValue, seen: set<Ref>) {
    Unshared(h, v) && Avoids(h, v, seen)
  }

  /** A graph with a cycle shares the nodes on it. */
  lemma CycleIsShared(h: Heap, v: HValue, r: Ref, path: seq<Edge>)
    requires Reaches(h, v, r) && path != [] && Follow(h, To(r), path) == Some(To(r))
    ensures !Unshared(h, v)
  {
    var p :| Follow(h, v, p) == Some(To(r));
    FollowConcat(h, v, p, path);
    assert |p + path| != |p|;
  }

  lemma {:induction false} FollowConcat(h: Heap, v: HValue, p: seq<Edge>, q: seq<Edge>)
    requires Follow(h, v, p).Some?
    ensures Follow(h, v, p + q) == Follow(h, Follow(h, v, p).value, q)
    decreases |p|
  {
    if p == [] {
      assert p + q == q;
    } else {
      assert (p + q)[1..] == p[1..] + q;
      FollowConcat(h, Child(h[v.ref], p[0]).value, p[1..], q);
    }
  }

  // ---------- Unfolding ----------

  /** The tree that a graph stands for. */
  ghost predicate Unfolds(h: Heap, v: HValue, t: CJ.Value)
    decreases t
  {
    match v
    case Leaf(x) => t == x
    case To(r) =>
      r in h &&
      match h[r]
      case ArrayNode(items) =>
        && t.Arr? && |t.items| == |items|
        && forall i :: 0 <= i < |items| ==>
                         (items[i].Hole? && t.items[i].Hole?)
                         || (items[i].Item? && t.items[i].Item? && Unfolds(h, items[i].value, t.items[i].value))
      case ObjectNode(ms) =>
        && t.Obj? && |t.members| == |ms|
        && forall i :: 0 <= i < |ms| ==> ms[i].key == t.members[i].key && Unfolds(h, ms[i].value, t.members[i].value)
  }

  // ---------- Visiting a list of children ----------

  ghost predicate AllApart(h: Heap, vs: seq<HValue>, seen: set<Ref>) {
    && (forall i :: 0 <= i < |vs| ==> Apart(h, vs[i], seen))
    && (forall i, j, r :: 0 <= i < j < |vs| && Reaches(h, vs[i], r) ==> !Reaches(h, vs[j], r))
  }

  ghost predicate SeenAfter(h: Heap, vs: seq<HValue>, before: set<Ref>, after: set<Ref>) {
    forall r :: r in after <==> r in before || exists i :: 0 <= i < |vs| && Reaches(h, vs[i], r)
  }

  lemma AllApartStep(h: Heap, vs: seq<HValue>, v: HValue, before: set<Ref>, after: set<Ref>)
    requires AllApart(h, vs, before) && SeenAfter(h, vs, before, after)
    ensures AllApart(h, vs + [v], before) <==> Apart(h, v, after)
  {
    var ws := vs + [v];
    if Apart(h, v, after) {
      forall i | 0 <= i < |ws| ensures Apart(h, ws[i], before) {
        if i < |vs| { assert ws[i] == vs[i]; }
      }
      forall i, j, r | 0 <= i < j < |ws| && Reaches(h, ws[i], r) ensures !Reaches(h, ws[j], r) {
        assert ws[i] == vs[i];
        if j < |vs| { assert ws[j] == vs[j]; }
      }
    }
    if AllApart(h, ws, before) {
      assert ws[|vs|] == v;
      forall r | r in after ensures !Reaches(h, v, r) {
        if r !in before {
          var i :| 0 <= i < |vs| && Reaches(h, vs[i], r);
          assert ws[i] == vs[i];
        }
      }
    }
  }

  lemma SeenAfterStep(h: Heap, vs: seq<HValue>, v: HValue, before: set<Ref>, middle: set<Ref>, after: set<Ref>)
    requires SeenAfter(h, vs, before, middle) && SeenAfter(h, [v], middle, after)
    ensures SeenAfter(h, vs + [v], before, after)
  {
    var ws := vs + [v];
    assert ws[|vs|] == v && [v][0] == v;
    assert forall i :: 0 <= i < |vs| ==> ws[i] == vs[i];
  }

  lemma AllApartPrefix(h: Heap, vs: seq<HValue>, n: nat, seen: set<Ref>)
    requires n <= |vs| && AllApart(h, vs, seen)
    ensures AllApart(h, vs[..n], seen)
  {
    assert forall i :: 0 <= i < n ==> vs[..n][i] == vs[i];
  }

  /** The edges `es` lead to the children `vs` of a node; a hole stands as a clean leaf in `vs`. */
  ghost predicate ChildList(n: Node, es: seq<Edge>, vs: seq<HValue>) {
    && |es| == |vs|
    && (forall i, j :: 0 <= i < j < |es| ==> es[i] != es[j])
    && (forall e :: Child(n, e).Some? ==> e in es)
    && forall i :: 0 <= i < |es| ==>
         Child(n, es[i]) == Some(vs[i]) || (Child(n, es[i]).None? && vs[i] == Leaf(CJ.Null))
  }

  lemma Descend(h: Heap, r: Ref, es: seq<Edge>, vs: seq<HValue>, p: seq<Edge>) returns (i: nat)
    requires r in h && ChildList(h[r], es, vs) && p != [] && Follow(h, To(r), p).Some?
    ensures i < |es| && p[0] == es[i] && Follow(h, vs[i], p[1..]) == Follow(h, To(r), p)
  {
    i :| 0 <= i < |es| && es[i] == p[0];
  }

  lemma Ascend(h: Heap, r: Ref, es: seq<Edge>, vs: seq<HValue>, i: nat, p: seq<Edge>)
    requires r in h && ChildList(h[r], es, vs) && i < |es| && Follow(h, vs[i], p).Some?
    requires Child(h[r], es[i]).Some?
    ensures Follow(h, To(r), [es[i]] + p) == Follow(h, vs[i], p)
  {
    assert ([es[i]] + p)[1..] == p;
  }

  lemma HoleReachesNothing(h: Heap, r: Ref, es: seq<Edge>, vs: seq<HValue>, i: nat, x: Ref)
    requires r in h && ChildList(h[r], es, vs) && i < |es| && Reaches(h, vs[i], x)
    ensures Child(h[r], es[i]).Some?
  {}

  lemma NodeReaches(h: Heap, r: Ref, es: seq<Edge>, vs: seq<HValue>, x: Ref)
    requires r in h && ChildList(h[r], es, vs)
    ensures Reaches(h, To(r), x) <==> x == r || exists i :: 0 <= i < |vs| && Reaches(h, vs[i], x)
  {
    if Reaches(h, To(r), x) && x != r {
      var p :| Follow(h, To(r), p) == Some(To(x));
      var i := Descend(h, r, es, vs, p);
      assert Reaches(h, vs[i], x);
    }
    assert Follow(h, To(r), []) == Some(To(r));
    if i :| 0 <= i < |vs| && Reaches(h, vs[i], x) {
      var p :| Follow(h, vs[i], p) == Some(To(x));
      HoleReachesNothing(h, r, es, vs, i, x);
      Ascend(h, r, es, vs, i, p);
    }
  }

  /** A node is apart exactly when it is new and its children are apart together. */
  lemma NodeApart(h: Heap, r: Ref, es: seq<Edge>, vs: seq<HValue>, seen: set<Ref>)
    requires r in h && ChildList(h[r], es, vs)
    ensures Apart(h, To(r), seen) <==> r !in seen && AllApart(h, vs, seen + {r})
  {
    if Apart(h, To(r), seen) {
      assert Reaches(h, To(r), r) by { assert Follow(h, To(r), []) == Some(To(r)); }
      ChildrenApart(h, r, es, vs, seen);
    }
    if r !in seen && AllApart(h, vs, seen + {r}) {
      UnsharedFromChildren(h, r, es, vs, seen);
      forall x | x in seen ensures !Reaches(h, To(r), x) {
        NodeReaches(h, r, es, vs, x);
        forall i | 0 <= i < |vs| ensures !Reaches(h, vs[i], x) { assert Apart(h, vs[i], seen + {r}); }
      }
    }
  }

  lemma UnsharedFromChildren(h: Heap, r: Ref, es: seq<Edge>, vs: seq<HValue>, seen: set<Ref>)
    requires r in h && ChildList(h[r], es, vs) && AllApart(h, vs, seen + {r})
    ensures Unshared(h, To(r))
  {
    forall p, q, x | Follow(h, To(r), p) == Some(To(x)) && Follow(h, To(r), q) == Some(To(x)) ensures p == q {
      if p == [] || q == [] {
        assert x == r;
        if p != [] { RootReachedAgain(h, r, es, vs, seen, p); }
        if q != [] { RootReachedAgain(h, r, es, vs, seen, q); }
      } else {
        var i := Descend(h, r, es, vs, p);
        var j := Descend(h, r, es, vs, q);
        assert Reaches(h, vs[i], x) && Reaches(h, vs[j], x);
        assert Apart(h, vs[i], seen + {r});
        assert p == [p[0]] + p[1..] && q == [q[0]] + q[1..];
      }
    }
  }

  lemma RootReachedAgain(h: Heap, r: Ref, es: seq<Edge>, vs: seq<HValue>, seen: set<Ref>, p: seq<Edge>)
    requires r in h && ChildList(h[r], es, vs)
    requires p != [] && Follow(h, To(r), p) == Some(To(r))
    ensures !AllApart(h, vs, seen + {r})
  {
    var i := Descend(h, r, es, vs, p);
    assert Reaches(h, vs[i], r) && r in seen + {r};
  }

  lemma TwoChildrenReach(h: Heap, r: Ref, es: seq<Edge>, vs: seq<HValue>, i: nat, j: nat, x: Ref)
    requires r in h && ChildList(h[r], es, vs)
    requires i < j < |vs| && Reaches(h, vs[i], x) && Reaches(h, vs[j], x)
    ensures !Unshared(h, To(r))
  {
    var p :| Follow(h, vs[i], p) == Some(To(x));
    var q :| Follow(h, vs[j], q) == Some(To(x));
    HoleReachesNothing(h, r, es, vs, i, x);
    HoleReachesNothing(h, r, es, vs, j, x);
    Ascend(h, r, es, vs, i, p);
    Ascend(h, r, es, vs, j, q);
    assert ([es[i]] + p)[0] != ([es[j]] + q)[0];
  }

  lemma ChildReachesRoot(h: Heap, r: Ref, es: seq<Edge>, vs: seq<HValue>, i: nat)
    requires r in h && ChildList(h[r], es, vs) && i < |vs| && Reaches(h, vs[i], r)
    ensures !Unshared(h, To(r))
  {
    var p :| Follow(h, vs[i], p) == Some(To(r));
    HoleReachesNothing(h, r, es, vs, i, r);
    Ascend(h, r, es, vs, i, p);
    assert Follow(h, To(r), []) == Some(To(r));
    assert |[es[i]] + p| != 0;
  }

  lemma ChildrenApart(h: Heap, r: Ref, es: seq<Edge>, vs: seq<HValue>, seen: set<Ref>)
    requires r in h && ChildList(h[r], es, vs) && Apart(h, To(r), seen)
    ensures AllApart(h, vs, seen + {r})
  {
    forall i | 0 <= i < |vs| ensures Apart(h, vs[i], seen + {r}) {
      if Child(h[r], es[i]).Some? {
        OneChildApart(h, r, es, vs, seen, i);
      }
    }
    forall i, j, x | 0 <= i < j < |vs| && Reaches(h, vs[i], x) ensures !Reaches(h, vs[j], x) {
      if Reaches(h, vs[j], x) { TwoChildrenReach(h, r, es, vs, i, j, x); }
    }
  }

  lemma OneChildApart(h: Heap, r: Ref, es: seq<Edge>, vs: seq<HValue>, seen: set<Ref>, i: nat)
    requires r in h && ChildList(h[r], es, vs) && Apart(h, To(r), seen)
    requires i < |vs| && Child(h[r], es[i]).Some?
    ensures Apart(h, vs[i], seen + {r})
  {
    var v := vs[i];
    forall p, q, x | Follow(h, v, p) == Some(To(x)) && Follow(h, v, q) == Some(To(x)) ensures p == q {
      Ascend(h, r, es, vs, i, p);
      Ascend(h, r, es, vs, i, q);
      assert ([es[i]] + p)[1..] == p && ([es[i]] + q)[1..] == q;
    }
    forall x | x in seen + {r} ensures !Reaches(h, v, x) {
      if Reaches(h, v, x) {
        NodeReaches(h, r, es, vs, x);
        if x == r { ChildReachesRoot(h, r, es, vs, i); }
      }
    }
  }

  lemma NodeLeaves(h: Heap, r: Ref, es: seq<Edge>, vs: seq<HValue>)
    requires r in h && ChildList(h[r], es, vs)
    ensures LeavesClean(h, To(r)) <==> forall i :: 0 <= i < |vs| ==> LeavesClean(h, vs[i])
  {
    if LeavesClean(h, To(r)) {
      forall i, p, x | 0 <= i < |vs| && Follow(h, vs[i], p) == Some(Leaf(x)) ensures CJ.Clean(x) {
        if Child(h[r], es[i]).Some? { Ascend(h, r, es, vs, i, p); }
      }
    }
    if forall i :: 0 <= i < |vs| ==> LeavesClean(h, vs[i]) {
      forall p, x | Follow(h, To(r), p) == Some(Leaf(x)) ensures CJ.Clean(x) {
        var i := Descend(h, r, es, vs, p);
      }
    }
  }

  // ---------- The serializer ----------

  function Keys(ms: seq<HMember>): (r: seq<Text>)
    ensures |r| == |ms| && forall i :: 0 <= i < |ms| ==> r[i] == ms[i].key
  {
    seq(|ms|, i requires 0 <= i < |ms| => ms[i].key)
  }

  /** The children of an array in visiting order. */
  function ArrayChildren(items: seq<HSlot>): (r: seq<HValue>)
    ensures |r| == |items|
    ensures forall i :: 0 <= i < |items| ==> r[i] == if items[i].Hole? then Leaf(CJ.Null) else items[i].value
  {
    seq(|items|, i requires 0 <= i < |items| => if items[i].Hole? then Leaf(CJ.Null) else items[i].value)
  }

  function ArrayEdges(n: nat): (r: seq<Edge>)
    ensures |r| == n && forall i :: 0 <= i < n ==> r[i] == Index(i)
  {
    seq(n, (i: nat) => Index(i))
  }

  lemma ArrayChildList(items: seq<HSlot>)
    ensures ChildList(ArrayNode(items), ArrayEdges(|items|), ArrayChildren(items))
  {
    forall e | Child(ArrayNode(items), e).Some? ensures e in ArrayEdges(|items|) {
      assert ArrayEdges(|items|)[e.i] == e;
    }
  }

  ghost predicate SlotDone(h: Heap, slot: HSlot, t: CJ.Slot, part: Text) {
    match slot
    case Hole => t == CJ.Hole && part == []
    case Item(v) => t.Item? && Unfolds(h, v, t.value) && CJ.Serialize(t.value) == CJ.Done(part)
  }

  lemma {:induction false} ItemsDone(ts: seq<CJ.Slot>, parts: seq<Text>)
    requires |ts| == |parts|
    requires forall i :: 0 <= i < |ts| ==>
               (ts[i].Hole? && parts[i] == []) || (ts[i].Item? && CJ.Serialize(ts[i].value) == CJ.Done(parts[i]))
    ensures CJ.SerializeItems(ts) == CJ.Done(parts)
    decreases |ts|
  {
    if ts != [] {
      ItemsDone(ts[1..], parts[1..]);
      assert parts == [parts[0]] + parts[1..];
    }
  }

  lemma LeafVisited(h: Heap, x: CJ.Value)
    requires LeafShape(x)
    ensures forall seen: set<Ref> :: Apart(h, Leaf(x), seen) && SeenAfter(h, [Leaf(x)], seen, seen)
    ensures LeavesClean(h, Leaf(x)) <==> CJ.Serialize(x).Done?
    ensures x == CJ.Null ==> LeavesClean(h, Leaf(x))
  {
    assert Follow(h, Leaf(x), []) == Some(Leaf(x));
  }

  /** The first `i` children were visited, starting with `before` and the node itself. */
  ghost predicate Progress(h: Heap, r: Ref, vs: seq<HValue>, i: nat, before: set<Ref>, seen: set<Ref>) {
    && i <= |vs|
    && AllApart(h, vs[..i], before + {r}) && SeenAfter(h, vs[..i], before + {r}, seen)
    && forall j :: 0 <= j < i ==> LeavesClean(h, vs[j])
  }

  lemma ProgressStep(h: Heap, r: Ref, vs: seq<HValue>, i: nat, before: set<Ref>, middle: set<Ref>, after: set<Ref>)
    requires Progress(h, r, vs, i, before, middle) && i < |vs|
    requires Apart(h, vs[i], middle) && LeavesClean(h, vs[i]) && SeenAfter(h, [vs[i]], middle, after)
    ensures Progress(h, r, vs, i + 1, before, after)
  {
    assert vs[..i + 1] == vs[..i] + [vs[i]];
    AllApartStep(h, vs[..i], vs[i], before + {r}, middle);
    SeenAfterStep(h, vs[..i], vs[i], before + {r}, middle, after);
  }

  /** A child that cannot be visited spoils its parent, for the same reason. */
  lemma ChildThrows(h: Heap, r: Ref, es: seq<Edge>, vs: seq<HValue>, i: nat, before: set<Ref>, middle: set<Ref>)
    requires r in h && ChildList(h[r], es, vs) && i < |vs| && r !in before && Progress(h, r, vs, i, before, middle)
    ensures !Apart(h, vs[i], middle) ==> !Apart(h, To(r), before)
    ensures !LeavesClean(h, vs[i]) ==> !LeavesClean(h, To(r))
  {
    assert vs[..i + 1] == vs[..i] + [vs[i]];
    AllApartStep(h, vs[..i], vs[i], before + {r}, middle);
    NodeApart(h, r, es, vs, before);
    NodeLeaves(h, r, es, vs);
    if AllApart(h, vs, before + {r}) { AllApartPrefix(h, vs, i + 1, before + {r}); }
  }

  lemma AllDone(h: Heap, r: Ref, es: seq<Edge>, vs: seq<HValue>, before: set<Ref>, after: set<Ref>)
    requires r in h && ChildList(h[r], es, vs) && r !in before && Progress(h, r, vs, |vs|, before, after)
    ensures Apart(h, To(r), before) && LeavesClean(h, To(r)) && SeenAfter(h, [To(r)], before, after)
  {
    assert vs[..|vs|] == vs;
    NodeApart(h, r, es, vs, before);
    NodeLeaves(h, r, es, vs);
    forall x ensures x in after <==> x in before || exists i :: 0 <= i < |[To(r)]| && Reaches(h, [To(r)][i], x) {
      NodeReaches(h, r, es, vs, x);
      assert Reaches(h, To(r), x) ==> Reaches(h, [To(r)][0], x);
    }
  }

  // ---------- Objects ----------

  function ObjectEdges(keys: seq<Text>): (r: seq<Edge>)
    ensures |r| == |keys| && forall i :: 0 <= i < |keys| ==> r[i] == Key(keys[i])
  {
    seq(|keys|, i requires 0 <= i < |keys| => Key(keys[i]))
  }

  /** The children of an object in the order of the given keys. */
  function ObjectChildren(ms: seq<HMember>, keys: seq<Text>): (r: seq<HValue>)
    requires forall k :: k in keys ==> k in Keys(ms)
    ensures |r| == |keys| && forall i :: 0 <= i < |keys| ==> Some(r[i]) == MemberValue(ms, keys[i])
  {
    assert forall i :: 0 <= i < |keys| ==> MemberValue(ms, keys[i]).Some? by {
      forall i | 0 <= i < |keys| ensures MemberValue(ms, keys[i]).Some? {
        assert keys[i] in keys && keys[i] in Keys(ms);
        var j :| 0 <= j < |ms| && Keys(ms)[j] == keys[i];
        assert ms[j].key == keys[i];
      }
    }
    seq(|keys|, i requires 0 <= i < |keys| => MemberValue(ms, keys[i]).value)
  }

  ghost predicate DistinctTexts(ks: seq<Text>) {
    forall i, j :: 0 <= i < j < |ks| ==> ks[i] != ks[j]
  }

  lemma ObjectChildList(ms: seq<HMember>)
    requires DistinctTexts(Keys(ms))
    ensures
      var keys := SortTexts(Keys(ms));
      ChildList(ObjectNode(ms), ObjectEdges(keys), ObjectChildren(ms, keys))
  {
    var keys := SortTexts(Keys(ms));
    SortTextsIncreasing(Keys(ms));
    forall i, j | 0 <= i < j < |keys| ensures keys[i] != keys[j] { LessIrreflexive(keys[i]); }
    forall e | Child(ObjectNode(ms), e).Some? ensures e in ObjectEdges(keys) {
      var i :| 0 <= i < |ms| && ms[i].key == e.k;
      assert Keys(ms)[i] == e.k && e.k in keys;
      var j :| 0 <= j < |keys| && keys[j] == e.k;
      assert ObjectEdges(keys)[j] == e;
    }
  }

  lemma MemberValueOk(h: Heap, r: Ref, k: Text)
    requires HeapOk(h) && r in h && h[r].ObjectNode? && MemberValue(h[r].members, k).Some?
    ensures ValueOk(h, MemberValue(h[r].members, k).value)
  {
    var v := MemberValue(h[r].members, k).value;
    var i :| 0 <= i < |h[r].members| && h[r].members[i] == HMember(k, v);
  }

  ghost predicate MemberDone(h: Heap, k: Text, v: HValue, t: CJ.Member, part: Text) {
    && t.key == k && Unfolds(h, v, t.value) && !t.value.Undefined?
    && CJ.Serialize(t.value).Done? && part == Quote(k) + [COLON] + CJ.Serialize(t.value).value
  }

  /** The sorted members `ts` in the order in which the object holds them. */
  ghost function Reorder(ms: seq<HMember>, ts: seq<CJ.Member>): CJ.Value {
    CJ.Obj(seq(|ms|, i requires 0 <= i < |ms| => CJ.Member(ms[i].key, TreeAt(ts, ms[i].key))))
  }

  ghost function TreeAt(ts: seq<CJ.Member>, k: Text): CJ.Value {
    if i :| 0 <= i < |ts| && ts[i].key == k then ts[i].value else CJ.Null
  }

  lemma TreeAtKey(ts: seq<CJ.Member>, j: nat)
    requires CJ.Increasing(ts) && j < |ts|
    ensures TreeAt(ts, ts[j].key) == ts[j].value
  {
    var i :| 0 <= i < |ts| && ts[i].key == ts[j].key && TreeAt(ts, ts[j].key) == ts[i].value;
    LessIrreflexive(ts[j].key);
  }

  lemma KeyPlace(ms: seq<HMember>, ts: seq<CJ.Member>, i: nat) returns (j: nat)
    requires DistinctTexts(Keys(ms)) && i < |ms| && |ts| == |ms| == |SortTexts(Keys(ms))| && CJ.Increasing(ts)
    requires forall j :: 0 <= j < |ts| ==> ts[j].key == SortTexts(Keys(ms))[j]
    ensures j < |ts| && ts[j].key == ms[i].key && SortTexts(Keys(ms))[j] == ms[i].key
    ensures Reorder(ms, ts).members[i] == ts[j]
  {
    assert Keys(ms)[i] in SortTexts(Keys(ms));
    j :| 0 <= j < |ts| && SortTexts(Keys(ms))[j] == ms[i].key;
    TreeAtKey(ts, j);
  }

  /** Sorting the members of the tree gives back the list that the loop built. */
  lemma ReorderSorts(ms: seq<HMember>, ts: seq<CJ.Member>)
    requires DistinctTexts(Keys(ms)) && |ts| == |SortTexts(Keys(ms))|
    requires forall j :: 0 <= j < |ts| ==> ts[j].key == SortTexts(Keys(ms))[j]
    ensures |ts| == |ms| && CJ.Increasing(ts)
    ensures CJ.SortMembers(Reorder(ms, ts).members) == ts
  {
    var keys := SortTexts(Keys(ms));
    SortTextsIncreasing(Keys(ms));
    assert CJ.Increasing(ts);
    var rs := Reorder(ms, ts).members;
    forall m | m in rs ensures m in ts {
      var i :| 0 <= i < |ms| && rs[i] == m;
      var j := KeyPlace(ms, ts, i);
    }
    forall m | m in ts ensures m in rs {
      var j :| 0 <= j < |ts| && ts[j] == m;
      assert keys[j] in Keys(ms);
      var i :| 0 <= i < |ms| && Keys(ms)[i] == keys[j];
      TreeAtKey(ts, j);
      assert rs[i] == m;
    }
    assert forall i :: 0 <= i < |ms| ==> rs[i].key == Keys(ms)[i];
    CJ.SortIncreasing(rs);
    CJ.IncreasingUnique(CJ.SortMembers(rs), ts);
  }

  lemma {:induction false} MembersDone(ts: seq<CJ.Member>, parts: seq<Text>, owner: CJ.Value)
    requires owner.Obj? && (forall m :: m in ts ==> m in owner.members) && |ts| == |parts|
    requires forall i :: 0 <= i < |ts| ==> !ts[i].value.Undefined? && CJ.Serialize(ts[i].value).Done?
    requires forall i :: 0 <= i < |ts| ==> parts[i] == Quote(ts[i].key) + [COLON] + CJ.Serialize(ts[i].value).value
    ensures CJ.SerializeMembers(ts, owner) == CJ.Done(parts)
    decreases |ts|
  {
    if ts != [] {
      MembersDone(ts[1..], parts[1..], owner);
      assert parts == [parts[0]] + parts[1..];
    }
  }

  ghost predicate MembersAre(h: Heap, ms: seq<HMember>, ts: seq<CJ.Member>, parts: seq<Text>) {
    var keys := SortTexts(Keys(ms));
    && |ts| == |parts| == |keys|
    && forall j :: 0 <= j < |keys| ==> MemberDone(h, keys[j], ObjectChildren(ms, keys)[j], ts[j], parts[j])
  }

  lemma ReorderUnfolds(h: Heap, r: Ref, ms: seq<HMember>, ts: seq<CJ.Member>, parts: seq<Text>)
    requires HeapOk(h) && r in h && h[r] == ObjectNode(ms) && MembersAre(h, ms, ts, parts)
    ensures Unfolds(h, To(r), Reorder(ms, ts))
  {
    var keys, t := SortTexts(Keys(ms)), Reorder(ms, ts);
    ReorderSorts(ms, ts);
    forall i | 0 <= i < |ms| ensures ms[i].key == t.members[i].key && Unfolds(h, ms[i].value, t.members[i].value) {
      var j := KeyPlace(ms, ts, i);
      MemberValueAt(ms, i);
      assert ObjectChildren(ms, keys)[j] == ms[i].value;
    }
  }

  lemma ReorderPrints(h: Heap, ms: seq<HMember>, ts: seq<CJ.Member>, parts: seq<Text>)
    requires DistinctTexts(Keys(ms)) && MembersAre(h, ms, ts, parts)
    ensures CJ.Serialize(Reorder(ms, ts)) == CJ.Done([123] + CJ.Join(parts) + [125])
  {
    ReorderSorts(ms, ts);
    MembersDone(ts, parts, Reorder(ms, ts));
  }

  lemma ReorderDone(h: Heap, r: Ref, ms: seq<HMember>, ts: seq<CJ.Member>, parts: seq<Text>)
    requires HeapOk(h) && r in h && h[r] == ObjectNode(ms) && MembersAre(h, ms, ts, parts)
    ensures Unfolds(h, To(r), Reorder(ms, ts))
    ensures CJ.Serialize(Reorder(ms, ts)) == CJ.Done([123] + CJ.Join(parts) + [125])
  {
    ReorderUnfolds(h, r, ms, ts, parts);
    ReorderPrints(h, ms, ts, parts);
  }

  lemma {:induction false} MemberValueAt(ms: seq<HMember>, i: nat)
    requires DistinctTexts(Keys(ms)) && i < |ms|
    ensures MemberValue(ms, ms[i].key) == Some(ms[i].value)
    decreases |ms|
  {
    assert Keys(ms)[0] == ms[0].key && Keys(ms)[i] == ms[i].key;
    if i > 0 {
      assert Keys(ms[1..]) == Keys(ms)[1..];
      MemberValueAt(ms[1..], i - 1);
    }
  }

  class Serializer {
    const heap: Heap
    var seen: set<Ref>

    constructor (heap: Heap)
      ensures this.heap == heap && seen == {}
    {
      this.heap := heap;
      seen := {};
    }

    /** What a call on `v` did, given the nodes seen before it. */
    ghost predicate Visited(v: HValue, before: set<Ref>, r: CJ.Outcome<Text>, t: CJ.Value)
      reads this
    {
      && before <= seen <= heap.Keys
      && (r.Done? <==> Apart(heap, v, before) && LeavesClean(heap, v))
      && (r.Done? ==> Unfolds(heap, v, t) && CJ.Serialize(t) == r && SeenAfter(heap, [v], before, seen))
      && (r == CJ.Throws(CJ.Cycle) ==> !Apart(heap, v, before))
      && (r.Throws? && r.error != CJ.Cycle ==> !LeavesClean(heap, v))
    }

    method Serialize(v: HValue) returns (r: CJ.Outcome<Text>, ghost t: CJ.Value)
      requires HeapOk(heap) && ValueOk(heap, v) && seen <= heap.Keys
      modifies this`seen
      ensures Visited(v, old(seen), r, t)
      decreases heap.Keys - seen, 1
    {
      match v {
        case Leaf(x) =>
          r, t := CJ.Serialize(x), x;
          LeafVisited(heap, x);
        case To(ref) =>
          t := CJ.Null;
          if ref in seen {
            r := CJ.Throws(CJ.Cycle);
            assert Follow(heap, v, []) == Some(To(ref));
            assert Reaches(heap, v, ref);
          } else {
            match heap[ref] {
              case ArrayNode(items) => r, t := SerializeArray(ref, items);
              case ObjectNode(ms) => r, t := SerializeObject(ref, ms);
            }
          }
      }
    }

    method SerializeArray(ref: Ref, items: seq<HSlot>) returns (r: CJ.Outcome<Text>, ghost t: CJ.Value)
      requires HeapOk(heap) && seen <= heap.Keys && ref in heap && ref !in seen && heap[ref] == ArrayNode(items)
      modifies this`seen
      ensures Visited(To(ref), old(seen), r, t)
      decreases heap.Keys - seen, 0
    {
      ghost var before := seen;
      ghost var es, vs := ArrayEdges(|items|), ArrayChildren(items);
      ArrayChildList(items);
      seen := seen + {ref};
      var parts: seq<Text> := [];
      ghost var ts: seq<CJ.Slot> := [];
      for i := 0 to |items|
        invariant before + {ref} <= seen <= heap.Keys
        invariant |parts| == |ts| == i
        invariant Progress(heap, ref, vs, i, before, seen)
        invariant forall j :: 0 <= j < i ==> SlotDone(heap, items[j], ts[j], parts[j])
      {
        ghost var middle := seen;
        var part, slot := SerializeSlot(items[i]);
        if part.Throws? {
          ChildThrows(heap, ref, es, vs, i, before, middle);
          return CJ.Throws(part.error), CJ.Null;
        }
        parts, ts := parts + [part.value], ts + [slot];
        ProgressStep(heap, ref, vs, i, before, middle, seen);
      }
      r, t := CJ.Done([91] + CJ.Join(parts) + [93]), CJ.Arr(ts);
      ItemsDone(ts, parts);
      AllDone(heap, ref, es, vs, before, seen);
    }

    /** One turn of the loop over the items; `map` skips holes. */
    method SerializeSlot(item: HSlot) returns (r: CJ.Outcome<Text>, ghost t: CJ.Slot)
      requires HeapOk(heap) && seen <= heap.Keys && (item.Item? ==> ValueOk(heap, item.value))
      modifies this`seen
      ensures
        var v := if item.Hole? then Leaf(CJ.Null) else item.value;
        && old(seen) <= seen <= heap.Keys
        && (r.Done? <==> Apart(heap, v, old(seen)) && LeavesClean(heap, v))
        && (r.Done? ==> SlotDone(heap, item, t, r.value) && SeenAfter(heap, [v], old(seen), seen))
        && (r == CJ.Throws(CJ.Cycle) ==> !Apart(heap, v, old(seen)))
        && (r.Throws? && r.error != CJ.Cycle ==> !LeavesClean(heap, v))
      decreases heap.Keys - seen, 2
    {
      match item {
        case Hole =>
          LeafVisited(heap, CJ.Null);
          r, t := CJ.Done([]), CJ.Hole;
        case Item(v) =>
          var text, tree := Serialize(v);
          r, t := text, CJ.Item(tree);
      }
    }

    /** One turn of the loop over the sorted keys. */
    method SerializeMember(ref: Ref, ms: seq<HMember>, k: Text) returns (r: CJ.Outcome<Text>, ghost t: CJ.Value)
      requires HeapOk(heap) && seen <= heap.Keys && ref in seen && heap[ref] == ObjectNode(ms)
      requires MemberValue(ms, k).Some?
      modifies this`seen
      ensures
        var v := MemberValue(ms, k).value;
        && old(seen) <= seen <= heap.Keys
        && (r.Done? <==> Apart(heap, v, old(seen)) && LeavesClean(heap, v))
        && (r.Done? ==> MemberDone(heap, k, v, CJ.Member(k, t), r.value) && SeenAfter(heap, [v], old(seen), seen))
        && (r == CJ.Throws(CJ.Cycle) ==> !Apart(heap, v, old(seen)))
        && (r.Throws? && r.error != CJ.Cycle ==> !LeavesClean(heap, v))
      decreases heap.Keys - seen, 2
    {
      var val := MemberValue(ms, k).value;
      if val == Leaf(CJ.Undefined) {
        LeafVisited(heap, CJ.Undefined);
        return CJ.Throws(CJ.UndefinedAt(k)), CJ.Null;
      }
      MemberValueOk(heap, ref, k);
      var text, tree := Serialize(val);
      if text.Throws? { return CJ.Throws(text.error), CJ.Null; }
      r, t := CJ.Done(Quote(k) + [COLON] + text.value), tree;
    }

    method SerializeObject(ref: Ref, ms: seq<HMember>) returns (r: CJ.Outcome<Text>, ghost t: CJ.Value)
      requires HeapOk(heap) && seen <= heap.Keys && ref in heap && ref !in seen && heap[ref] == ObjectNode(ms)
      modifies this`seen
      ensures Visited(To(ref), old(seen), r, t)
      decreases heap.Keys - seen, 0
    {
      ghost var before := seen;
      seen := seen + {ref};
      var keys := SortTexts(Keys(ms));
      ghost var es, vs := ObjectEdges(keys), ObjectChildren(ms, keys);
      ObjectChildList(ms);
      var parts: seq<Text> := [];
      ghost var ts: seq<CJ.Member> := [];
      for i := 0 to |keys|
        invariant before + {ref} <= seen <= heap.Keys
        invariant |parts| == |ts| == i
        invariant Progress(heap, ref, vs, i, before, seen)
        invariant forall j :: 0 <= j < i ==> MemberDone(heap, keys[j], vs[j], ts[j], parts[j])
      {
        ghost var middle := seen;
        var part, tree := SerializeMember(ref, ms, keys[i]);
        if part.Throws? {
          ChildThrows(heap, ref, es, vs, i, before, middle);
          return CJ.Throws(part.error), CJ.Null;
        }
        parts, ts := parts + [part.value], ts + [CJ.Member(keys[i], tree)];
        ProgressStep(heap, ref, vs, i, before, middle, seen);
      }
      r, t := CJ.Done([123] + CJ.Join(parts) + [125]), Reorder(ms, ts);
      ReorderDone(heap, ref, ms, ts, parts);
      AllDone(heap, ref, es, vs, before, seen);
    }
  }

  lemma {:induction false} UnfoldsIsValue(h: Heap, v: HValue, t: CJ.Value)
    requires HeapOk(h) && ValueOk(h, v) && Unfolds(h, v, t)
    ensures CJ.IsValue(t)
    decreases t
  {
    if v.To? {
      match h[v.ref] {
        case ArrayNode(items) =>
          forall i | 0 <= i < |items| && t.items[i].Item? ensures CJ.IsValue(t.items[i].value) {
            UnfoldsIsValue(h, items[i].value, t.items[i].value);
          }
        case ObjectNode(ms) =>
          forall i | 0 <= i < |ms| ensures CJ.IsValue(t.members[i].value) {
            UnfoldsIsValue(h, ms[i].value, t.members[i].value);
          }
      }
    }
  }

  /** On every finite graph the call ends; it succeeds exactly when no array or object is reached
      along two paths and every leaf can be printed, and then prints the unfolded tree. A cycle is
      reported only if something is reached twice, any other error only if a leaf is bad. */
  method CanonicalJSON(heap: Heap, v: HValue) returns (r: CJ.Outcome<Text>)
    requires HeapOk(heap) && ValueOk(heap, v)
    ensures r.Done? <==> Unshared(heap, v) && LeavesClean(heap, v)
    ensures r.Done? ==> exists t :: Unfolds(heap, v, t) && CJ.IsValue(t) && CJ.Serialize(t) == r
    ensures r == CJ.Throws(CJ.Cycle) ==> !Unshared(heap, v)
    ensures r.Throws? && r.error != CJ.Cycle ==> !LeavesClean(heap, v)
  {
    var s := new Serializer(heap);
    ghost var t;
    r, t := s.Serialize(v);
    if r.Done? { UnfoldsIsValue(heap, v, t); }
  }
}
