/** The search for the prereq apps of a task (`findAllPrereqApps`) and their compilation,
    in `mcp/al-tools-server.ts`. */
module PrereqSearch {
  import opened Wrappers

  type AppId = string

  /** A prereq app: its directory and the two `app.json` fields the search reads. */
  datatype App = App(path: string, id: AppId, dependencies: seq<AppId>)

  /** The dependencies directory in listing order. An entry is `None` when it is not a
      directory or holds no readable `app.json`. */
  type Listing = seq<Option<App>>

  /** The first listed app that carries the id. */
  function FindById(listing: Listing, id: AppId): (r: Option<App>)
    ensures r.Some? ==> r in listing && r.value.id == id
    ensures r.None? ==> forall e :: e in listing && e.Some? ==> e.value.id != id
  {
    if listing == [] then None
    else if listing[0].Some? && listing[0].value.id == id then listing[0]
    else FindById(listing[1..], id)
  }

  lemma {:induction false} FindsFirst(listing: Listing, id: AppId, e: App)
    ensures FindById(listing, id) == Some(e) <==>
            exists i :: 0 <= i < |listing| && listing[i] == Some(e) && e.id == id
                        && forall j :: 0 <= j < i && listing[j].Some? ==> listing[j].value.id != id
  {
    if listing != [] {
      var rest := listing[1..];
      FindsFirst(rest, id, e);
      if listing[0].Some? && listing[0].value.id == id {
      } else if i :| 0 <= i < |listing| && listing[i] == Some(e) && e.id == id
                     && forall j :: 0 <= j < i && listing[j].Some? ==> listing[j].value.id != id {
        assert i > 0 && rest[i - 1] == Some(e);
        assert forall j :: 0 <= j < i - 1 ==> rest[j] == listing[j + 1];
      }
    }
  }

  /** What one search sees: the main prereq and the directory that resolves dependency ids. */
  datatype Project = Project(main: App, listing: Listing) {

    /** The main prereq shadows a listed app that has the same id. */
    function AppOf(id: AppId): Option<App> {
      if id == main.id then Some(main) else FindById(listing, id)
    }

    /** App `a` declares a dependency on `b`, and `b` is one of the listed prereq apps. */
    predicate Edge(a: AppId, b: AppId) {
      && AppOf(a).Some?
      && b in AppOf(a).value.dependencies
      && FindById(listing, b).Some?
    }

    /** `e` is the first app of the listing that carries the id. */
    ghost predicate FirstListed(id: AppId, e: App) {
      exists i :: 0 <= i < |listing| && listing[i] == Some(e) && e.id == id
                  && forall j :: 0 <= j < i && listing[j].Some? ==> listing[j].value.id != id
    }

    lemma AppOfExactly(id: AppId, e: App)
      ensures AppOf(id) == Some(e) <==> if id == main.id then e == main else FirstListed(id, e)
    {
      FindsFirst(listing, id, e);
    }

    /** An edge is a dependency that the app declares and some listed app carries. */
    lemma EdgeExactly(a: AppId, b: AppId)
      ensures Edge(a, b) <==>
              && (exists e :: e in listing && e.Some? && e.value.id == b)
              && exists e :: (if a == main.id then e == main else FirstListed(a, e)) && b in e.dependencies
    {
      forall e { AppOfExactly(a, e); }
      if Edge(a, b) {
        AppOfExactly(a, AppOf(a).value);
        var found := FindById(listing, b);
        assert found in listing && found.value.id == b;
      }
    }

    ghost predicate IsWalk(w: seq<AppId>) {
      && 0 < |w|
      && forall i :: 0 <= i < |w| - 1 ==> Edge(w[i], w[i + 1])
    }

    ghost predicate Reaches(a: AppId, b: AppId) {
      exists w :: IsWalk(w) && w[0] == a && w[|w| - 1] == b
    }

    /** No walk from the main prereq meets an app twice. */
    ghost predicate Acyclic() {
      forall w :: IsWalk(w) && w[0] == main.id ==> Distinct(w)
    }

    /** Every id the search can ever visit. */
    function Universe(): set<AppId> {
      {main.id} + set e | e in listing && e.Some? :: e.value.id
    }
  }

  ghost predicate Distinct<T(!new)>(s: seq<T>) {
    forall i, j :: 0 <= i < j < |s| ==> s[i] != s[j]
  }

  function Ids(apps: seq<App>): (r: seq<AppId>)
    ensures |r| == |apps|
    ensures forall i :: 0 <= i < |apps| ==> r[i] == apps[i].id
  {
    seq(|apps|, i requires 0 <= i < |apps| => apps[i].id)
  }

  /** Every dependency stands somewhere before its dependent. */
  ghost predicate DependenciesFirst(p: Project, order: seq<App>) {
    forall i, d :: 0 <= i < |order| && p.Edge(order[i].id, d) ==> d in Ids(order[..i])
  }

  /** What `findAllPrereqApps` promises about the list it returns. */
  ghost predicate DependencyOrder(p: Project, order: seq<App>) {
    && Distinct(Ids(order))
    && (forall a :: a in order ==> p.AppOf(a.id) == Some(a))
    && (forall id :: id in Ids(order) <==> p.Reaches(p.main.id, id))
    && 0 < |order| && order[|order| - 1] == p.main
    && (DependenciesFirst(p, order) <==> p.Acyclic())
  }

  lemma WalkExtends(p: Project, w: seq<AppId>, d: AppId)
    requires p.IsWalk(w) && p.Edge(w[|w| - 1], d)
    ensures p.IsWalk(w + [d])
  {
    var v := w + [d];
    forall i | 0 <= i < |v| - 1 ensures p.Edge(v[i], v[i + 1]) {
      if i < |w| - 1 { assert v[i] == w[i] && v[i + 1] == w[i + 1]; }
    }
  }

  /** An edge back into the open chain closes a cycle. */
  lemma BackEdge(p: Project, w: seq<AppId>, d: AppId)
    requires p.IsWalk(w) && w[0] == p.main.id && p.Edge(w[|w| - 1], d) && d in w
    ensures !p.Acyclic()
  {
    WalkExtends(p, w, d);
    var v := w + [d];
    var k :| 0 <= k < |w| && w[k] == d;
    assert v[0] == p.main.id && v[k] == v[|w|];
  }

  lemma EdgeInUniverse(p: Project, a: AppId, b: AppId)
    requires p.Edge(a, b)
    ensures b in p.Universe()
  {
    var e := FindById(p.listing, b);
    assert e in p.listing && e.Some? && e.value.id == b;
  }

  ghost predicate Followed(p: Project, deps: seq<AppId>, n: nat, visited: set<AppId>)
    requires n <= |deps|
  {
    forall j :: 0 <= j < n && FindById(p.listing, deps[j]).Some? ==> deps[j] in visited
  }

  lemma FollowedMore(p: Project, deps: seq<AppId>, i: nat, before: set<AppId>, visited: set<AppId>)
    requires i < |deps| && Followed(p, deps, i, before) && before <= visited
    requires FindById(p.listing, deps[i]).Some? ==> deps[i] in visited
    ensures Followed(p, deps, i + 1, visited)
  {}

  lemma EdgesFollowed(p: Project, prereq: App, visited: set<AppId>)
    requires p.AppOf(prereq.id) == Some(prereq) && Followed(p, prereq.dependencies, |prereq.dependencies|, visited)
    ensures forall d :: p.Edge(prereq.id, d) ==> d in visited
  {}

  /** The two variables that the nested `collectDeps` closure shares across its calls. */
  class Collector {
    const project: Project
    var result: seq<App>
    var visited: set<AppId>

    constructor (project: Project)
      ensures this.project == project && result == [] && visited == {}
    {
      this.project := project;
      result, visited := [], {};
    }

    /** `stack` is the chain of apps whose calls are still open: visited, not yet pushed. */
    ghost predicate Valid(stack: seq<AppId>)
      reads this
    {
      && visited <= project.Universe()
      && Distinct(Ids(result)) && Distinct(stack)
      && (forall id :: id in visited <==> id in Ids(result) || id in stack)
      && (forall id :: id in stack ==> id !in Ids(result))
      && (forall a :: a in result ==> project.AppOf(a.id) == Some(a) && project.Reaches(project.main.id, a.id))
      && (forall a, d :: a in result && project.Edge(a.id, d) ==> d in visited)
      && (project.Acyclic() ==> DependenciesFirst(project, result))
    }

    method CollectDeps(prereq: App, ghost stack: seq<AppId>)
      requires Valid(stack)
      requires prereq.id in visited || project.AppOf(prereq.id) == Some(prereq)
      requires project.IsWalk(stack + [prereq.id]) && (stack + [prereq.id])[0] == project.main.id
      requires prereq.id in project.Universe()
      modifies this`result, this`visited
      ensures Valid(stack)
      ensures old(visited) <= visited && prereq.id in visited
      ensures prereq.id !in old(visited) ==> 0 < |result| && result[|result| - 1] == prereq
      decreases project.Universe() - visited, 0
    {
      if prereq.id in visited { return; }
      ghost var before := visited;
      assert prereq.id in project.Universe() - before;
      ghost var open := Open(prereq, stack);
      CollectAll(prereq, open);
      EdgesFollowed(project, prereq, visited);
      Push(prereq, stack);
    }

    /** The dependencies of an app, in the order in which it declares them. */
    method CollectAll(prereq: App, ghost open: seq<AppId>)
      requires Valid(open) && project.AppOf(prereq.id) == Some(prereq)
      requires project.IsWalk(open) && open[0] == project.main.id && open[|open| - 1] == prereq.id
      modifies this`result, this`visited
      ensures Valid(open) && old(visited) <= visited
      ensures Followed(project, prereq.dependencies, |prereq.dependencies|, visited)
      decreases project.Universe() - visited, 2
    {
      var deps := prereq.dependencies;
      for i := 0 to |deps|
        invariant Valid(open) && old(visited) <= visited
        invariant Followed(project, deps, i, visited)
      {
        ghost var before := visited;
        CollectDep(prereq, deps[i], open);
        FollowedMore(project, deps, i, before, visited);
      }
    }

    /** One dependency: followed if it is among the listed prereq apps. */
    method CollectDep(prereq: App, dep: AppId, ghost open: seq<AppId>)
      requires Valid(open) && project.AppOf(prereq.id) == Some(prereq) && dep in prereq.dependencies
      requires project.IsWalk(open) && open[0] == project.main.id && open[|open| - 1] == prereq.id
      modifies this`result, this`visited
      ensures Valid(open) && old(visited) <= visited
      ensures FindById(project.listing, dep).Some? ==> dep in visited
      decreases project.Universe() - visited, 1
    {
      var found := FindById(project.listing, dep);
      if found.Some? {
        assert project.Edge(prereq.id, dep);
        WalkExtends(project, open, dep);
        EdgeInUniverse(project, prereq.id, dep);
        CollectDeps(found.value, open);
      }
    }

    /** Marking an app visited opens its call. */
    method Open(prereq: App, ghost stack: seq<AppId>) returns (ghost open: seq<AppId>)
      requires Valid(stack) && prereq.id !in visited && prereq.id in project.Universe()
      modifies this`visited
      ensures open == stack + [prereq.id]
      ensures Valid(open) && visited == old(visited) + {prereq.id}
    {
      open := stack + [prereq.id];
      visited := visited + {prereq.id};
      forall i, j | 0 <= i < j < |open| ensures open[i] != open[j] {
        if j == |stack| { assert open[i] == stack[i]; assert stack[i] in stack; }
      }
    }

    /** Closing the innermost open call keeps the invariant. */
    method Push(prereq: App, ghost stack: seq<AppId>)
      requires Valid(stack + [prereq.id])
      requires project.AppOf(prereq.id) == Some(prereq)
      requires project.IsWalk(stack + [prereq.id]) && (stack + [prereq.id])[0] == project.main.id
      requires forall d :: project.Edge(prereq.id, d) ==> d in visited
      modifies this`result
      ensures Valid(stack) && result == old(result) + [prereq]
    {
      ghost var open := stack + [prereq.id];
      ghost var was := result;
      result := result + [prereq];
      assert Ids(result) == Ids(was) + [prereq.id];
      assert prereq.id in open;
      assert project.Reaches(project.main.id, prereq.id) by { assert open[|open| - 1] == prereq.id; }
      assert Distinct(stack) by {
        forall i, j | 0 <= i < j < |stack| ensures stack[i] != stack[j] {
          assert open[i] == stack[i] && open[j] == stack[j];
        }
      }
      forall id | id in stack ensures id !in Ids(result) {
        assert id in open;
        var i :| 0 <= i < |stack| && stack[i] == id;
        assert open[i] == id && open[|stack|] == prereq.id;
      }
      if project.Acyclic() {
        forall i, d | 0 <= i < |result| && project.Edge(result[i].id, d) ensures d in Ids(result[..i]) {
          if i < |was| {
            assert result[..i] == was[..i];
          } else {
            assert result[..i] == was;
            if d in open {
              BackEdge(project, open, d);
            }
          }
        }
      }
    }
  }

  /** A set that holds the start of a walk and is closed under edges holds the whole walk. */
  lemma {:induction false} ClosedUnderWalks(p: Project, s: set<AppId>, w: seq<AppId>)
    requires p.IsWalk(w) && w[0] in s
    requires forall a, d :: a in s && p.Edge(a, d) ==> d in s
    ensures w[|w| - 1] in s
    decreases |w|
  {
    if 1 < |w| {
      var v := w[..|w| - 1];
      assert forall i :: 0 <= i < |v| - 1 ==> p.Edge(v[i], v[i + 1]) by {
        forall i | 0 <= i < |v| - 1 ensures p.Edge(v[i], v[i + 1]) {
          assert p.Edge(w[i], w[i + 1]);
        }
      }
      ClosedUnderWalks(p, s, v);
      assert p.Edge(w[|w| - 2], w[|w| - 1]);
    }
  }

  function PositionOf(order: seq<App>, id: AppId): (k: nat)
    requires id in Ids(order)
    ensures k < |order| && order[k].id == id
  {
    if order[0].id == id then 0
    else
      assert Ids(order[1..]) == Ids(order)[1..];
      1 + PositionOf(order[1..], id)
  }

  /** Along a walk through a dependency-first list, positions strictly fall. */
  lemma {:induction false} WalkDescends(p: Project, order: seq<App>, w: seq<AppId>)
    requires Distinct(Ids(order)) && DependenciesFirst(p, order)
    requires p.IsWalk(w) && w[0] in Ids(order)
    ensures forall x :: x in w ==> x in Ids(order)
    ensures forall i :: 0 < i < |w| ==> PositionOf(order, w[i]) < PositionOf(order, w[0])
    decreases |w|
  {
    if 1 < |w| {
      assert p.Edge(w[0], w[1]);
      var k := PositionOf(order, w[0]);
      assert w[1] in Ids(order[..k]);
      var j :| 0 <= j < k && Ids(order[..k])[j] == w[1];
      assert Ids(order)[j] == w[1] == Ids(order)[PositionOf(order, w[1])];
      var v := w[1..];
      assert forall i :: 0 <= i < |v| - 1 ==> p.Edge(v[i], v[i + 1]) by {
        forall i | 0 <= i < |v| - 1 ensures p.Edge(v[i], v[i + 1]) {
          assert p.Edge(w[i + 1], w[i + 2]);
        }
      }
      WalkDescends(p, order, v);
      assert w == [w[0]] + v;
      forall i | 0 < i < |w| ensures PositionOf(order, w[i]) < k {
        assert w[i] == v[i - 1];
      }
    }
  }

  /** A list that puts every dependency first exists only for an acyclic graph. */
  lemma DependenciesFirstMeansAcyclic(p: Project, order: seq<App>)
    requires Distinct(Ids(order)) && DependenciesFirst(p, order) && p.main.id in Ids(order)
    ensures p.Acyclic()
  {
    forall w | p.IsWalk(w) && w[0] == p.main.id ensures Distinct(w) {
      forall i, j | 0 <= i < j < |w| ensures w[i] != w[j] {
        WalkDescends(p, order, w);
        var v := w[i..];
        assert forall k :: 0 <= k < |v| - 1 ==> p.Edge(v[k], v[k + 1]) by {
          forall k | 0 <= k < |v| - 1 ensures p.Edge(v[k], v[k + 1]) {
            assert p.Edge(w[i + k], w[i + k + 1]);
          }
        }
        WalkDescends(p, order, v);
        assert v[j - i] == w[j];
      }
    }
  }

  /** The apps a walk of at least one edge leads to stand strictly before its start. */
  lemma TransitiveDependencyFirst(p: Project, order: seq<App>, k: nat, d: AppId)
    requires DependencyOrder(p, order) && p.Acyclic()
    requires k < |order| && d != order[k].id && p.Reaches(order[k].id, d)
    ensures d in Ids(order[..k])
  {
    var w :| p.IsWalk(w) && w[0] == order[k].id && w[|w| - 1] == d;
    assert Ids(order)[k] == w[0];
    WalkDescends(p, order, w);
    var j := PositionOf(order, d);
    assert Ids(order)[PositionOf(order, w[0])] == Ids(order)[k];
    assert Ids(order[..k])[j] == d;
  }

  /** What was collected and closed under dependencies is what can be reached. */
  lemma ReachedExactly(p: Project, result: seq<App>, visited: set<AppId>)
    requires forall id :: id in visited <==> id in Ids(result)
    requires p.main.id in visited
    requires forall a :: a in result ==> p.Reaches(p.main.id, a.id)
    requires forall a, d :: a in result && p.Edge(a.id, d) ==> d in visited
    ensures forall id :: id in Ids(result) <==> p.Reaches(p.main.id, id)
  {
    forall a, d | a in visited && p.Edge(a, d) ensures d in visited {
      var k :| 0 <= k < |result| && Ids(result)[k] == a;
      assert result[k] in result;
    }
    forall id ensures id in Ids(result) <==> p.Reaches(p.main.id, id) {
      if p.Reaches(p.main.id, id) {
        var w :| p.IsWalk(w) && w[0] == p.main.id && w[|w| - 1] == id;
        ClosedUnderWalks(p, visited, w);
      }
      if id in Ids(result) {
        var k :| 0 <= k < |result| && Ids(result)[k] == id;
        assert result[k] in result;
      }
    }
  }

  method FindAllPrereqApps(main: Option<App>, listing: Listing) returns (result: seq<App>)
    ensures main.None? ==> result == []
    ensures main.Some? ==> DependencyOrder(Project(main.value, listing), result)
  {
    if main.None? { return []; }
    var p := Project(main.value, listing);
    var collector := new Collector(p);
    assert collector.Valid([]);
    assert p.IsWalk([main.value.id]) && [] + [main.value.id] == [main.value.id];
    collector.CollectDeps(main.value, []);
    result := collector.result;
    ReachedExactly(p, result, collector.visited);
    if DependenciesFirst(p, result) { DependenciesFirstMeansAcyclic(p, result); }
  }

  /** What compiling one prereq gave; a success may come without an artifact path. */
  datatype Compile = CompileFailed | Compiled(artifact: Option<string>)

  /** A prereq that compiled to an artifact, ready to publish. */
  datatype Built = Built(app: App, artifact: string)

  datatype CompileResult = PrereqFailed(app: App) | Prereqs(apps: seq<Built>)

  predicate HasArtifact(c: Compile) {
    c.Compiled? && c.artifact.Some? && c.artifact.value != ""
  }

  /** What is published for an app is the file that its compilation produced. */
  predicate IsOutput(b: Built, compile: map<AppId, Compile>) {
    b.app.id in compile && compile[b.app.id] == Compiled(Some(b.artifact)) && b.artifact != ""
  }

  /** The apps of a list that compiled to an artifact, in list order. */
  function Publishable(order: seq<App>, compile: map<AppId, Compile>): (r: seq<Built>)
    requires forall a :: a in order ==> a.id in compile
  {
    if order == [] then []
    else
      var last := order[|order| - 1];
      var before := Publishable(order[..|order| - 1], compile);
      if HasArtifact(compile[last.id]) then before + [Built(last, compile[last.id].artifact.value)] else before
  }

  /** The compile loop stops at the first failure and otherwise keeps what has an artifact. */
  method CompilePrereqs(order: seq<App>, compile: map<AppId, Compile>) returns (r: CompileResult)
    requires forall a :: a in order ==> a.id in compile
    ensures r.Prereqs? ==> r.apps == Publishable(order, compile)
    ensures r.Prereqs? ==> forall b :: b in r.apps ==> IsOutput(b, compile)
    ensures r.Prereqs? <==> forall a :: a in order ==> compile[a.id].Compiled?
    ensures r.PrereqFailed? ==> exists k :: 0 <= k < |order| && order[k] == r.app && compile[r.app.id].CompileFailed?
                                            && forall j :: 0 <= j < k ==> compile[order[j].id].Compiled?
  {
    var apps: seq<Built> := [];
    for i := 0 to |order|
      invariant apps == Publishable(order[..i], compile)
      invariant forall j :: 0 <= j < i ==> compile[order[j].id].Compiled?
    {
      var outcome := compile[order[i].id];
      if outcome.CompileFailed? { return PrereqFailed(order[i]); }
      assert order[..i + 1][..i] == order[..i];
      if outcome.artifact.Some? && outcome.artifact.value != "" {
        apps := apps + [Built(order[i], outcome.artifact.value)];
      }
    }
    assert order[..|order|] == order;
    OutputsKept(order, compile);
    return Prereqs(apps);
  }

  lemma {:induction false} OutputsKept(order: seq<App>, compile: map<AppId, Compile>)
    requires forall a :: a in order ==> a.id in compile
    ensures forall b :: b in Publishable(order, compile) ==> b.app in order && IsOutput(b, compile)
    decreases |order|
  {
    if order != [] { OutputsKept(order[..|order| - 1], compile); }
  }

  /** The place in the search result that an entry of the publish list came from. */
  lemma {:induction false} PublishableOrigin(order: seq<App>, compile: map<AppId, Compile>, k: nat) returns (i: nat)
    requires forall a :: a in order ==> a.id in compile
    requires k < |Publishable(order, compile)|
    ensures i < |order| && order[i] == Publishable(order, compile)[k].app && HasArtifact(compile[order[i].id])
    ensures |Publishable(order[..i], compile)| == k
    ensures Publishable(order[..i], compile) == Publishable(order, compile)[..k]
    decreases |order|
  {
    var n := |order| - 1;
    var before := order[..n];
    if k < |Publishable(before, compile)| {
      i := PublishableOrigin(before, compile, k);
      assert before[..i] == order[..i];
    } else {
      i := n;
    }
  }

  lemma ArtifactsKept(order: seq<App>, compile: map<AppId, Compile>, d: AppId)
    requires forall a :: a in order ==> a.id in compile
    requires d in Ids(order)
    ensures d in compile && (HasArtifact(compile[d]) <==> d in BuiltIds(Publishable(order, compile)))
  {
    var j :| 0 <= j < |order| && Ids(order)[j] == d;
    assert order[j] in order;
    if HasArtifact(compile[d]) { EveryArtifactKept(order, compile, j); }
    if d in BuiltIds(Publishable(order, compile)) {
      var m :| 0 <= m < |Publishable(order, compile)| && BuiltIds(Publishable(order, compile))[m] == d;
      var _ := PublishableOrigin(order, compile, m);
    }
  }

  /** Dropping the apps without an artifact keeps the order: whatever stands before an app in
      the search result stands before it in the publish list exactly when it has an artifact. */
  lemma PublishableKeepsOrder(order: seq<App>, compile: map<AppId, Compile>, k: nat, i: nat, d: AppId)
    requires forall a :: a in order ==> a.id in compile
    requires Distinct(Ids(order)) && k < |Publishable(order, compile)|
    requires i < |order| && order[i] == Publishable(order, compile)[k].app && d in Ids(order[..i])
    ensures d in compile
    ensures HasArtifact(compile[d]) <==> d in BuiltIds(Publishable(order, compile)[..k])
  {
    var i' := PublishableOrigin(order, compile, k);
    assert Ids(order)[i] == Ids(order)[i'];
    ArtifactsKept(order[..i], compile, d);
  }

  function BuiltIds(apps: seq<Built>): (r: seq<AppId>)
    ensures |r| == |apps| && forall i :: 0 <= i < |r| ==> r[i] == apps[i].app.id
  {
    seq(|apps|, i requires 0 <= i < |apps| => apps[i].app.id)
  }

  lemma {:induction false} EveryArtifactKept(order: seq<App>, compile: map<AppId, Compile>, j: nat)
    requires forall a :: a in order ==> a.id in compile
    requires j < |order| && HasArtifact(compile[order[j].id])
    ensures order[j].id in BuiltIds(Publishable(order, compile))
    decreases |order|
  {
    var n := |order| - 1;
    var apps := Publishable(order, compile);
    if j == n {
      assert BuiltIds(apps)[|apps| - 1] == order[n].id;
    } else {
      EveryArtifactKept(order[..n], compile, j);
      var appsBefore := Publishable(order[..n], compile);
      var m :| 0 <= m < |appsBefore| && BuiltIds(appsBefore)[m] == order[j].id;
      assert BuiltIds(apps)[m] == order[j].id;
    }
  }
}
