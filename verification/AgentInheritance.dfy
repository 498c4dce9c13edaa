/** `resolveAgentInheritance` of `src/agents/loader.ts`: following `extends` and merging the
    configurations along the way. */
module AgentInheritance {
  import opened Wrappers

  type Table = map<string, string>

  /** An agent configuration; `fields` holds the properties that a child simply overrides. */
  datatype Config = Config(parentName: Option<string>, fields: Table, mcpServers: Option<Table>, limits: Option<Table>,
                           allowedTools: Option<seq<string>>, plugins: Option<seq<string>>,
                           settingSources: Option<seq<string>>)
  {
    function Parent(): Option<string> {
      if parentName == Some("") then None else parentName
    }
  }

  type Configs = map<string, Config>

  datatype ResolvedConfig = ResolvedConfig(fields: Table, mcpServers: Option<Table>, limits: Option<Table>,
                                           allowedTools: Option<seq<string>>, plugins: Option<seq<string>>,
                                           settingSources: Option<seq<string>>, chain: seq<string>)

  datatype Outcome = Resolved(config: ResolvedConfig) | NotFound(id: string) | Circular(chain: seq<string>)

  // ---------- Following `extends` ----------

  /** The configuration names this parent; an empty name is none. */
  ghost predicate Extends(c: Config, parent: string) {
    c.parentName == Some(parent) && parent != ""
  }

  ghost predicate IsRoot(c: Config) {
    c.parentName == None || c.parentName == Some("")
  }

  /** A path of existing configurations from an agent upwards. */
  ghost predicate IsLineage(cs: Configs, id: string, path: seq<string>) {
    && path != [] && path[0] == id
    && (forall x :: x in path ==> x in cs)
    && (forall i :: 0 <= i < |path| - 1 ==> Extends(cs[path[i]], path[i + 1]))
  }

  function ParentOfLast(cs: Configs, path: seq<string>): Option<string>
    requires path != [] && path[|path| - 1] in cs
  {
    cs[path[|path| - 1]].Parent()
  }

  ghost predicate EndsAtRoot(cs: Configs, id: string, path: seq<string>) {
    IsLineage(cs, id, path) && IsRoot(cs[path[|path| - 1]])
  }

  /** The chain leads to a name without a configuration; `path` is empty if the agent has none. */
  ghost predicate LeavesMap(cs: Configs, id: string, path: seq<string>, missing: string) {
    && missing !in cs
    && if path == [] then missing == id else IsLineage(cs, id, path) && Extends(cs[path[|path| - 1]], missing)
  }

  ghost predicate Revisits(cs: Configs, id: string, path: seq<string>, again: string) {
    IsLineage(cs, id, path) && Extends(cs[path[|path| - 1]], again) && again in path
  }

  lemma {:induction false} LineagesAgree(cs: Configs, id: string, p: seq<string>, q: seq<string>)
    requires IsLineage(cs, id, p) && IsLineage(cs, id, q) && |p| <= |q|
    ensures p == q[..|p|]
    decreases |p|
  {
    if 1 < |p| {
      var p', n := p[..|p| - 1], |p| - 1;
      LineagePrefix(cs, id, p, n);
      LineagesAgree(cs, id, p', q);
      assert p'[n - 1] == q[n - 1];
      assert Extends(cs[p[n - 1]], p[n]) && Extends(cs[q[n - 1]], q[n]);
      assert p == p' + [p[n]];
    }
  }

  lemma LineagePrefix(cs: Configs, id: string, p: seq<string>, n: nat)
    requires IsLineage(cs, id, p) && 0 < n <= |p|
    ensures IsLineage(cs, id, p[..n])
  {}

  /** Once a lineage can revisit, every lineage stays inside it. */
  lemma {:induction false} LoopHolds(cs: Configs, id: string, p: seq<string>, again: string, q: seq<string>)
    requires Revisits(cs, id, p, again) && IsLineage(cs, id, q)
    ensures q[|q| - 1] in p
    decreases |q|
  {
    if 1 < |q| {
      LineagePrefix(cs, id, q, |q| - 1);
      LoopHolds(cs, id, p, again, q[..|q| - 1]);
      var i :| 0 <= i < |p| && p[i] == q[|q| - 2];
      assert Extends(cs[q[|q| - 2]], q[|q| - 1]);
      if i < |p| - 1 { assert Extends(cs[p[i]], p[i + 1]); }
    }
  }

  /** The three ways a chain can go exclude each other. */
  lemma OutcomesExclusive(cs: Configs, id: string, p: seq<string>, q: seq<string>, x: string)
    ensures !(EndsAtRoot(cs, id, p) && LeavesMap(cs, id, q, x))
    ensures !(EndsAtRoot(cs, id, p) && Revisits(cs, id, q, x))
  {
    if EndsAtRoot(cs, id, p) && LeavesMap(cs, id, q, x) && q != [] { StopsOnce(cs, id, p, q); }
    if EndsAtRoot(cs, id, p) && Revisits(cs, id, q, x) {
      LoopHolds(cs, id, q, x, p);
      LoopHasParents(cs, id, q, x, p[|p| - 1]);
    }
  }

  lemma LeavingIsNoLoop(cs: Configs, id: string, p: seq<string>, x: string, q: seq<string>, y: string)
    ensures !(LeavesMap(cs, id, p, x) && Revisits(cs, id, q, y))
  {
    if LeavesMap(cs, id, p, x) && Revisits(cs, id, q, y) && p != [] {
      LoopHolds(cs, id, q, y, p);
      LoopHasParents(cs, id, q, y, p[|p| - 1]);
    }
  }

  lemma LoopHasParents(cs: Configs, id: string, p: seq<string>, again: string, x: string)
    requires Revisits(cs, id, p, again) && x in p
    ensures cs[x].Parent().Some? && cs[x].Parent().value in cs
  {
    var i :| 0 <= i < |p| && p[i] == x;
    if i < |p| - 1 { assert Extends(cs[p[i]], p[i + 1]) && p[i + 1] in p; }
  }

  /** Two lineages that cannot be continued inside the map are the same. */
  lemma StopsOnce(cs: Configs, id: string, p: seq<string>, q: seq<string>)
    requires IsLineage(cs, id, p) && IsLineage(cs, id, q)
    requires ParentOfLast(cs, p).Some? ==> ParentOfLast(cs, p).value !in cs
    requires ParentOfLast(cs, q).Some? ==> ParentOfLast(cs, q).value !in cs
    ensures p == q
  {
    if |p| <= |q| {
      LineagesAgree(cs, id, p, q);
      if |p| < |q| { GoesOn(cs, id, q, |p|); }
    } else {
      LineagesAgree(cs, id, q, p);
      GoesOn(cs, id, p, |q|);
    }
  }

  lemma GoesOn(cs: Configs, id: string, p: seq<string>, n: nat)
    requires IsLineage(cs, id, p) && 0 < n < |p|
    ensures IsLineage(cs, id, p[..n])
    ensures ParentOfLast(cs, p[..n]).Some? && ParentOfLast(cs, p[..n]).value in cs
  {
    assert Extends(cs[p[n - 1]], p[n]) && p[n] in p;
  }

  // ---------- Merging ----------

  /** `t` has every entry of the tables, taken from the first table that has it. */
  ghost predicate NearestEntries(tables: seq<Table>, t: Table) {
    && (forall k :: k in t ==> exists i :: 0 <= i < |tables| && FirstWith(tables, i, k) && tables[i][k] == t[k])
    && (forall i, k :: 0 <= i < |tables| && k in tables[i] ==> k in t)
  }

  ghost predicate FirstWith(tables: seq<Table>, i: nat, k: string)
    requires i < |tables|
  {
    k in tables[i] && forall j :: 0 <= j < i ==> k !in tables[j]
  }

  ghost predicate NearestChoice<T>(choices: seq<Option<T>>, r: Option<T>) {
    && (r.None? ==> forall i :: 0 <= i < |choices| ==> choices[i].None?)
    && (r.Some? ==> exists i :: 0 <= i < |choices| && choices[i] == r && forall j :: 0 <= j < i ==> choices[j].None?)
  }

  function OrEmpty(t: Option<Table>): Table {
    if t.Some? then t.value else map[]
  }

  function Choose<T>(child: Option<T>, parent: Option<T>): Option<T> {
    if child.Some? then child else parent
  }

  lemma NearestEntriesStep(child: Table, tables: seq<Table>, t: Table)
    requires NearestEntries(tables, t)
    ensures NearestEntries([child] + tables, t + child)
  {
    var all := [child] + tables;
    forall k | k in t + child
      ensures exists i :: 0 <= i < |all| && FirstWith(all, i, k) && all[i][k] == (t + child)[k]
    {
      if k in child {
        assert FirstWith(all, 0, k);
      } else {
        var i :| 0 <= i < |tables| && FirstWith(tables, i, k) && tables[i][k] == t[k];
        assert FirstWith(all, i + 1, k);
      }
    }
  }

  lemma NearestChoiceStep<T>(child: Option<T>, choices: seq<Option<T>>, r: Option<T>)
    requires NearestChoice(choices, r)
    ensures NearestChoice([child] + choices, Choose(child, r))
  {
    var all := [child] + choices;
    if child.Some? {
      assert all[0] == child;
    } else if r.Some? {
      var i :| 0 <= i < |choices| && choices[i] == r && forall j :: 0 <= j < i ==> choices[j].None?;
      assert all[i + 1] == r;
    }
  }

  /** One property of the configurations along a path. */
  ghost function Along<T>(cs: Configs, path: seq<string>, get: Config -> T): (r: seq<T>)
    requires forall x :: x in path ==> x in cs
    ensures |r| == |path| && forall i :: 0 <= i < |path| ==> r[i] == get(cs[path[i]])
  {
    seq(|path|, i requires 0 <= i < |path| => get(cs[path[i]]))
  }

  lemma AlongCons<T>(cs: Configs, id: string, path: seq<string>, get: Config -> T)
    requires id in cs && forall x :: x in path ==> x in cs
    ensures forall x :: x in [id] + path ==> x in cs
    ensures Along(cs, [id] + path, get) == [get(cs[id])] + Along(cs, path, get)
  {}

  function Fields(c: Config): Table { c.fields }
  function Servers(c: Config): Table { OrEmpty(c.mcpServers) }
  function Limits(c: Config): Table { OrEmpty(c.limits) }
  function Tools(c: Config): Option<seq<string>> { c.allowedTools }
  function Plugins(c: Config): Option<seq<string>> { c.plugins }
  function Sources(c: Config): Option<seq<string>> { c.settingSources }

  function Reversed(path: seq<string>): (r: seq<string>)
    ensures |r| == |path| && forall i :: 0 <= i < |path| ==> r[i] == path[|path| - 1 - i]
  {
    seq(|path|, i requires 0 <= i < |path| => path[|path| - 1 - i])
  }

  /** What the resolved configuration owes to the configurations on the path from the agent to the
      root. A root without parents is returned as it is. */
  ghost predicate Inherits(cs: Configs, path: seq<string>, r: ResolvedConfig)
    requires path != [] && forall x :: x in path ==> x in cs
  {
    && r.chain == Reversed(path)
    && NearestEntries(Along(cs, path, Fields), r.fields)
    && NearestEntries(Along(cs, path, Servers), OrEmpty(r.mcpServers))
    && NearestEntries(Along(cs, path, Limits), OrEmpty(r.limits))
    && NearestChoice(Along(cs, path, Tools), r.allowedTools)
    && NearestChoice(Along(cs, path, Plugins), r.plugins)
    && SourcesInherited(Along(cs, path, Sources), r.settingSources)
    && (|path| == 1 ==> r.mcpServers == cs[path[0]].mcpServers && r.limits == cs[path[0]].limits)
    && (|path| > 1 ==> r.mcpServers.Some? && r.limits.Some?)
  }

  /** The nearest definition; a child without one gets the project sources. */
  ghost predicate SourcesInherited(choices: seq<Option<seq<string>>>, r: Option<seq<string>>) {
    || (NearestChoice(choices, r) && (|choices| > 1 ==> r.Some?))
    || (NearestChoice(choices, None) && |choices| > 1 && r == Some(["project"]))
  }

  function Base(c: Config, id: string): ResolvedConfig {
    ResolvedConfig(c.fields, c.mcpServers, c.limits, c.allowedTools, c.plugins, c.settingSources, [id])
  }

  function Merge(c: Config, p: ResolvedConfig, id: string): ResolvedConfig {
    ResolvedConfig(p.fields + c.fields,
                   Some(OrEmpty(p.mcpServers) + OrEmpty(c.mcpServers)),
                   Some(OrEmpty(p.limits) + OrEmpty(c.limits)),
                   Choose(c.allowedTools, p.allowedTools),
                   Choose(c.plugins, p.plugins),
                   Choose(Choose(c.settingSources, p.settingSources), Some(["project"])),
                   p.chain + [id])
  }

  lemma BaseInherits(cs: Configs, id: string)
    requires id in cs
    ensures Inherits(cs, [id], Base(cs[id], id))
  {
    forall t: Table ensures NearestEntries([t], t) {
      forall k | k in t ensures exists i :: 0 <= i < |[t]| && FirstWith([t], i, k) && [t][i][k] == t[k] {
        assert FirstWith([t], 0, k);
      }
    }
    forall o: Option<seq<string>> ensures NearestChoice([o], o) {
      assert [o][0] == o;
    }
    assert Along(cs, [id], Fields) == [cs[id].fields];
    assert Along(cs, [id], Servers) == [OrEmpty(cs[id].mcpServers)];
    assert Along(cs, [id], Limits) == [OrEmpty(cs[id].limits)];
    assert Along(cs, [id], Tools) == [cs[id].allowedTools];
    assert Along(cs, [id], Plugins) == [cs[id].plugins];
    assert Along(cs, [id], Sources) == [cs[id].settingSources];
  }

  /** Merging a child into what its parent resolved to gives what the child owes to its own path. */
  lemma MergeInherits(cs: Configs, id: string, path: seq<string>, p: ResolvedConfig)
    requires id in cs && path != [] && (forall x :: x in path ==> x in cs) && Inherits(cs, path, p)
    ensures forall x :: x in [id] + path ==> x in cs
    ensures Inherits(cs, [id] + path, Merge(cs[id], p, id))
  {
    var c := cs[id];
    AlongCons(cs, id, path, Fields);
    AlongCons(cs, id, path, Servers);
    AlongCons(cs, id, path, Limits);
    AlongCons(cs, id, path, Tools);
    AlongCons(cs, id, path, Plugins);
    AlongCons(cs, id, path, Sources);
    NearestEntriesStep(c.fields, Along(cs, path, Fields), p.fields);
    NearestEntriesStep(OrEmpty(c.mcpServers), Along(cs, path, Servers), OrEmpty(p.mcpServers));
    NearestEntriesStep(OrEmpty(c.limits), Along(cs, path, Limits), OrEmpty(p.limits));
    NearestChoiceStep(c.allowedTools, Along(cs, path, Tools), p.allowedTools);
    NearestChoiceStep(c.plugins, Along(cs, path, Plugins), p.plugins);
    SourcesStep(c.settingSources, Along(cs, path, Sources), p.settingSources);
    assert Reversed([id] + path) == Reversed(path) + [id];
  }

  lemma SourcesStep(child: Option<seq<string>>, choices: seq<Option<seq<string>>>, r: Option<seq<string>>)
    requires choices != [] && SourcesInherited(choices, r)
    ensures SourcesInherited([child] + choices, Choose(Choose(child, r), Some(["project"])))
  {
    if NearestChoice(choices, r) {
      NearestChoiceStep(child, choices, r);
    } else {
      NearestChoiceStep(child, choices, None);
    }
  }

  // ---------- The resolver ----------

  /** The set of names that the recursion shares, in insertion order. */
  class Visited {
    var names: seq<string>

    constructor ()
      ensures names == []
    {
      names := [];
    }
  }

  function Elements(s: seq<string>): set<string> {
    set x | x in s
  }

  /** How a call ended, given the path it walked and the names visited before it. */
  ghost predicate Ended(cs: Configs, id: string, before: seq<string>, path: seq<string>, r: Outcome) {
    && (forall x :: x in path ==> x !in before)
    && match r
       case Resolved(config) => EndsAtRoot(cs, id, path) && Inherits(cs, path, config)
       case NotFound(x) => LeavesMap(cs, id, path, x)
       case Circular(chain) =>
         && chain != [] && chain == before + path + [chain[|chain| - 1]]
         && chain[|chain| - 1] in before + path && chain[|chain| - 1] in cs
         && if path == [] then chain[|chain| - 1] == id
            else IsLineage(cs, id, path) && Extends(cs[path[|path| - 1]], chain[|chain| - 1])
  }

  method ResolveFrom(id: string, cs: Configs, visited: Visited) returns (r: Outcome, ghost path: seq<string>)
    modifies visited
    ensures Ended(cs, id, old(visited.names), path, r)
    ensures visited.names == old(visited.names) + path
    decreases cs.Keys - Elements(visited.names)
  {
    path := [];
    if id !in cs { return NotFound(id), []; }
    if id in visited.names { return Circular(visited.names + [id]), []; }
    ghost var before := visited.names;
    visited.names := visited.names + [id];
    assert id in cs.Keys - Elements(before) && id in Elements(visited.names);
    var config := cs[id];
    if config.Parent().None? {
      BaseEnds(cs, id, before);
      return Resolved(Base(config, id)), [id];
    }
    ghost var above;
    r, above := ResolveFrom(config.Parent().value, cs, visited);
    path := [id] + above;
    PathExtends(cs, id, above, before, r);
    if r.Resolved? {
      MergeEnds(cs, id, above, before, r.config);
      r := Resolved(Merge(config, r.config, id));
    }
  }

  lemma BaseEnds(cs: Configs, id: string, before: seq<string>)
    requires id in cs && id !in before && cs[id].Parent().None?
    ensures Ended(cs, id, before, [id], Resolved(Base(cs[id], id)))
  {
    BaseInherits(cs, id);
  }

  lemma MergeEnds(cs: Configs, id: string, above: seq<string>, before: seq<string>, p: ResolvedConfig)
    requires id in cs && above != [] && (forall x :: x in above ==> x in cs) && Inherits(cs, above, p)
    requires (forall x :: x in [id] + above ==> x !in before) && EndsAtRoot(cs, id, [id] + above)
    ensures Ended(cs, id, before, [id] + above, Resolved(Merge(cs[id], p, id)))
  {
    MergeInherits(cs, id, above, p);
  }

  /** A chain from the parent, with the agent before it. */
  lemma LineageExtends(cs: Configs, id: string, above: seq<string>)
    requires id in cs && cs[id].Parent().Some? && IsLineage(cs, cs[id].Parent().value, above)
    ensures IsLineage(cs, id, [id] + above) && ParentOfLast(cs, [id] + above) == ParentOfLast(cs, above)
  {
    var path := [id] + above;
    forall i | 0 <= i < |path| - 1 ensures path[i] in cs && Extends(cs[path[i]], path[i + 1]) {
      if i > 0 { assert path[i] == above[i - 1] && path[i + 1] == above[i] && above[i - 1] in above; }
    }
  }

  lemma LeavingExtends(cs: Configs, id: string, above: seq<string>, missing: string)
    requires id in cs && cs[id].Parent().Some? && LeavesMap(cs, cs[id].Parent().value, above, missing)
    ensures LeavesMap(cs, id, [id] + above, missing)
  {
    if above != [] { LineageExtends(cs, id, above); }
  }

  lemma LoopExtends(cs: Configs, id: string, above: seq<string>, before: seq<string>, chain: seq<string>)
    requires id in cs && id !in before && cs[id].Parent().Some?
    requires Ended(cs, cs[id].Parent().value, before + [id], above, Circular(chain))
    ensures Ended(cs, id, before, [id] + above, Circular(chain))
  {
    assert before + ([id] + above) == before + [id] + above;
    if above != [] { LineageExtends(cs, id, above); }
  }

  lemma PathExtends(cs: Configs, id: string, above: seq<string>, before: seq<string>, r: Outcome)
    requires id in cs && id !in before && cs[id].Parent().Some?
    requires Ended(cs, cs[id].Parent().value, before + [id], above, r)
    ensures forall x :: x in [id] + above ==> x !in before
    ensures r.Resolved? ==> EndsAtRoot(cs, id, [id] + above)
    ensures !r.Resolved? ==> Ended(cs, id, before, [id] + above, r)
  {
    match r
    case Resolved(_) => LineageExtends(cs, id, above);
    case NotFound(missing) => LeavingExtends(cs, id, above, missing);
    case Circular(chain) => LoopExtends(cs, id, above, before, chain);
  }

  /** The public entry: it always ends, succeeds exactly when the chain reaches a configuration
      without a parent, fails as not found exactly when it leaves the map, and as circular exactly
      when it revisits. The result owes everything to the duplicate-free path it reports. */
  method ResolveAgentInheritance(id: string, cs: Configs) returns (r: Outcome)
    ensures r.Resolved? <==> exists path :: EndsAtRoot(cs, id, path)
    ensures r.NotFound? <==> exists path, x :: LeavesMap(cs, id, path, x)
    ensures r.Circular? <==> exists path, x :: Revisits(cs, id, path, x)
    ensures r.Resolved? ==> exists path :: EndsAtRoot(cs, id, path) && Inherits(cs, path, r.config)
    ensures r.NotFound? ==> exists path :: LeavesMap(cs, id, path, r.id)
    ensures r.Circular? ==> exists path, x :: Revisits(cs, id, path, x) && r.chain == path + [x]
  {
    var visited := new Visited();
    ghost var path;
    r, path := ResolveFrom(id, cs, visited);
    OutcomeExact(cs, id, path, r);
  }

  lemma OutcomeExact(cs: Configs, id: string, path: seq<string>, r: Outcome)
    requires Ended(cs, id, [], path, r)
    ensures r.Resolved? <==> exists path :: EndsAtRoot(cs, id, path)
    ensures r.NotFound? <==> exists path, x :: LeavesMap(cs, id, path, x)
    ensures r.Circular? <==> exists path, x :: Revisits(cs, id, path, x)
    ensures r.Circular? ==> Revisits(cs, id, path, r.chain[|r.chain| - 1]) && r.chain == path + [r.chain[|r.chain| - 1]]
  {
    match r
    case Resolved(_) =>
      forall q, x ensures !LeavesMap(cs, id, q, x) && !Revisits(cs, id, q, x) { OutcomesExclusive(cs, id, path, q, x); }
    case NotFound(x) =>
      forall q ensures !EndsAtRoot(cs, id, q) { OutcomesExclusive(cs, id, q, path, x); }
      forall q, y ensures !Revisits(cs, id, q, y) { LeavingIsNoLoop(cs, id, path, x, q, y); }
    case Circular(chain) =>
      assert [] + path == path;
      var y := chain[|chain| - 1];
      assert Revisits(cs, id, path, y);
      forall q ensures !EndsAtRoot(cs, id, q) { OutcomesExclusive(cs, id, q, path, y); }
      forall q, x ensures !LeavesMap(cs, id, q, x) { LeavingIsNoLoop(cs, id, q, x, path, y); }
  }

  /** A path to the root never meets a configuration twice. */
  lemma RootPathDistinct(cs: Configs, id: string, path: seq<string>, i: nat, j: nat)
    requires EndsAtRoot(cs, id, path) && i < j < |path|
    ensures path[i] != path[j]
  {
    if path[i] == path[j] {
      GoesOn(cs, id, path, j);
      assert path[..j][i] == path[j];
      assert Extends(cs[path[j - 1]], path[j]);
      assert Revisits(cs, id, path[..j], path[j]);
      OutcomesExclusive(cs, id, path, path[..j], path[j]);
    }
  }
}
