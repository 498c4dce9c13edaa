/** Concurrent verify calls that share the two prereq caches of `mcp/al-tools-server.ts`.
    One step is one stretch of code that runs without an `await`. */
module PublishProtocol {
  import opened Wrappers
  import opened PrereqSearch
  import opened Separators

  type Container = string

  datatype Job = Job(task: string, prereqDir: Option<string>) {
    /** An empty directory string counts as no directory. */
    function ExplicitDir(): Option<string> {
      if prereqDir == Some("") then None else prereqDir
    }

    function PlanKey(): string {
      if ExplicitDir().Some? then task + "|" + ExplicitDir().value else task
    }
  }

  function CacheKey(container: Container, id: AppId): string {
    container + ":" + id
  }

  /** What resolving and compiling the prereqs of a job produced. */
  datatype Plan = Plan(job: Job, project: Option<Project>, order: seq<App>,
                       compile: map<AppId, Compile>, apps: seq<Built>)
  {
    ghost predicate Searched() {
      && (project.None? ==> order == [])
      && (project.Some? ==> DependencyOrder(project.value, order))
    }

    ghost predicate Resolved() {
      && Searched()
      && (forall a :: a in order ==> a.id in compile && compile[a.id].Compiled?)
      && apps == Publishable(order, compile)
    }

    /** Also, no app id has the separator of the cache keys. */
    ghost predicate Valid() {
      Resolved() && forall a :: a in order ==> ':' !in a.id
    }
  }

  /** `Handled` is a rejected promise whose rejection handler has run. */
  datatype Status = Pending | Done | Rejected | Handled

  /** A publish promise; `epoch` counts the cache clears before its creation. */
  datatype Promise = Promise(container: Container, app: Built, status: Status, epoch: nat) {
    predicate InFlight() {
      status == Pending || status == Rejected
    }
    function Target(): (Container, AppId) {
      (container, app.app.id)
    }
    function Key(): string {
      CacheKey(container, app.app.id)
    }
  }

  datatype Phase =
    | Resolving
    | Publishing(plan: Plan, next: nat)
    | Awaiting(plan: Plan, next: nat, promise: nat)
    | Succeeded
    | Aborted
  {
    predicate HasPlan() { Publishing? || Awaiting? }
  }

  datatype Call = Call(container: Container, job: Job, phase: Phase)

  datatype State = State(
    calls: seq<Call>,
    promises: seq<Promise>,
    publishedCache: map<string, nat>,
    planCache: map<string, Plan>,
    published: set<(Container, AppId)>,
    epoch: nat)

  datatype Step =
    | Arrive(container: Container, job: Job)
    | Resolve(call: nat, plan: Plan)
    | Abort(call: nat)
    | Advance(call: nat)
    | Settle(promise: nat, ok: bool)
    | HandleRejection(promise: nat)
    | Resume(call: nat)
    | Clear

  const INIT := State([], [], map[], map[], {}, 0)

  ghost predicate Enabled(s: State, step: Step) {
    match step
    case Arrive(_, job) => '|' !in job.task
    case Resolve(c, plan) =>
      c < |s.calls| && s.calls[c].phase.Resolving? && plan.Valid() && plan.job == s.calls[c].job
    case Abort(c) =>
      c < |s.calls| && (s.calls[c].phase.Resolving? || (s.calls[c].phase.Publishing? && s.calls[c].phase.next == 0))
    case Advance(c) => c < |s.calls| && s.calls[c].phase.Publishing?
    case Settle(p, _) => p < |s.promises| && s.promises[p].status == Pending
    case HandleRejection(p) => p < |s.promises| && s.promises[p].status == Rejected
    case Resume(c) =>
      // The rejection handler is registered before the first await, so it runs first.
      && c < |s.calls| && s.calls[c].phase.Awaiting?
      && s.calls[c].phase.promise < |s.promises| && !s.promises[s.calls[c].phase.promise].InFlight()
    case Clear => true
  }

  function DoArrive(s: State, container: Container, job: Job): State {
    var key := job.PlanKey();
    var phase := if key in s.planCache then Publishing(s.planCache[key], 0) else Resolving;
    s.(calls := s.calls + [Call(container, job, phase)])
  }

  function WithPhase(s: State, c: nat, phase: Phase): State
    requires c < |s.calls|
  {
    s.(calls := s.calls[c := s.calls[c].(phase := phase)])
  }

  function DoResolve(s: State, c: nat, plan: Plan): State
    requires c < |s.calls|
  {
    var t := WithPhase(s, c, Publishing(plan, 0));
    if plan.apps == [] then t
    else t.(planCache := s.planCache[s.calls[c].job.PlanKey() := plan])
  }

  /** The call finds the next app's promise in the cache, or starts the publish. */
  function DoAdvance(s: State, c: nat): State
    requires c < |s.calls| && s.calls[c].phase.Publishing?
  {
    var Publishing(plan, next) := s.calls[c].phase;
    if next >= |plan.apps| then WithPhase(s, c, Succeeded)
    else
      var key := CacheKey(s.calls[c].container, plan.apps[next].app.id);
      if key in s.publishedCache then WithPhase(s, c, Awaiting(plan, next, s.publishedCache[key]))
      else
        var p := |s.promises|;
        WithPhase(s, c, Awaiting(plan, next, p)).(
          promises := s.promises + [Promise(s.calls[c].container, plan.apps[next], Pending, s.epoch)],
          publishedCache := s.publishedCache[key := p])
  }

  /** `c` is about to call `publishApp` for its next app. */
  predicate StartsPublish(s: State, c: nat) {
    && c < |s.calls| && s.calls[c].phase.Publishing?
    && s.calls[c].phase.next < |s.calls[c].phase.plan.apps|
    && CacheKey(s.calls[c].container, s.calls[c].phase.plan.apps[s.calls[c].phase.next].app.id) !in s.publishedCache
  }

  function DoSettle(s: State, p: nat, ok: bool): State
    requires p < |s.promises|
  {
    var promise := s.promises[p];
    s.(promises := s.promises[p := promise.(status := if ok then Done else Rejected)],
       published := if ok then s.published + {promise.Target()} else s.published)
  }

  /** The handler deletes the key, whatever promise the key holds by then. */
  function DoHandleRejection(s: State, p: nat): State
    requires p < |s.promises|
  {
    s.(promises := s.promises[p := s.promises[p].(status := Handled)],
       publishedCache := s.publishedCache - {s.promises[p].Key()})
  }

  function DoResume(s: State, c: nat): State
    requires c < |s.calls| && s.calls[c].phase.Awaiting? && s.calls[c].phase.promise < |s.promises|
  {
    var Awaiting(plan, next, p) := s.calls[c].phase;
    WithPhase(s, c, if s.promises[p].status == Done then Publishing(plan, next + 1) else Aborted)
  }

  function DoClear(s: State): State {
    s.(publishedCache := map[], planCache := map[], epoch := s.epoch + 1)
  }

  /** A step that is not enabled leaves the state alone, so every list of steps is a run. */
  ghost function Apply(s: State, step: Step): State {
    if !Enabled(s, step) then s
    else
      match step
      case Arrive(container, job) => DoArrive(s, container, job)
      case Resolve(c, plan) => DoResolve(s, c, plan)
      case Abort(c) => WithPhase(s, c, Aborted)
      case Advance(c) => DoAdvance(s, c)
      case Settle(p, ok) => DoSettle(s, p, ok)
      case HandleRejection(p) => DoHandleRejection(s, p)
      case Resume(c) => DoResume(s, c)
      case Clear => DoClear(s)
  }

  ghost function After(steps: seq<Step>): State {
    if steps == [] then INIT else Apply(After(steps[..|steps| - 1]), steps[|steps| - 1])
  }

  // ---------- The prereq cache ----------

  /** The key is the task id, joined by a bar with the prereq directory if one is given that is not empty. */
  lemma PlanKeyExactly(task: string, dir: string)
    ensures Job(task, None).PlanKey() == task == Job(task, Some("")).PlanKey()
    ensures dir != "" ==> Job(task, Some(dir)).PlanKey() == task + "|" + dir
  {}

  /** A plan with apps is remembered under the key of its job and no other; one without is not. */
  lemma PlanRemembered(s: State, c: nat, plan: Plan, key: string)
    requires Enabled(s, Resolve(c, plan))
    ensures
      var t := Apply(s, Resolve(c, plan));
      && t.calls[c] == s.calls[c].(phase := Publishing(plan, 0)) && t.publishedCache == s.publishedCache
      && (key in t.planCache <==> key in s.planCache || (plan.apps != [] && key == plan.job.PlanKey()))
      && (key in t.planCache ==>
            t.planCache[key] == if plan.apps != [] && key == plan.job.PlanKey() then plan else s.planCache[key])
  {}

  /** A call whose key is remembered goes on with that plan at once, any other has to resolve. */
  lemma ArrivalFindsPlan(s: State, container: Container, job: Job)
    requires Enabled(s, Arrive(container, job))
    ensures
      var t := Apply(s, Arrive(container, job));
      t == s.(calls := s.calls + [Call(container, job, if job.PlanKey() !in s.planCache then Resolving
                                                       else Publishing(s.planCache[job.PlanKey()], 0))])
  {}

  // ---------- Keys ----------

  /** App ids without a colon make the container:app key unambiguous. */
  lemma CacheKeyInjective(c: Container, i: AppId, c': Container, i': AppId)
    requires ':' !in i && ':' !in i'
    ensures CacheKey(c, i) == CacheKey(c', i') <==> c == c' && i == i'
  {
    if CacheKey(c, i) == CacheKey(c', i') {
      assert c + [':'] + i == CacheKey(c, i) == c' + [':'] + i';
      SplitAtLast(c, i, c', i', ':');
    }
  }

  /** An app id with a colon always shares its cache entry with another target. */
  lemma CacheKeyClash(c: Container, i: AppId) returns (c': Container, i': AppId)
    requires ':' in i
    ensures CacheKey(c, i) == CacheKey(c', i') && (c, i) != (c', i')
  {
    var k :| 0 <= k < |i| && i[k] == ':';
    c', i' := c + ":" + i[..k], i[k + 1..];
    assert i == i[..k] + ":" + i[k + 1..];
    assert c + ":" + (i[..k] + ":" + i[k + 1..]) == c + ":" + i[..k] + ":" + i[k + 1..];
  }

  lemma DirectoryShowsBar(a: Job)
    ensures a.ExplicitDir().Some? ==> '|' in a.PlanKey()
  {
    if a.ExplicitDir().Some? { assert a.PlanKey()[|a.task|] == '|'; }
  }

  /** A task id without a bar keeps a draft's cache entry apart from every other one. */
  lemma PlanKeyInjective(a: Job, b: Job)
    requires '|' !in a.task && '|' !in b.task
    ensures a.PlanKey() == b.PlanKey() <==> a.task == b.task && a.ExplicitDir() == b.ExplicitDir()
  {
    var k := a.PlanKey();
    if k == b.PlanKey() {
      var (d, e) := (a.ExplicitDir(), b.ExplicitDir());
      if d.Some? && e.Some? {
        assert a.task + ['|'] + d.value == k == b.task + ['|'] + e.value;
        SplitAtFirst(a.task, d.value, b.task, e.value, '|');
      }
      DirectoryShowsBar(a);
      DirectoryShowsBar(b);
    }
  }

  // ---------- Invariant of every run ----------

  ghost predicate PromisesOk(s: State) {
    && (forall p :: p in s.promises ==> ':' !in p.app.app.id && p.epoch <= s.epoch)
    && (forall p :: p in s.promises && p.status == Done ==> p.Target() in s.published)
    && (forall t :: t in s.published ==> exists p :: p in s.promises && p.Target() == t && p.status == Done)
    && (forall k :: k in s.publishedCache ==>
          s.publishedCache[k] < |s.promises| && s.promises[s.publishedCache[k]].Key() == k)
  }

  ghost predicate PlansOk(s: State) {
    forall k :: k in s.planCache ==>
                  s.planCache[k].Valid() && s.planCache[k].job.PlanKey() == k && '|' !in s.planCache[k].job.task
  }

  /** Everything the call has already walked past is on its container. */
  ghost predicate WalkedPast(s: State, c: Call)
    requires c.phase.HasPlan()
  {
    && c.phase.next <= |c.phase.plan.apps|
    && forall j :: 0 <= j < c.phase.next ==> (c.container, c.phase.plan.apps[j].app.id) in s.published
  }

  ghost predicate CallOk(s: State, c: Call) {
    && '|' !in c.job.task
    && (c.phase.HasPlan() ==>
          && c.phase.plan.Valid()
          && c.phase.plan.job.task == c.job.task && c.phase.plan.job.ExplicitDir() == c.job.ExplicitDir()
          && WalkedPast(s, c))
    && (c.phase.Awaiting? ==>
          && c.phase.next < |c.phase.plan.apps|
          && c.phase.promise < |s.promises|
          && s.promises[c.phase.promise].Target() == (c.container, c.phase.plan.apps[c.phase.next].app.id))
  }

  ghost predicate CallsOk(s: State) {
    forall c :: c in s.calls ==> CallOk(s, c)
  }

  /** A call awaits every promise in flight. */
  ghost predicate AwaitedOk(s: State) {
    forall p :: 0 <= p < |s.promises| && s.promises[p].InFlight() ==>
                  exists c :: 0 <= c < |s.calls| && s.calls[c].phase.Awaiting? && s.calls[c].phase.promise == p
  }

  ghost predicate Inv(s: State) {
    PromisesOk(s) && PlansOk(s) && CallsOk(s) && AwaitedOk(s)
  }

  lemma {:induction false} PlanIdsPlain(plan: Plan, k: nat)
    requires plan.Valid() && k < |plan.apps|
    ensures ':' !in plan.apps[k].app.id && plan.apps[k].app in plan.order
  {
    var _ := PublishableOrigin(plan.order, plan.compile, k);
  }

  lemma InvArrive(s: State, container: Container, job: Job)
    requires Inv(s) && Enabled(s, Arrive(container, job))
    ensures Inv(DoArrive(s, container, job))
  {
    var t := DoArrive(s, container, job);
    forall c | c in t.calls ensures CallOk(t, c) {
      if c !in s.calls && c.phase.HasPlan() { PlanKeyInjective(c.phase.plan.job, job); }
      assert c in s.calls ==> CallOk(s, c);
    }
    forall p | 0 <= p < |t.promises| && t.promises[p].InFlight()
      ensures exists c :: 0 <= c < |t.calls| && t.calls[c].phase.Awaiting? && t.calls[c].phase.promise == p
    {
      var c :| 0 <= c < |s.calls| && s.calls[c].phase.Awaiting? && s.calls[c].phase.promise == p;
      assert t.calls[c] == s.calls[c];
    }
  }

  /** Changing the phase of a call that awaits nothing in flight keeps everyone else's part. */
  lemma InvPhase(s: State, c: nat, phase: Phase)
    requires Inv(s) && c < |s.calls|
    requires CallOk(s, s.calls[c].(phase := phase))
    requires s.calls[c].phase.Awaiting? ==>
               s.calls[c].phase.promise < |s.promises| && !s.promises[s.calls[c].phase.promise].InFlight()
    ensures Inv(WithPhase(s, c, phase))
  {
    var t := WithPhase(s, c, phase);
    forall x | x in t.calls ensures CallOk(t, x) {
      assert x in s.calls || x == s.calls[c].(phase := phase);
      assert x in s.calls ==> CallOk(s, x);
    }
    forall p | 0 <= p < |t.promises| && t.promises[p].InFlight()
      ensures exists c :: 0 <= c < |t.calls| && t.calls[c].phase.Awaiting? && t.calls[c].phase.promise == p
    {
      var d :| 0 <= d < |s.calls| && s.calls[d].phase.Awaiting? && s.calls[d].phase.promise == p;
      assert t.calls[d] == s.calls[d];
    }
  }

  lemma InvResolve(s: State, c: nat, plan: Plan)
    requires Inv(s) && Enabled(s, Resolve(c, plan))
    ensures Inv(DoResolve(s, c, plan))
  {
    assert CallOk(s, s.calls[c]);
    InvPhase(s, c, Publishing(plan, 0));
    var t, u := WithPhase(s, c, Publishing(plan, 0)), DoResolve(s, c, plan);
    forall x | x in u.calls ensures CallOk(u, x) { assert CallOk(t, x); }
  }

  lemma InvAdvance(s: State, c: nat)
    requires Inv(s) && Enabled(s, Advance(c))
    ensures Inv(DoAdvance(s, c))
  {
    assert CallOk(s, s.calls[c]);
    var Publishing(plan, next) := s.calls[c].phase;
    if next >= |plan.apps| {
      InvPhase(s, c, Succeeded);
    } else {
      PlanIdsPlain(plan, next);
      var key := CacheKey(s.calls[c].container, plan.apps[next].app.id);
      if key in s.publishedCache {
        var p := s.publishedCache[key];
        assert s.promises[p] in s.promises;
        CacheKeyInjective(s.promises[p].container, s.promises[p].app.app.id, s.calls[c].container,
                          plan.apps[next].app.id);
        InvPhase(s, c, Awaiting(plan, next, p));
      } else {
        InvNewPublish(s, c);
      }
    }
  }

  lemma AwaitedNewPublish(s: State, c: nat)
    requires AwaitedOk(s) && StartsPublish(s, c)
    ensures AwaitedOk(DoAdvance(s, c))
  {
    var t, p := DoAdvance(s, c), |s.promises|;
    assert t.promises[..p] == s.promises;
    forall q | 0 <= q < |t.promises| && t.promises[q].InFlight()
      ensures exists d :: 0 <= d < |t.calls| && t.calls[d].phase.Awaiting? && t.calls[d].phase.promise == q
    {
      if q == p {
        assert t.calls[c].phase.promise == p;
      } else {
        assert t.promises[q] == t.promises[..p][q] == s.promises[q];
        var d :| 0 <= d < |s.calls| && s.calls[d].phase.Awaiting? && s.calls[d].phase.promise == q;
        assert t.calls[d] == s.calls[d];
      }
    }
  }

  lemma CallsNewPublish(s: State, c: nat)
    requires CallsOk(s) && StartsPublish(s, c)
    ensures CallsOk(DoAdvance(s, c))
  {
    var t := DoAdvance(s, c);
    assert CallOk(s, s.calls[c]);
    forall x | x in t.calls ensures CallOk(t, x) {
      assert x in s.calls || x == t.calls[c];
      assert x in s.calls ==> CallOk(s, x);
    }
  }

  lemma PromisesNewPublish(s: State, c: nat)
    requires Inv(s) && StartsPublish(s, c)
    ensures PromisesOk(DoAdvance(s, c))
  {
    var t, p := DoAdvance(s, c), |s.promises|;
    assert CallOk(s, s.calls[c]);
    PlanIdsPlain(s.calls[c].phase.plan, s.calls[c].phase.next);
    assert t.promises[..p] == s.promises;
    forall x | x in t.promises ensures x in s.promises || x == t.promises[p] {}
    forall x | x in t.published ensures exists q :: q in t.promises && q.Target() == x && q.status == Done {
      var q :| q in s.promises && q.Target() == x && q.status == Done;
      assert q in t.promises;
    }
  }

  lemma InvNewPublish(s: State, c: nat)
    requires Inv(s) && StartsPublish(s, c)
    ensures Inv(DoAdvance(s, c))
  {
    PromisesNewPublish(s, c);
    CallsNewPublish(s, c);
    AwaitedNewPublish(s, c);
  }

  /** A change of one promise's progress, with `published` growing to match. */
  lemma InvPromise(s: State, t: State, p: nat)
    requires Inv(s) && p < |s.promises| && s.promises[p].InFlight()
    requires |t.promises| == |s.promises|
    requires t == s.(promises := t.promises, publishedCache := t.publishedCache, published := t.published)
    requires t.promises == s.promises[p := t.promises[p]]
    requires t.promises[p] == s.promises[p].(status := t.promises[p].status)
    requires t.published == if t.promises[p].status == Done then s.published + {s.promises[p].Target()} else s.published
    requires t.publishedCache.Keys <= s.publishedCache.Keys
    requires forall k :: k in t.publishedCache ==> t.publishedCache[k] == s.publishedCache[k]
    ensures Inv(t)
  {
    InvPublished(s, t, p);
    forall x | x in t.calls ensures CallOk(t, x) { assert CallOk(s, x); }
    forall q | 0 <= q < |t.promises| && t.promises[q].InFlight()
      ensures exists d :: 0 <= d < |t.calls| && t.calls[d].phase.Awaiting? && t.calls[d].phase.promise == q
    {
      assert s.promises[q].InFlight();
    }
  }

  lemma InvPublished(s: State, t: State, p: nat)
    requires PromisesOk(s) && p < |s.promises| && s.promises[p].InFlight() && t.epoch == s.epoch
    requires |t.promises| == |s.promises| && t.promises == s.promises[p := t.promises[p]]
    requires t.promises[p] == s.promises[p].(status := t.promises[p].status)
    requires t.published == if t.promises[p].status == Done then s.published + {s.promises[p].Target()} else s.published
    requires t.publishedCache.Keys <= s.publishedCache.Keys
    requires forall k :: k in t.publishedCache ==> t.publishedCache[k] == s.publishedCache[k]
    ensures PromisesOk(t)
  {
    forall x | x in t.promises ensures x in s.promises || x == t.promises[p] {}
    assert s.promises[p] in s.promises;
    forall x | x in t.published ensures exists q :: q in t.promises && q.Target() == x && q.status == Done {
      if x in s.published {
        var q :| q in s.promises && q.Target() == x && q.status == Done;
        var i :| 0 <= i < |s.promises| && s.promises[i] == q;
        assert t.promises[i] == q;
      } else {
        assert t.promises[p].Target() == x;
      }
    }
  }

  lemma InvResume(s: State, c: nat)
    requires Inv(s) && Enabled(s, Resume(c))
    ensures Inv(DoResume(s, c))
  {
    var Awaiting(plan, next, p) := s.calls[c].phase;
    assert CallOk(s, s.calls[c]);
    var phase := if s.promises[p].status == Done then Publishing(plan, next + 1) else Aborted;
    assert s.promises[p] in s.promises;
    InvPhase(s, c, phase);
  }

  lemma InvStep(s: State, step: Step)
    requires Inv(s)
    ensures Inv(Apply(s, step))
  {
    if Enabled(s, step) {
      match step
      case Arrive(container, job) => InvArrive(s, container, job);
      case Resolve(c, plan) => InvResolve(s, c, plan);
      case Abort(c) =>
        assert CallOk(s, s.calls[c]);
        InvPhase(s, c, Aborted);
      case Advance(c) => InvAdvance(s, c);
      case Settle(p, ok) => InvPromise(s, DoSettle(s, p, ok), p);
      case HandleRejection(p) => InvPromise(s, DoHandleRejection(s, p), p);
      case Resume(c) => InvResume(s, c);
      case Clear =>
        forall x | x in s.calls ensures CallOk(DoClear(s), x) { assert CallOk(s, x); }
    }
  }

  lemma {:induction false} InvAlways(steps: seq<Step>)
    ensures Inv(After(steps))
    decreases |steps|
  {
    if steps != [] {
      InvAlways(steps[..|steps| - 1]);
      InvStep(After(steps[..|steps| - 1]), steps[|steps| - 1]);
    }
  }

  // ---------- Prerequisites come first ----------

  /** In a plan over an acyclic graph, a transitive dependency is published before its dependent
      exactly when it compiled to an artifact. */
  lemma DependencyListedBefore(plan: Plan, next: nat, d: AppId)
    requires plan.Valid() && plan.project.Some? && plan.project.value.Acyclic() && next < |plan.apps|
    requires d != plan.apps[next].app.id && plan.project.value.Reaches(plan.apps[next].app.id, d)
    ensures d in plan.compile
    ensures HasArtifact(plan.compile[d]) <==> d in BuiltIds(plan.apps[..next])
  {
    var i := PublishableOrigin(plan.order, plan.compile, next);
    TransitiveDependencyFirst(plan.project.value, plan.order, i, d);
    PublishableKeepsOrder(plan.order, plan.compile, next, i, d);
  }

  /** In every interleaving, with failures, evictions and cache clears anywhere: when a call
      starts a publish, each transitive dependency of the app that compiled to an artifact has
      a completed publish on that container, and those are the ones the call has walked past. */
  lemma DependenciesPublishedFirst(steps: seq<Step>, c: nat, d: AppId)
    requires StartsPublish(After(steps), c)
    requires
      var phase := After(steps).calls[c].phase;
      var app := phase.plan.apps[phase.next].app;
      && phase.plan.project.Some? && phase.plan.project.value.Acyclic()
      && d != app.id && phase.plan.project.value.Reaches(app.id, d)
    ensures
      var s := After(steps);
      var call := s.calls[c];
      var plan := call.phase.plan;
      && d in plan.compile
      && (HasArtifact(plan.compile[d]) <==> d in BuiltIds(plan.apps[..call.phase.next]))
      && (HasArtifact(plan.compile[d]) ==>
            && (call.container, d) in s.published
            && exists p :: p in s.promises && p.Target() == (call.container, d) && p.status == Done)
  {
    InvAlways(steps);
    var s := After(steps);
    var call := s.calls[c];
    var plan, next := call.phase.plan, call.phase.next;
    assert CallOk(s, call);
    DependencyListedBefore(plan, next, d);
    if HasArtifact(plan.compile[d]) {
      var m :| 0 <= m < next && BuiltIds(plan.apps[..next])[m] == d;
      assert (call.container, plan.apps[m].app.id) in s.published;
    }
  }

  /** A call reaches its test run only with every app of its own plan on its container, and the
      plan was built for the same task and prereq directory even when it came from the cache. */
  lemma TestsRunAfterEveryPublish(steps: seq<Step>, c: nat)
    requires c < |After(steps).calls|
    ensures
      var s := After(steps);
      var call := s.calls[c];
      && (call.phase.HasPlan() ==>
            call.phase.plan.job.task == call.job.task && call.phase.plan.job.ExplicitDir() == call.job.ExplicitDir())
      && (Apply(s, Advance(c)).calls[c].phase.Succeeded? && !call.phase.Succeeded? ==>
            forall b :: b in call.phase.plan.apps ==> (call.container, b.app.id) in s.published)
  {
    InvAlways(steps);
    var s := After(steps);
    assert CallOk(s, s.calls[c]);
  }

  // ---------- Single flight ----------

  /** No publish is pending and no rejection is waiting for its handler. */
  ghost predicate Quiescent(s: State) {
    forall p :: p in s.promises ==> !p.InFlight()
  }

  /** In a run that starts with `base`, every cache clear among the steps `more` that follow
      finds no publish in flight. */
  ghost predicate ClearsQuietly(base: seq<Step>, more: seq<Step>) {
    more == [] ||
    (var before, last := more[..|more| - 1], more[|more| - 1];
     ClearsQuietly(base, before) && (last.Clear? ==> Quiescent(After(base + before))))
  }

  ghost predicate SingleFlight(s: State) {
    forall p, q :: 0 <= p < q < |s.promises| && s.promises[p].InFlight() && s.promises[q].InFlight() ==>
                     s.promises[p].Target() != s.promises[q].Target()
  }

  /** The cache holds exactly the promises of this epoch that are in flight or succeeded. */
  ghost predicate Owned(s: State) {
    && (forall k :: k in s.publishedCache ==>
                      s.publishedCache[k] < |s.promises| && Live(s, s.promises[s.publishedCache[k]]))
    && (forall p :: 0 <= p < |s.promises| && Live(s, s.promises[p]) ==>
                      s.promises[p].Key() in s.publishedCache && s.publishedCache[s.promises[p].Key()] == p)
    && (forall p :: p in s.promises && p.InFlight() ==> p.epoch == s.epoch)
  }

  ghost predicate Live(s: State, p: Promise) {
    p.epoch == s.epoch && p.status != Handled
  }

  /** What a call that starts a publish is about to publish. */
  function NextTarget(s: State, c: nat): (Container, AppId)
    requires StartsPublish(s, c)
  {
    (s.calls[c].container, s.calls[c].phase.plan.apps[s.calls[c].phase.next].app.id)
  }

  lemma OwnedSettle(s: State, p: nat, ok: bool)
    requires Inv(s) && Owned(s) && Enabled(s, Settle(p, ok))
    ensures Owned(DoSettle(s, p, ok))
  {
    assert s.promises[p] in s.promises;
    assert Live(DoSettle(s, p, ok), DoSettle(s, p, ok).promises[p]);
    OwnedPromise(s, DoSettle(s, p, ok), p);
  }

  lemma OwnedHandled(s: State, p: nat)
    requires PromisesOk(s) && Owned(s) && Enabled(s, HandleRejection(p))
    ensures Owned(DoHandleRejection(s, p))
  {
    OwnedPromise(s, DoHandleRejection(s, p), p);
  }

  lemma OwnedClear(s: State)
    requires Inv(s) && Quiescent(s)
    ensures Owned(DoClear(s))
  {
    forall p | 0 <= p < |s.promises| ensures !Live(DoClear(s), s.promises[p]) { assert s.promises[p] in s.promises; }
  }

  lemma OwnedCalls(s: State, t: State)
    requires Owned(s) && t.promises == s.promises && t.publishedCache == s.publishedCache && t.epoch == s.epoch
    ensures Owned(t)
  {
    assert forall p :: Live(t, p) == Live(s, p);
  }

  lemma OwnedStep(s: State, step: Step)
    requires Inv(s) && Owned(s) && (step.Clear? ==> Quiescent(s))
    ensures Owned(Apply(s, step))
  {
    if Enabled(s, step) {
      match step
      case Advance(c) =>
        if StartsPublish(s, c) { OwnedNewPublish(s, c); } else { OwnedCalls(s, DoAdvance(s, c)); }
      case Settle(p, ok) => OwnedSettle(s, p, ok);
      case HandleRejection(p) => OwnedHandled(s, p);
      case Clear => OwnedClear(s);
      case _ => OwnedCalls(s, Apply(s, step));
    }
  }

  lemma OwnedNewPublish(s: State, c: nat)
    requires Inv(s) && Owned(s) && StartsPublish(s, c)
    ensures Owned(DoAdvance(s, c))
  {
    var t := DoAdvance(s, c);
    var p := |s.promises|;
    assert t.promises[..p] == s.promises;
    forall q | q in t.promises && q.InFlight() ensures q.epoch == t.epoch {
      assert q in s.promises || q == t.promises[p];
    }
  }

  /** One promise in flight goes on, and leaves the cache if it is handled. */
  ghost predicate GoesOn(s: State, t: State, p: nat) {
    && p < |s.promises| == |t.promises| && s.promises[p].InFlight()
    && t == s.(promises := t.promises, publishedCache := t.publishedCache, published := t.published)
    && t.promises == s.promises[p := s.promises[p].(status := t.promises[p].status)]
    && t.publishedCache == if Live(t, t.promises[p]) then s.publishedCache else s.publishedCache - {s.promises[p].Key()}
  }

  lemma OwnedEntries(s: State, t: State, p: nat)
    requires PromisesOk(s) && Owned(s) && GoesOn(s, t, p) && Live(s, s.promises[p])
    ensures forall k :: k in t.publishedCache ==>
                          t.publishedCache[k] < |t.promises| && Live(t, t.promises[t.publishedCache[k]])
  {}

  lemma OwnedLive(s: State, t: State, p: nat)
    requires Owned(s) && GoesOn(s, t, p) && Live(s, s.promises[p])
    ensures forall q :: 0 <= q < |t.promises| && Live(t, t.promises[q]) ==>
                          t.promises[q].Key() in t.publishedCache && t.publishedCache[t.promises[q].Key()] == q
  {
    forall q | 0 <= q < |t.promises| && Live(t, t.promises[q])
      ensures t.promises[q].Key() in t.publishedCache && t.publishedCache[t.promises[q].Key()] == q
    {
      assert Live(s, s.promises[q]) && t.promises[q].Key() == s.promises[q].Key();
    }
  }

  lemma OwnedPromise(s: State, t: State, p: nat)
    requires PromisesOk(s) && Owned(s) && GoesOn(s, t, p)
    ensures Owned(t)
  {
    assert s.promises[p] in s.promises;
    assert Live(s, s.promises[p]);
    OwnedEntries(s, t, p);
    OwnedLive(s, t, p);
    forall q | q in t.promises && q.InFlight() ensures q.epoch == t.epoch {
      assert q in s.promises || q == t.promises[p];
    }
  }

  lemma {:induction false} OwnedAlways(steps: seq<Step>)
    requires ClearsQuietly([], steps)
    ensures Owned(After(steps))
    decreases |steps|
  {
    if steps != [] {
      var before := steps[..|steps| - 1];
      assert [] + before == before;
      OwnedAlways(before);
      InvAlways(before);
      OwnedStep(After(before), steps[|steps| - 1]);
    }
  }

  /** With quiet clears: at most one publish of a target is in flight; a publish starts only for
      a target with nothing in flight and no success since the last clear; a rejection handler
      deletes its own entry; and the next call for that target then publishes again. */
  lemma SingleFlightAlways(steps: seq<Step>)
    requires ClearsQuietly([], steps)
    ensures
      var s := After(steps);
      && SingleFlight(s)
      && (forall c: nat, p | StartsPublish(s, c) && p in s.promises && p.Target() == NextTarget(s, c) ::
            !p.InFlight() && (p.status == Done ==> p.epoch < s.epoch))
      && (forall p: nat {:trigger HandleRejection(p)} :: Enabled(s, HandleRejection(p)) ==>
            && s.promises[p].Key() in s.publishedCache && s.publishedCache[s.promises[p].Key()] == p
            && s.promises[p].Key() !in Apply(s, HandleRejection(p)).publishedCache)
  {
    OwnedAlways(steps);
    InvAlways(steps);
    var s := After(steps);
    forall p, q | 0 <= p < q < |s.promises| && s.promises[p].InFlight() && s.promises[q].InFlight()
      ensures s.promises[p].Target() != s.promises[q].Target()
    {
      assert s.promises[p] in s.promises && s.promises[q] in s.promises;
      assert Live(s, s.promises[p]) && Live(s, s.promises[q]);
    }
    forall c: nat, p | StartsPublish(s, c) && p in s.promises && p.Target() == NextTarget(s, c)
      ensures !p.InFlight() && (p.status == Done ==> p.epoch < s.epoch)
    {
      assert !Live(s, p);
    }
    forall p: nat {:trigger HandleRejection(p)} | Enabled(s, HandleRejection(p))
      ensures s.promises[p].Key() in s.publishedCache && s.publishedCache[s.promises[p].Key()] == p
              && s.promises[p].Key() !in Apply(s, HandleRejection(p)).publishedCache
    {
      assert s.promises[p] in s.promises && Live(s, s.promises[p]);
    }
  }

  // ---------- The condition on clears is exact ----------

  ghost function ApplyAll(s: State, steps: seq<Step>): State {
    if steps == [] then s else Apply(ApplyAll(s, steps[..|steps| - 1]), steps[|steps| - 1])
  }

  lemma {:induction false} AfterApplyAll(steps: seq<Step>, more: seq<Step>)
    ensures After(steps + more) == ApplyAll(After(steps), more)
    decreases |more|
  {
    if more == [] {
      assert steps + more == steps;
    } else {
      AfterApplyAll(steps, more[..|more| - 1]);
      assert (steps + more)[..|steps + more| - 1] == steps + more[..|more| - 1];
    }
  }

  lemma {:induction false} ApplyAllConcat(s: State, a: seq<Step>, b: seq<Step>)
    ensures ApplyAll(s, a + b) == ApplyAll(ApplyAll(s, a), b)
    decreases |b|
  {
    if b == [] {
      assert a + b == a;
    } else {
      ApplyAllConcat(s, a, b[..|b| - 1]);
      assert (a + b)[..|a + b| - 1] == a + b[..|b| - 1];
    }
  }

  lemma ApplyOne(s: State, step: Step)
    ensures ApplyAll(s, [step]) == Apply(s, step)
  {
    assert [step][..0] == [];
    assert ApplyAll(s, [step][..0]) == s;
  }

  /** No app is published twice by one plan. */
  lemma PlanIdsDistinct(plan: Plan, m: nat, k: nat)
    requires plan.Valid() && m < k < |plan.apps|
    ensures plan.apps[m].app.id != plan.apps[k].app.id
  {
    var i := PublishableOrigin(plan.order, plan.compile, k);
    assert plan.apps[..k][m] == plan.apps[m];
    assert forall a :: a in plan.order[..i] ==> a in plan.order;
    var j := PublishableOrigin(plan.order[..i], plan.compile, m);
    assert plan.order[..i][j] == plan.order[j];
    var p :| plan.project == Some(p);
    assert Ids(plan.order)[j] != Ids(plan.order)[i];
  }

  // ---------- A second call on the plan of a call that waits ----------

  /** One app of the plan: publish it, let that succeed, go on. */
  function Round(c: nat, p: nat): seq<Step> {
    [Advance(c), Settle(p, true), Resume(c)]
  }

  function Rounds(c: nat, p: nat, j: nat): seq<Step> {
    if j == 0 then [] else Rounds(c, p, j - 1) + Round(c, p + (j - 1))
  }

  /** The steps by which one more call on the plan of call `d` gets to the app that `d` awaits. */
  function SecondWalk(s: State, d: nat): seq<Step>
    requires d < |s.calls| && s.calls[d].phase.Awaiting?
  {
    var Awaiting(plan, next, _) := s.calls[d].phase;
    [Arrive(s.calls[d].container, plan.job), Resolve(|s.calls|, plan)] + Rounds(|s.calls|, |s.promises|, next)
  }

  /** The same, and the start of its publish. */
  function SecondPublish(s: State, d: nat): seq<Step>
    requires d < |s.calls| && s.calls[d].phase.Awaiting?
  {
    SecondWalk(s, d) + [Advance(|s.calls|)]
  }

  /** The second call has published `j` apps since the clear, and nothing else was published. */
  ghost predicate Walking(s: State, t: State, container: Container, plan: Plan, j: nat) {
    && j <= |plan.apps|
    && |t.promises| == |s.promises| + j && t.promises[..|s.promises|] == s.promises
    && |t.calls| == |s.calls| + 1 && t.calls[|s.calls|] == Call(container, plan.job, Publishing(plan, j))
    && (forall k :: k in t.publishedCache ==> exists i :: 0 <= i < j && k == CacheKey(container, plan.apps[i].app.id))
  }

  lemma WalkStarts(s: State, container: Container, plan: Plan)
    requires plan.Valid() && '|' !in plan.job.task
    ensures Walking(s, Apply(Apply(DoClear(s), Arrive(container, plan.job)), Resolve(|s.calls|, plan)),
                    container, plan, 0)
  {
    var t := Apply(DoClear(s), Arrive(container, plan.job));
    assert t.calls[|s.calls|] == Call(container, plan.job, Resolving);
  }

  /** The next app of the plan has no entry in the cache. */
  lemma NextIsFree(s: State, t: State, container: Container, plan: Plan, j: nat)
    requires Walking(s, t, container, plan, j) && plan.Valid() && j < |plan.apps|
    ensures CacheKey(container, plan.apps[j].app.id) !in t.publishedCache
  {
    forall i: nat | i < j ensures CacheKey(container, plan.apps[i].app.id) != CacheKey(container, plan.apps[j].app.id) {
      PlanIdsPlain(plan, i);
      PlanIdsPlain(plan, j);
      PlanIdsDistinct(plan, i, j);
      CacheKeyInjective(container, plan.apps[i].app.id, container, plan.apps[j].app.id);
    }
  }

  /** What one publish by the second call does. */
  lemma WalkPublishes(s: State, t: State, container: Container, plan: Plan, j: nat)
    requires Walking(s, t, container, plan, j) && plan.Valid() && j < |plan.apps|
    ensures
      var u := Apply(t, Advance(|s.calls|));
      var key := CacheKey(container, plan.apps[j].app.id);
      && u.promises == t.promises + [Promise(container, plan.apps[j], Pending, t.epoch)]
      && u.publishedCache == t.publishedCache[key := |t.promises|]
      && u.calls == t.calls[|s.calls| := Call(container, plan.job, Awaiting(plan, j, |t.promises|))]
  {
    NextIsFree(s, t, container, plan, j);
  }

  /** A publish that call `c` awaits succeeds, and the call goes on. */
  lemma SettledRound(u: State, c: nat, p: nat)
    requires c < |u.calls| && u.calls[c].phase.Awaiting? && u.calls[c].phase.promise == p
    requires p < |u.promises| && u.promises[p].status == Pending
    ensures
      var (w, Awaiting(plan, next, _)) := (Apply(Apply(u, Settle(p, true)), Resume(c)), u.calls[c].phase);
      && w.promises == u.promises[p := u.promises[p].(status := Done)] && w.publishedCache == u.publishedCache
      && w.calls == u.calls[c := u.calls[c].(phase := Publishing(plan, next + 1))]
  {
    var v := Apply(u, Settle(p, true));
    assert v == DoSettle(u, p, true) && v.promises[p].status == Done;
  }

  lemma WalkRound(s: State, t: State, container: Container, plan: Plan, j: nat)
    requires Walking(s, t, container, plan, j) && plan.Valid() && j < |plan.apps|
    ensures
      var c, p := |s.calls|, |s.promises| + j;
      Walking(s, Apply(Apply(Apply(t, Advance(c)), Settle(p, true)), Resume(c)), container, plan, j + 1)
  {
    var c, p := |s.calls|, |s.promises| + j;
    WalkPublishes(s, t, container, plan, j);
    var u := Apply(t, Advance(c));
    SettledRound(u, c, p);
    var w := Apply(Apply(u, Settle(p, true)), Resume(c));
    assert w.promises[..|s.promises|] == t.promises[..|s.promises|];
  }

  lemma ApplyRound(s: State, c: nat, p: nat)
    ensures ApplyAll(s, Round(c, p)) == Apply(Apply(Apply(s, Advance(c)), Settle(p, true)), Resume(c))
  {
    var r := Round(c, p);
    assert r == [Advance(c)] + [Settle(p, true)] + [Resume(c)];
    ApplyAllConcat(s, [Advance(c)] + [Settle(p, true)], [Resume(c)]);
    ApplyAllConcat(s, [Advance(c)], [Settle(p, true)]);
    ApplyOne(s, Advance(c));
    ApplyOne(Apply(s, Advance(c)), Settle(p, true));
    ApplyOne(Apply(Apply(s, Advance(c)), Settle(p, true)), Resume(c));
  }

  lemma {:induction false} WalkRounds(s: State, t: State, container: Container, plan: Plan, j: nat)
    requires Walking(s, t, container, plan, 0) && plan.Valid() && j <= |plan.apps|
    ensures Walking(s, ApplyAll(t, Rounds(|s.calls|, |s.promises|, j)), container, plan, j)
    decreases j
  {
    if j == 0 {
      assert ApplyAll(t, []) == t;
    } else {
      var before := Rounds(|s.calls|, |s.promises|, j - 1);
      WalkRounds(s, t, container, plan, j - 1);
      WalkNext(s, t, container, plan, j - 1, before);
      assert Rounds(|s.calls|, |s.promises|, j) == before + Round(|s.calls|, |s.promises| + (j - 1));
    }
  }

  lemma WalkNext(s: State, t: State, container: Container, plan: Plan, j: nat, before: seq<Step>)
    requires Walking(s, ApplyAll(t, before), container, plan, j) && plan.Valid() && j < |plan.apps|
    ensures Walking(s, ApplyAll(t, before + Round(|s.calls|, |s.promises| + j)), container, plan, j + 1)
  {
    var c, p, u := |s.calls|, |s.promises| + j, ApplyAll(t, before);
    ApplyAllConcat(t, before, Round(c, p));
    ApplyRound(u, c, p);
    WalkRound(s, u, container, plan, j);
  }

  lemma SecondWalks(s: State, d: nat)
    requires Inv(s) && d < |s.calls| && s.calls[d].phase.Awaiting?
    ensures s.calls[d].phase.plan.Valid()
    ensures Walking(s, ApplyAll(DoClear(s), SecondWalk(s, d)), s.calls[d].container, s.calls[d].phase.plan,
                    s.calls[d].phase.next)
  {
    var Awaiting(plan, next, _) := s.calls[d].phase;
    var c, container := |s.calls|, s.calls[d].container;
    assert CallOk(s, s.calls[d]);
    var first, rounds := [Arrive(container, plan.job), Resolve(c, plan)], Rounds(c, |s.promises|, next);
    ApplyAllConcat(DoClear(s), first, rounds);
    FirstTwo(DoClear(s), Arrive(container, plan.job), Resolve(c, plan));
    WalkStarts(s, container, plan);
    WalkRounds(s, ApplyAll(DoClear(s), first), container, plan, next);
  }

  /** And then publishes the app beside it. */
  lemma PublishesBeside(s: State, d: nat, t: State)
    requires Inv(s) && AwaitsInFlight(s, d) && s.calls[d].phase.plan.Valid()
    requires Walking(s, t, s.calls[d].container, s.calls[d].phase.plan, s.calls[d].phase.next)
    ensures PublishedBeside(s, Apply(t, Advance(|s.calls|)), s.calls[d].phase.promise)
  {
    assert CallOk(s, s.calls[d]) && s.promises[s.calls[d].phase.promise] in s.promises;
    WalkPublishes(s, t, s.calls[d].container, s.calls[d].phase.plan, s.calls[d].phase.next);
    assert Apply(t, Advance(|s.calls|)).promises[..|s.promises|] == t.promises[..|s.promises|];
  }

  lemma FirstTwo(s: State, a: Step, b: Step)
    ensures ApplyAll(s, [a, b]) == Apply(Apply(s, a), b)
  {
    assert [a, b] == [a] + [b];
    ApplyAllConcat(s, [a], [b]);
    ApplyOne(s, a);
    ApplyOne(Apply(s, a), b);
  }

  lemma AfterClear(steps: seq<Step>, more: seq<Step>)
    ensures After(steps + [Clear] + more) == ApplyAll(DoClear(After(steps)), more)
  {
    AfterApplyAll(steps + [Clear], more);
    AfterApplyAll(steps, [Clear]);
    ApplyOne(After(steps), Clear);
  }

  /** What stands after a clear and the second call's publish. */
  ghost predicate PublishedBeside(s: State, t: State, p: nat) {
    && p < |s.promises| < |t.promises| && t.promises[..|s.promises|] == s.promises && s.promises[p].InFlight()
    && t.promises[|t.promises| - 1].status == Pending && t.promises[|t.promises| - 1].Target() == s.promises[p].Target()
    && t.publishedCache == t.publishedCache[s.promises[p].Key() := |t.promises| - 1]
  }

  /** Call `d` awaits a publish in flight. */
  ghost predicate AwaitsInFlight(s: State, d: nat) {
    && d < |s.calls| && s.calls[d].phase.Awaiting?
    && s.calls[d].phase.promise < |s.promises| && s.promises[s.calls[d].phase.promise].InFlight()
  }

  /** After a clear, the second call publishes the app that `d` awaits, beside it. */
  lemma Beside(s: State, d: nat)
    requires Inv(s) && AwaitsInFlight(s, d)
    ensures PublishedBeside(s, ApplyAll(DoClear(s), SecondPublish(s, d)), s.calls[d].phase.promise)
  {
    var t := ApplyAll(DoClear(s), SecondWalk(s, d));
    SecondWalks(s, d);
    ApplyAllConcat(DoClear(s), SecondWalk(s, d), [Advance(|s.calls|)]);
    ApplyOne(t, Advance(|s.calls|));
    PublishesBeside(s, d, t);
  }

  lemma ClearedBeside(steps: seq<Step>, s: State, d: nat, more: seq<Step>) returns (t: State)
    requires s == After(steps) && AwaitsInFlight(s, d) && more == SecondPublish(s, d)
    ensures t == After(steps + [Clear] + more) && PublishedBeside(s, t, s.calls[d].phase.promise)
  {
    t := ApplyAll(DoClear(s), more);
    assert Inv(s) by { InvAlways(steps); }
    Beside(s, d);
    assert t == After(steps + [Clear] + more) by { AfterClear(steps, more); }
  }

  /** A clear while call `d` awaits a publish lets a second call on the same plan start that publish
      again beside it. */
  lemma ClearInFlightDoublesPublish(steps: seq<Step>, d: nat)
    requires AwaitsInFlight(After(steps), d)
    ensures !SingleFlight(After(steps + [Clear] + SecondPublish(After(steps), d)))
  {
    var s := After(steps);
    var t := ClearedBeside(steps, s, d, SecondPublish(s, d));
    TwoInFlight(s, t, s.calls[d].phase.promise);
  }

  lemma TwoInFlight(s: State, t: State, p: nat)
    requires PublishedBeside(s, t, p)
    ensures !SingleFlight(t)
  {
    assert t.promises[p] == t.promises[..|s.promises|][p] == s.promises[p];
  }

  /** Every rejection handler that can run now would delete its own entry. */
  ghost predicate EvictsOwn(s: State) {
    forall p: nat {:trigger HandleRejection(p)} :: Enabled(s, HandleRejection(p)) ==>
                     s.promises[p].Key() in s.publishedCache && s.publishedCache[s.promises[p].Key()] == p
  }

  /** A handler that can run and would delete the entry of another promise for its own target, which
      is still in flight. */
  ghost predicate EvictsForeign(t: State, p: nat) {
    && Enabled(t, HandleRejection(p)) && t.promises[p].Key() in t.publishedCache
    && t.promises[p].Key() !in Apply(t, HandleRejection(p)).publishedCache
    && (var q := t.publishedCache[t.promises[p].Key()];
        q != p && q < |t.promises| && t.promises[q].InFlight() && t.promises[q].Target() == t.promises[p].Target())
  }

  lemma ForeignEntry(s: State, t: State, p: nat)
    requires PublishedBeside(s, t, p)
    ensures EvictsForeign(Apply(t, Settle(p, false)), p)
  {
    assert t.promises[p] == t.promises[..|s.promises|][p] == s.promises[p];
    assert s.promises[p].Key() in t.publishedCache[s.promises[p].Key() := |t.promises| - 1];
  }

  /** If the first publish then fails, its handler deletes the entry of the second. */
  lemma ClearInFlightEvictsForeign(steps: seq<Step>, d: nat)
    requires AwaitsInFlight(After(steps), d)
    ensures
      var p, more := After(steps).calls[d].phase.promise, SecondPublish(After(steps), d);
      EvictsForeign(After(steps + [Clear] + more + [Settle(p, false)]), p)
  {
    var s := After(steps);
    var p, more := s.calls[d].phase.promise, SecondPublish(s, d);
    var t := ClearedBeside(steps, s, d, more);
    ForeignEntry(s, t, p);
    AfterApplyAll(steps + [Clear] + more, [Settle(p, false)]);
    ApplyOne(t, Settle(p, false));
  }

  /** Quiet clears before and after a clear, and quiescence at it, make every clear quiet. */
  lemma {:induction false} QuietAcross(steps: seq<Step>, more: seq<Step>)
    requires ClearsQuietly([], steps) && Quiescent(After(steps)) && ClearsQuietly(steps + [Clear], more)
    ensures ClearsQuietly([], steps + [Clear] + more)
    decreases |more|
  {
    if more == [] {
      QuietAppend(steps, Clear);
      assert steps + [Clear] + more == steps + [Clear];
    } else {
      var before, last := more[..|more| - 1], more[|more| - 1];
      QuietAcross(steps, before);
      QuietAppend(steps + [Clear] + before, last);
      assert steps + [Clear] + more == (steps + [Clear] + before) + [last];
    }
  }

  lemma QuietAppend(steps: seq<Step>, last: Step)
    requires ClearsQuietly([], steps) && (last.Clear? ==> Quiescent(After(steps)))
    ensures ClearsQuietly([], steps + [last])
  {
    assert (steps + [last])[..|steps|] == steps;
    assert [] + steps == steps;
  }

  /** Some call awaits the promise in flight. */
  lemma AwaiterOf(s: State) returns (d: nat)
    requires Inv(s) && !Quiescent(s)
    ensures AwaitsInFlight(s, d)
  {
    var promise :| promise in s.promises && promise.InFlight();
    var p :| 0 <= p < |s.promises| && s.promises[p] == promise;
    d :| 0 <= d < |s.calls| && s.calls[d].phase.Awaiting? && s.calls[d].phase.promise == p;
  }

  lemma {:induction false} RoundsDoNotClear(c: nat, p: nat, j: nat)
    ensures forall step :: step in Rounds(c, p, j) ==> !step.Clear?
    decreases j
  {
    if j > 0 { RoundsDoNotClear(c, p, j - 1); }
  }

  lemma SecondPublishIsQuiet(base: seq<Step>, s: State, d: nat, last: seq<Step>)
    requires d < |s.calls| && s.calls[d].phase.Awaiting? && forall step :: step in last ==> !step.Clear?
    ensures ClearsQuietly(base, SecondPublish(s, d) + last)
  {
    RoundsDoNotClear(|s.calls|, |s.promises|, s.calls[d].phase.next);
    NoClearsQuiet(base, SecondPublish(s, d) + last);
  }

  /** After a run with quiet clears, one more clear keeps single flight for good exactly when no
      publish is in flight at that moment. */
  lemma ClearSafeExactlyWhenQuiescent(steps: seq<Step>)
    requires ClearsQuietly([], steps)
    ensures Quiescent(After(steps)) <==>
            forall more :: ClearsQuietly(steps + [Clear], more) ==> SingleFlight(After(steps + [Clear] + more))
  {
    if Quiescent(After(steps)) {
      forall more | ClearsQuietly(steps + [Clear], more)
        ensures SingleFlight(After(steps + [Clear] + more))
      {
        QuietAcross(steps, more);
        SingleFlightAlways(steps + [Clear] + more);
      }
    } else {
      InvAlways(steps);
      var d := AwaiterOf(After(steps));
      ClearInFlightDoublesPublish(steps, d);
      SecondPublishIsQuiet(steps + [Clear], After(steps), d, []);
      assert SecondPublish(After(steps), d) + [] == SecondPublish(After(steps), d);
    }
  }

  /** And exactly then every rejection handler deletes only its own entry, for good. */
  lemma EvictionOwnExactlyWhenQuiescent(steps: seq<Step>)
    requires ClearsQuietly([], steps)
    ensures Quiescent(After(steps)) <==>
            forall more :: ClearsQuietly(steps + [Clear], more) ==> EvictsOwn(After(steps + [Clear] + more))
  {
    if Quiescent(After(steps)) {
      forall more | ClearsQuietly(steps + [Clear], more)
        ensures EvictsOwn(After(steps + [Clear] + more))
      {
        QuietAcross(steps, more);
        SingleFlightAlways(steps + [Clear] + more);
      }
    } else {
      InvAlways(steps);
      var d := AwaiterOf(After(steps));
      var p, more := After(steps).calls[d].phase.promise, SecondPublish(After(steps), d);
      ClearInFlightEvictsForeign(steps, d);
      SecondPublishIsQuiet(steps + [Clear], After(steps), d, [Settle(p, false)]);
      assert steps + [Clear] + (more + [Settle(p, false)]) == steps + [Clear] + more + [Settle(p, false)];
      ForeignIsNotOwn(After(steps + [Clear] + more + [Settle(p, false)]), p);
    }
  }

  lemma ForeignIsNotOwn(t: State, p: nat)
    requires EvictsForeign(t, p)
    ensures !EvictsOwn(t)
  {
    assert Enabled(t, HandleRejection(p));
  }

  lemma {:induction false} NoClearsQuiet(base: seq<Step>, more: seq<Step>)
    requires forall step :: step in more ==> !step.Clear?
    ensures ClearsQuietly(base, more)
    decreases |more|
  {
    if more != [] { NoClearsQuiet(base, more[..|more| - 1]); }
  }

  // ---------- Serial use ----------

  /** No verify call is running. */
  ghost predicate Idle(s: State) {
    forall c :: c in s.calls ==> c.phase.Succeeded? || c.phase.Aborted?
  }

  lemma InFlightIsAwaited(s: State, p: Promise)
    requires Inv(s) && p in s.promises && p.InFlight()
    ensures !Idle(s)
  {
    var k :| 0 <= k < |s.promises| && s.promises[k] == p;
    var c :| 0 <= c < |s.calls| && s.calls[c].phase.Awaiting? && s.calls[c].phase.promise == k;
    assert s.calls[c] in s.calls;
  }

  /** The dashboard queue clears the caches only between jobs, so its clears are quiet. */
  lemma {:induction false} SerialClearsAreQuiet(steps: seq<Step>)
    requires forall i :: 0 <= i < |steps| && steps[i].Clear? ==> Idle(After(steps[..i]))
    ensures ClearsQuietly([], steps)
    decreases |steps|
  {
    if steps != [] {
      var before := steps[..|steps| - 1];
      assert [] + before == before;
      forall i | 0 <= i < |before| && before[i].Clear? ensures Idle(After(before[..i])) {
        assert before[i] == steps[i] && before[..i] == steps[..i];
      }
      SerialClearsAreQuiet(before);
      InvAlways(before);
      forall p | steps[|before|].Clear? && p in After(before).promises ensures !p.InFlight() {
        if p.InFlight() { InFlightIsAwaited(After(before), p); }
      }
    }
  }
}
