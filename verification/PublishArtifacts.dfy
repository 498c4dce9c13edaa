/** Which build a test run finds on its container. The publish cache knows container and app id but no
    artifact, so two plans with one app id share a publish. */
module PublishArtifacts {
  import opened PrereqSearch
  import opened PublishProtocol

  /** The plans that may be resolved, each with the number of clears before. */
  type Plans = iset<(nat, Plan)>

  /** Plans that calls can have. */
  ghost predicate Usable(plans: Plans) {
    forall x :: x in plans ==> x.1.Valid() && '|' !in x.1.job.task
  }

  ghost predicate SameBuilds(p: Plan, r: Plan) {
    forall b, b' :: b in p.apps && b' in r.apps && b.app.id == b'.app.id ==> b == b'
  }

  /** Plans for the same stretch between two clears agree on the build of every app they share. */
  ghost predicate Agreed(plans: Plans) {
    forall x, y :: x in plans && y in plans && x.0 == y.0 ==> SameBuilds(x.1, y.1)
  }

  /** The caches are cleared only while no verify call runs, and only these plans are resolved. */
  ghost predicate Allowed(steps: seq<Step>, plans: Plans) {
    && (forall i :: 0 <= i < |steps| && steps[i].Clear? ==> Idle(After(steps[..i])))
    && (forall i :: 0 <= i < |steps| && steps[i].Resolve? ==> (After(steps[..i]).epoch, steps[i].plan) in plans)
  }

  /** The build was published to the container since the last clear. */
  ghost predicate Fresh(s: State, container: Container, b: Built) {
    exists q :: q in s.promises && q.status == Done && q.epoch == s.epoch && q.container == container && q.app == b
  }

  /** The build is on the container since the last clear, and no other build of its app is. */
  ghost predicate OnlyBuild(s: State, container: Container, b: Built) {
    && Fresh(s, container, b)
    && forall q :: q in s.promises && q.epoch == s.epoch && q.Target() == (container, b.app.id) ==> q.app == b
  }

  /** The call has walked its whole plan: its next turn starts the tests. */
  predicate AtTests(s: State, c: nat) {
    c < |s.calls| && s.calls[c].phase.Publishing? && s.calls[c].phase.next == |s.calls[c].phase.plan.apps|
  }

  ghost predicate OwnBuilds(s: State) {
    forall c: nat, b :: AtTests(s, c) && b in s.calls[c].phase.plan.apps ==> OnlyBuild(s, s.calls[c].container, b)
  }

  lemma TestsAreNext(s: State, c: nat)
    requires Inv(s) && c < |s.calls|
    ensures AtTests(s, c) <==> !s.calls[c].phase.Succeeded? && Apply(s, Advance(c)).calls[c].phase.Succeeded?
  {
    assert CallOk(s, s.calls[c]);
  }

  // ---------- Invariant of the allowed runs ----------

  /** Some plan of that stretch has the build. */
  ghost predicate Planned(b: Built, epoch: nat, plans: Plans) {
    exists r :: (epoch, r) in plans && b in r.apps
  }

  ghost predicate CallFits(s: State, c: Call, plans: Plans) {
    c.phase.HasPlan() ==>
      && (s.epoch, c.phase.plan) in plans && c.phase.next <= |c.phase.plan.apps|
      && (forall j :: 0 <= j < c.phase.next ==> Fresh(s, c.container, c.phase.plan.apps[j]))
      && (c.phase.Awaiting? ==> c.phase.promise < |s.promises| && s.promises[c.phase.promise].epoch == s.epoch)
  }

  ghost predicate AllFit(s: State, plans: Plans) {
    && (forall p :: p in s.promises ==> Planned(p.app, p.epoch, plans))
    && (forall k :: k in s.publishedCache ==>
          s.publishedCache[k] < |s.promises| && s.promises[s.publishedCache[k]].epoch == s.epoch)
    && (forall k :: k in s.planCache ==> (s.epoch, s.planCache[k]) in plans)
    && (forall c :: c in s.calls ==> CallFits(s, c, plans))
  }

  /** More promises, or one further on, keep what was published. */
  ghost predicate Grown(s: State, t: State) {
    && t.epoch == s.epoch && |s.promises| <= |t.promises|
    && forall i :: 0 <= i < |s.promises| ==>
         && t.promises[i].epoch == s.promises[i].epoch
         && (s.promises[i].status == Done ==> t.promises[i] == s.promises[i])
  }

  lemma GrownKeepsFresh(s: State, t: State, container: Container, b: Built)
    requires Grown(s, t) && Fresh(s, container, b)
    ensures Fresh(t, container, b)
  {
    var q :| q in s.promises && q.status == Done && q.epoch == s.epoch && q.container == container && q.app == b;
    var i :| 0 <= i < |s.promises| && s.promises[i] == q;
    assert t.promises[i] == q;
  }

  lemma GrownKeepsCalls(s: State, t: State, c: Call, plans: Plans)
    requires Grown(s, t) && CallFits(s, c, plans)
    ensures CallFits(t, c, plans)
  {
    if c.phase.HasPlan() {
      forall j | 0 <= j < c.phase.next ensures Fresh(t, c.container, c.phase.plan.apps[j]) {
        GrownKeepsFresh(s, t, c.container, c.phase.plan.apps[j]);
      }
    }
  }

  /** A step that changes one call, or none, and otherwise only grows. */
  lemma CallsFit(s: State, t: State, c: nat, plans: Plans)
    requires AllFit(s, plans) && Grown(s, t) && c < |t.calls| && |s.calls| <= |t.calls| <= |s.calls| + 1
    requires forall i :: 0 <= i < |t.calls| && i != c ==> i < |s.calls| && t.calls[i] == s.calls[i]
    requires CallFits(t, t.calls[c], plans)
    ensures forall x :: x in t.calls ==> CallFits(t, x, plans)
  {
    forall x | x in t.calls ensures CallFits(t, x, plans) {
      var i :| 0 <= i < |t.calls| && t.calls[i] == x;
      if i != c {
        assert s.calls[i] in s.calls;
        GrownKeepsCalls(s, t, x, plans);
      }
    }
  }

  /** A call that neither publishes nor walks on keeps what it has. */
  lemma WaitsFits(s: State, c: nat, phase: Phase, plans: Plans)
    requires AllFit(s, plans) && c < |s.calls| && CallFits(s, s.calls[c].(phase := phase), plans)
    ensures AllFit(WithPhase(s, c, phase), plans)
  {
    var t := WithPhase(s, c, phase);
    GrownKeepsCalls(s, t, s.calls[c].(phase := phase), plans);
    CallsFit(s, t, c, plans);
  }

  lemma NewPromise(s: State, t: State, c: nat)
    requires StartsPublish(s, c) && t == DoAdvance(s, c)
    ensures Grown(s, t) && |t.promises| == |s.promises| + 1
    ensures forall p :: p in t.promises ==> p in s.promises || p == t.promises[|s.promises|]
  {
    assert t.promises[..|s.promises|] == s.promises;
    forall i | 0 <= i < |s.promises| ensures t.promises[i] == s.promises[i] {
      assert t.promises[i] == t.promises[..|s.promises|][i];
    }
  }

  lemma PublishFits(s: State, c: nat, plans: Plans)
    requires AllFit(s, plans) && StartsPublish(s, c)
    ensures AllFit(DoAdvance(s, c), plans)
  {
    var t, call := DoAdvance(s, c), s.calls[c];
    assert call in s.calls;
    NewPromise(s, t, c);
    assert call.phase.plan.apps[call.phase.next] in call.phase.plan.apps;
    GrownKeepsCalls(s, t, call, plans);
    CallsFit(s, t, c, plans);
  }

  lemma AdvanceFits(s: State, c: nat, plans: Plans)
    requires AllFit(s, plans) && Enabled(s, Advance(c))
    ensures AllFit(DoAdvance(s, c), plans)
  {
    assert s.calls[c] in s.calls;
    if StartsPublish(s, c) {
      PublishFits(s, c, plans);
    } else {
      WaitsFits(s, c, DoAdvance(s, c).calls[c].phase, plans);
    }
  }

  lemma PlannedIsOwn(b: Built, epoch: nat, plan: Plan, own: Built, plans: Plans)
    requires Agreed(plans) && Planned(b, epoch, plans) && (epoch, plan) in plans
    requires own in plan.apps && b.app.id == own.app.id
    ensures b == own
  {
    var r :| (epoch, r) in plans && b in r.apps;
    assert SameBuilds((epoch, r).1, (epoch, plan).1);
  }

  /** Agreement is what lets a call walk on past a publish that another call started. */
  lemma WalksOnFits(s: State, call: Call, plans: Plans)
    requires CallOk(s, call) && AllFit(s, plans) && CallFits(s, call, plans) && Agreed(plans)
    requires call.phase.Awaiting? && s.promises[call.phase.promise].status == Done
    ensures CallFits(s, call.(phase := Publishing(call.phase.plan, call.phase.next + 1)), plans)
  {
    var Awaiting(plan, next, p) := call.phase;
    assert s.promises[p] in s.promises && plan.apps[next] in plan.apps;
    PlannedIsOwn(s.promises[p].app, s.epoch, plan, plan.apps[next], plans);
    assert Fresh(s, call.container, plan.apps[next]);
  }

  lemma ResumeFits(s: State, c: nat, plans: Plans)
    requires CallsOk(s) && AllFit(s, plans) && Agreed(plans) && Enabled(s, Resume(c))
    ensures AllFit(DoResume(s, c), plans)
  {
    var call := s.calls[c];
    assert call in s.calls && CallOk(s, call) && CallFits(s, call, plans);
    if s.promises[call.phase.promise].status == Done {
      WalksOnFits(s, call, plans);
      WaitsFits(s, c, Publishing(call.phase.plan, call.phase.next + 1), plans);
    } else {
      WaitsFits(s, c, Aborted, plans);
    }
  }

  lemma PromiseFits(s: State, t: State, p: nat, plans: Plans)
    requires AllFit(s, plans) && p < |s.promises| && s.promises[p].status != Done
    requires t == s.(promises := t.promises, publishedCache := t.publishedCache, published := t.published)
    requires |t.promises| == |s.promises|
    requires t.promises == s.promises[p := s.promises[p].(status := t.promises[p].status)]
    requires t.publishedCache == s.publishedCache || t.publishedCache == s.publishedCache - {s.promises[p].Key()}
    ensures AllFit(t, plans)
  {
    assert s.promises[p] in s.promises;
    forall q | q in t.promises ensures Planned(q.app, q.epoch, plans) {
      assert q in s.promises || q == t.promises[p];
    }
    forall x | x in t.calls ensures CallFits(t, x, plans) { GrownKeepsCalls(s, t, x, plans); }
  }

  lemma ArriveFits(s: State, container: Container, job: Job, plans: Plans)
    requires AllFit(s, plans)
    ensures AllFit(DoArrive(s, container, job), plans)
  {
    CallsFit(s, DoArrive(s, container, job), |s.calls|, plans);
  }

  lemma ResolveFits(s: State, c: nat, plan: Plan, plans: Plans)
    requires AllFit(s, plans) && c < |s.calls| && (s.epoch, plan) in plans
    ensures AllFit(DoResolve(s, c, plan), plans)
  {
    CallsFit(s, DoResolve(s, c, plan), c, plans);
  }

  lemma ClearFits(s: State, plans: Plans)
    requires AllFit(s, plans) && Idle(s)
    ensures AllFit(DoClear(s), plans)
  {
    forall c | c in s.calls ensures CallFits(DoClear(s), c, plans) { assert !c.phase.HasPlan(); }
  }

  lemma StepFits(s: State, step: Step, plans: Plans)
    requires Inv(s) && AllFit(s, plans) && Agreed(plans) && (step.Clear? ==> Idle(s))
    requires step.Resolve? ==> (s.epoch, step.plan) in plans
    ensures AllFit(Apply(s, step), plans)
  {
    if Enabled(s, step) {
      match step
      case Arrive(container, job) => ArriveFits(s, container, job, plans);
      case Resolve(c, plan) => ResolveFits(s, c, plan, plans);
      case Abort(c) => WaitsFits(s, c, Aborted, plans);
      case Advance(c) => AdvanceFits(s, c, plans);
      case Settle(p, ok) => PromiseFits(s, DoSettle(s, p, ok), p, plans);
      case HandleRejection(p) => PromiseFits(s, DoHandleRejection(s, p), p, plans);
      case Resume(c) => ResumeFits(s, c, plans);
      case Clear => ClearFits(s, plans);
    }
  }

  lemma AllowedBefore(before: seq<Step>, last: Step, plans: Plans)
    ensures Allowed(before + [last], plans) <==>
            && Allowed(before, plans) && (last.Clear? ==> Idle(After(before)))
            && (last.Resolve? ==> (After(before).epoch, last.plan) in plans)
  {
    var steps := before + [last];
    assert steps[..|before|] == before && steps[|before|] == last;
    assert forall i :: 0 <= i < |before| ==> before[i] == steps[i] && before[..i] == steps[..i];
  }

  lemma {:induction false} AlwaysFits(steps: seq<Step>, plans: Plans)
    requires Allowed(steps, plans) && Agreed(plans)
    ensures AllFit(After(steps), plans)
    decreases |steps|
  {
    if steps != [] {
      var before, last := steps[..|steps| - 1], steps[|steps| - 1];
      assert steps == before + [last];
      AllowedBefore(before, last, plans);
      AlwaysFits(before, plans);
      InvAlways(before);
      StepFits(After(before), last, plans);
    }
  }

  // ---------- What a publish sends ----------

  /** The plans that the steps resolve. */
  ghost function ResolvedBy(steps: seq<Step>): iset<Plan> {
    iset i | 0 <= i < |steps| && steps[i].Resolve? :: steps[i].plan
  }

  ghost predicate Sourced(s: State, plans: iset<Plan>) {
    && (forall p :: p in s.promises ==> exists r :: r in plans && r.Valid() && p.app in r.apps)
    && (forall k :: k in s.planCache ==> s.planCache[k] in plans)
    && (forall c :: c in s.calls && c.phase.HasPlan() ==> c.phase.plan in plans)
  }

  lemma StepSourced(s: State, step: Step, plans: iset<Plan>)
    requires Inv(s) && Sourced(s, plans) && (step.Resolve? ==> step.plan in plans)
    ensures Sourced(Apply(s, step), plans)
  {
    var t := Apply(s, step);
    forall p | p in t.promises ensures exists r :: r in plans && r.Valid() && p.app in r.apps {
      PromiseSourced(s, step, p, plans);
    }
    forall c | c in t.calls && c.phase.HasPlan() ensures c.phase.plan in plans {
      CallSourced(s, step, c, plans);
    }
    forall k | k in t.planCache ensures t.planCache[k] in plans {
      CacheSourced(s, step, k, plans);
    }
  }

  lemma PromiseSourced(s: State, step: Step, p: Promise, plans: iset<Plan>)
    requires Inv(s) && Sourced(s, plans) && p in Apply(s, step).promises
    ensures exists r :: r in plans && r.Valid() && p.app in r.apps
  {
    PromiseOrigin(s, step, p);
  }

  lemma CallSourced(s: State, step: Step, c: Call, plans: iset<Plan>)
    requires Inv(s) && Sourced(s, plans) && (step.Resolve? ==> step.plan in plans)
    requires c in Apply(s, step).calls && c.phase.HasPlan()
    ensures c.phase.plan in plans
  {
    if c !in s.calls { CallOrigin(s, step, c); }
  }

  lemma CacheSourced(s: State, step: Step, k: string, plans: iset<Plan>)
    requires Sourced(s, plans) && (step.Resolve? ==> step.plan in plans) && k in Apply(s, step).planCache
    ensures Apply(s, step).planCache[k] in plans
  {}

  /** A promise was there before, has only gone on, or is for an app of a call's plan. */
  lemma PromiseOrigin(s: State, step: Step, p: Promise)
    requires Inv(s) && p in Apply(s, step).promises
    ensures || (exists q :: q in s.promises && q.app == p.app)
            || (exists c :: c in s.calls && c.phase.HasPlan() && c.phase.plan.Valid() && p.app in c.phase.plan.apps)
  {
    var t := Apply(s, step);
    var i :| 0 <= i < |t.promises| && t.promises[i] == p;
    if i < |s.promises| {
      assert s.promises[i] in s.promises;
      AppsKept(s, step, i);
    } else {
      assert s.calls[step.call] in s.calls && CallOk(s, s.calls[step.call]);
    }
  }

  lemma AppsKept(s: State, step: Step, i: nat)
    requires i < |s.promises|
    ensures i < |Apply(s, step).promises| && Apply(s, step).promises[i].app == s.promises[i].app
  {}

  lemma CallOrigin(s: State, step: Step, c: Call)
    requires c in Apply(s, step).calls && c !in s.calls && c.phase.HasPlan()
    ensures || (step.Resolve? && c.phase.plan == step.plan)
            || (exists k :: k in s.planCache && s.planCache[k] == c.phase.plan)
            || (exists d :: d in s.calls && d.phase.HasPlan() && d.phase.plan == c.phase.plan)
  {
    var t := Apply(s, step);
    var i :| 0 <= i < |t.calls| && t.calls[i] == c;
    assert i < |s.calls| ==> s.calls[i] in s.calls;
  }

  lemma {:induction false} AlwaysSourced(steps: seq<Step>, plans: iset<Plan>)
    requires ResolvedBy(steps) <= plans
    ensures Sourced(After(steps), plans)
    decreases |steps|
  {
    if steps != [] {
      var before, last := steps[..|steps| - 1], steps[|steps| - 1];
      forall plan | plan in ResolvedBy(before) ensures plan in ResolvedBy(steps) {
        var i :| 0 <= i < |before| && before[i].Resolve? && before[i].plan == plan;
        assert steps[i] == before[i];
      }
      AlwaysSourced(before, plans);
      InvAlways(before);
      StepSourced(After(before), last, plans);
    }
  }

  /** In every run, whatever is published to a container is an app of a plan that some step resolved, and
      the file that compiling this app for that plan produced. */
  lemma PublishesCompiledFiles(steps: seq<Step>, p: Promise)
    requires p in After(steps).promises
    ensures exists plan :: plan in ResolvedBy(steps) && p.app in plan.apps && p.app.app in plan.order
                           && IsOutput(p.app, plan.compile)
  {
    AlwaysSourced(steps, ResolvedBy(steps));
    var plan :| plan in ResolvedBy(steps) && plan.Valid() && p.app in plan.apps;
    OutputsKept(plan.order, plan.compile);
  }

  // ---------- Agreement suffices ----------

  lemma WalkedBuilds(s: State, c: nat, plans: Plans)
    requires AllFit(s, plans) && Agreed(plans) && AtTests(s, c)
    ensures forall b :: b in s.calls[c].phase.plan.apps ==> OnlyBuild(s, s.calls[c].container, b)
  {
    var call := s.calls[c];
    assert call in s.calls && CallFits(s, call, plans);
    forall b | b in call.phase.plan.apps ensures OnlyBuild(s, call.container, b) {
      var j :| 0 <= j < |call.phase.plan.apps| && call.phase.plan.apps[j] == b;
      forall q | q in s.promises && q.epoch == s.epoch && q.Target() == (call.container, b.app.id) ensures q.app == b {
        PlannedIsOwn(q.app, s.epoch, call.phase.plan, b, plans);
      }
    }
  }

  lemma TestsRunOnOwnBuilds(steps: seq<Step>, plans: Plans)
    requires Allowed(steps, plans) && Agreed(plans)
    ensures OwnBuilds(After(steps))
  {
    AlwaysFits(steps, plans);
    var s := After(steps);
    forall c: nat | AtTests(s, c)
      ensures forall b :: b in s.calls[c].phase.plan.apps ==> OnlyBuild(s, s.calls[c].container, b)
    {
      WalkedBuilds(s, c, plans);
    }
  }

  /** With agreement, whenever a call starts a publish, the plan's own build of every transitive
      dependency that has one is on the container since the last clear. */
  lemma DependencyBuildsFirst(steps: seq<Step>, plans: Plans, c: nat, d: AppId)
    requires Allowed(steps, plans) && Agreed(plans) && StartsPublish(After(steps), c)
    requires
      var phase := After(steps).calls[c].phase;
      var app := phase.plan.apps[phase.next].app;
      && phase.plan.project.Some? && phase.plan.project.value.Acyclic()
      && d != app.id && phase.plan.project.value.Reaches(app.id, d)
    ensures
      var call := After(steps).calls[c];
      && d in call.phase.plan.compile
      && (HasArtifact(call.phase.plan.compile[d]) ==>
            exists b :: b in call.phase.plan.apps && b.app.id == d && Fresh(After(steps), call.container, b))
  {
    var s := After(steps);
    InvAlways(steps);
    AlwaysFits(steps, plans);
    assert s.calls[c] in s.calls && CallOk(s, s.calls[c]);
    DependencyIsFresh(s, s.calls[c], plans, d);
  }

  lemma DependencyIsFresh(s: State, call: Call, plans: Plans, d: AppId)
    requires call.phase.Publishing? && call.phase.plan.Valid() && CallFits(s, call, plans)
    requires call.phase.next < |call.phase.plan.apps|
    requires
      var app := call.phase.plan.apps[call.phase.next].app;
      && call.phase.plan.project.Some? && call.phase.plan.project.value.Acyclic()
      && d != app.id && call.phase.plan.project.value.Reaches(app.id, d)
    ensures d in call.phase.plan.compile
    ensures HasArtifact(call.phase.plan.compile[d]) ==>
              exists b :: b in call.phase.plan.apps && b.app.id == d && Fresh(s, call.container, b)
  {
    var Publishing(plan, next) := call.phase;
    DependencyListedBefore(plan, next, d);
    if HasArtifact(plan.compile[d]) {
      var m :| 0 <= m < next && BuiltIds(plan.apps[..next])[m] == d;
      assert plan.apps[m] in plan.apps && Fresh(s, call.container, plan.apps[m]);
    }
  }

  // ---------- Agreement is necessary ----------

  /** Between two clears at most one build of an app gets onto a container. */
  lemma OneBuildFresh(s: State, container: Container, b: Built, b': Built)
    requires Owned(s) && Fresh(s, container, b) && Fresh(s, container, b') && b.app.id == b'.app.id
    ensures b == b'
  {
    var q :| q in s.promises && q.status == Done && q.epoch == s.epoch && q.container == container && q.app == b;
    var q' :| q' in s.promises && q'.status == Done && q'.epoch == s.epoch && q'.container == container && q'.app == b';
    var i :| 0 <= i < |s.promises| && s.promises[i] == q;
    var i' :| 0 <= i' < |s.promises| && s.promises[i'] == q';
    assert Live(s, s.promises[i]) && Live(s, s.promises[i']);
    assert q.Key() == q'.Key();
  }

  ghost predicate AllDone(s: State) {
    forall p :: p in s.promises ==> p.status == Done
  }

  /** Call `c` has walked up to its `n`th app, everything published stays, and nothing else changed. */
  ghost predicate WalkedTo(s: State, t: State, c: nat, n: nat)
    requires c < |s.calls| && s.calls[c].phase.Publishing?
  {
    && AllDone(t) && t.epoch == s.epoch && s.promises <= t.promises
    && t.calls == s.calls[c := s.calls[c].(phase := Publishing(s.calls[c].phase.plan, n))]
  }

  /** One app: publish it and let that succeed, unless it is there already. */
  lemma OneRound(s: State, c: nat) returns (q: nat)
    requires Inv(s) && AllDone(s) && c < |s.calls| && s.calls[c].phase.Publishing?
    requires s.calls[c].phase.next < |s.calls[c].phase.plan.apps|
    ensures WalkedTo(s, ApplyAll(s, Round(c, q)), c, s.calls[c].phase.next + 1)
  {
    q := if StartsPublish(s, c) then |s.promises| else DoAdvance(s, c).calls[c].phase.promise;
    ApplyRound(s, c, q);
    if StartsPublish(s, c) { RoundPublishes(s, c); } else { RoundFinds(s, c); }
  }

  lemma RoundPublishes(s: State, c: nat)
    requires AllDone(s) && StartsPublish(s, c)
    ensures
      var q := |s.promises|;
      WalkedTo(s, Apply(Apply(Apply(s, Advance(c)), Settle(q, true)), Resume(c)), c, s.calls[c].phase.next + 1)
  {
    var q, u := |s.promises|, Apply(s, Advance(c));
    var v := Apply(u, Settle(q, true));
    assert v.promises == s.promises + [u.promises[q].(status := Done)];
    assert v.calls[c].phase == Awaiting(s.calls[c].phase.plan, s.calls[c].phase.next, q);
    var w := Apply(v, Resume(c));
    assert w.calls == s.calls[c := w.calls[c]];
  }

  lemma RoundFinds(s: State, c: nat)
    requires Inv(s) && AllDone(s) && Enabled(s, Advance(c)) && !StartsPublish(s, c)
    requires s.calls[c].phase.next < |s.calls[c].phase.plan.apps|
    ensures
      var q := DoAdvance(s, c).calls[c].phase.promise;
      WalkedTo(s, Apply(Apply(Apply(s, Advance(c)), Settle(q, true)), Resume(c)), c, s.calls[c].phase.next + 1)
  {
    var u := Apply(s, Advance(c));
    var q := u.calls[c].phase.promise;
    assert s.promises[q] in s.promises;
    assert Apply(u, Settle(q, true)) == u;
    assert Apply(u, Resume(c)).calls == s.calls[c := Apply(u, Resume(c)).calls[c]];
  }

  lemma {:induction false} InvApplyAll(s: State, steps: seq<Step>)
    requires Inv(s)
    ensures Inv(ApplyAll(s, steps))
    decreases |steps|
  {
    if steps != [] {
      InvApplyAll(s, steps[..|steps| - 1]);
      InvStep(ApplyAll(s, steps[..|steps| - 1]), steps[|steps| - 1]);
    }
  }

  ghost predicate OnlyWalks(steps: seq<Step>) {
    forall step :: step in steps ==> !step.Clear? && !step.Resolve?
  }

  /** Undisturbed, a call walks to its tests. */
  lemma {:induction false} WalksToTests(s: State, c: nat) returns (more: seq<Step>)
    requires Inv(s) && AllDone(s) && c < |s.calls| && s.calls[c].phase.Publishing?
    requires s.calls[c].phase.next <= |s.calls[c].phase.plan.apps|
    ensures OnlyWalks(more) && WalkedTo(s, ApplyAll(s, more), c, |s.calls[c].phase.plan.apps|)
    decreases |s.calls[c].phase.plan.apps| - s.calls[c].phase.next
  {
    if s.calls[c].phase.next == |s.calls[c].phase.plan.apps| {
      more := [];
    } else {
      var q := OneRound(s, c);
      var t := ApplyAll(s, Round(c, q));
      InvApplyAll(s, Round(c, q));
      var rest := WalksToTests(t, c);
      ApplyAllConcat(s, Round(c, q), rest);
      more := Round(c, q) + rest;
    }
  }

  lemma {:induction false} WalksAllowed(steps: seq<Step>, more: seq<Step>, plans: Plans)
    requires Allowed(steps, plans) && OnlyWalks(more)
    ensures Allowed(steps + more, plans)
    decreases |more|
  {
    if more == [] {
      assert steps + more == steps;
    } else {
      var before, last := more[..|more| - 1], more[|more| - 1];
      WalksAllowed(steps, before, plans);
      AllowedBefore(steps + before, last, plans);
      assert steps + more == (steps + before) + [last];
    }
  }

  lemma {:induction false} ClearsFirst(epoch: nat, plans: Plans) returns (steps: seq<Step>)
    ensures Allowed(steps, plans) && After(steps) == INIT.(epoch := epoch)
    decreases epoch
  {
    if epoch == 0 {
      steps := [];
    } else {
      var before := ClearsFirst(epoch - 1, plans);
      AllowedBefore(before, Clear, plans);
      AfterLast(before, Clear);
      steps := before + [Clear];
    }
  }

  lemma AfterLast(before: seq<Step>, last: Step)
    ensures After(before + [last]) == Apply(After(before), last)
  {
    assert (before + [last])[..|before|] == before;
  }

  /** Two calls arrive at a container between two clears, and the first has its plan. */
  lemma TwoArrive(epoch: nat, container: Container, p: Plan, r: Plan) returns (steps: seq<Step>)
    requires p.Valid() && '|' !in p.job.task && '|' !in r.job.task
    ensures Allowed(steps, iset{(epoch, p)})
    ensures After(steps).calls == [Call(container, p.job, Publishing(p, 0)), Call(container, r.job, Resolving)]
    ensures After(steps).promises == [] && After(steps).epoch == epoch
  {
    var plans: Plans := iset{(epoch, p)};
    var clears := ClearsFirst(epoch, plans);
    var first := clears + [Arrive(container, p.job)];
    var both := first + [Arrive(container, r.job)];
    AllowedBefore(clears, Arrive(container, p.job), plans);
    AfterLast(clears, Arrive(container, p.job));
    AllowedBefore(first, Arrive(container, r.job), plans);
    AfterLast(first, Arrive(container, r.job));
    AllowedBefore(both, Resolve(0, p), plans);
    AfterLast(both, Resolve(0, p));
    steps := both + [Resolve(0, p)];
  }

  lemma PlanAgreesWithItself(epoch: nat, p: Plan)
    requires p.Valid()
    ensures Agreed(iset{(epoch, p)})
  {
    assert forall x :: x in iset{(epoch, p)} ==> x.1 == p;
    forall b, b' | b in p.apps && b' in p.apps && b.app.id == b'.app.id ensures b == b' {
      var i :| 0 <= i < |p.apps| && p.apps[i] == b;
      var j :| 0 <= j < |p.apps| && p.apps[j] == b';
      if i < j { PlanIdsDistinct(p, i, j); }
      if j < i { PlanIdsDistinct(p, j, i); }
    }
  }

  lemma AllowedMore(steps: seq<Step>, plans: Plans, more: Plans)
    requires Allowed(steps, plans) && plans <= more
    ensures Allowed(steps, more)
  {}

  /** The first call publishes its builds and gets to its tests, the second still has no plan. */
  lemma FirstPublishes(epoch: nat, container: Container, p: Plan, r: Plan, b: Built) returns (steps: seq<Step>)
    requires p.Valid() && '|' !in p.job.task && '|' !in r.job.task && b in p.apps
    ensures Allowed(steps, iset{(epoch, p)}) && Fresh(After(steps), container, b)
    ensures After(steps).epoch == epoch && AllDone(After(steps))
    ensures |After(steps).calls| == 2 && After(steps).calls[1] == Call(container, r.job, Resolving)
  {
    var start := TwoArrive(epoch, container, p, r);
    InvAlways(start);
    var more := WalksToTests(After(start), 0);
    steps := start + more;
    AfterApplyAll(start, more);
    WalksAllowed(start, more, iset{(epoch, p)});
    PlanAgreesWithItself(epoch, p);
    TestsRunOnOwnBuilds(steps, iset{(epoch, p)});
    assert AtTests(After(steps), 0);
  }

  /** Two plans with different builds of one app: a run without a clear between their calls takes the
      call on the second plan to its tests while the first plan's build is on the container, and its own
      was not published since the last clear. */
  lemma OtherBuildTested(epoch: nat, container: Container, p: Plan, r: Plan, b: Built, b': Built)
    returns (steps: seq<Step>)
    requires p.Valid() && r.Valid() && '|' !in p.job.task && '|' !in r.job.task
    requires b in p.apps && b' in r.apps && b.app.id == b'.app.id && b != b'
    ensures Allowed(steps, iset{(epoch, p), (epoch, r)}) && After(steps).epoch == epoch
    ensures AtTests(After(steps), 1) && After(steps).calls[1] == Call(container, r.job, Publishing(r, |r.apps|))
    ensures Fresh(After(steps), container, b) && !Fresh(After(steps), container, b')
  {
    var plans: Plans := iset{(epoch, p), (epoch, r)};
    var first := FirstPublishes(epoch, container, p, r, b);
    AllowedMore(first, iset{(epoch, p)}, plans);
    AllowedBefore(first, Resolve(1, r), plans);
    AfterLast(first, Resolve(1, r));
    var resolved := first + [Resolve(1, r)];
    InvAlways(resolved);
    var more := WalksToTests(After(resolved), 1);
    steps := resolved + more;
    AfterApplyAll(resolved, more);
    WalksAllowed(resolved, more, plans);
    GrownKeepsFresh(After(first), After(steps), container, b);
    AllowedOwned(steps, plans);
    if Fresh(After(steps), container, b') { OneBuildFresh(After(steps), container, b, b'); }
  }

  lemma AllowedOwned(steps: seq<Step>, plans: Plans)
    requires Allowed(steps, plans)
    ensures Owned(After(steps))
  {
    SerialClearsAreQuiet(steps);
    OwnedAlways(steps);
  }

  lemma DifferentBuildsFail(plans: Plans, epoch: nat, p: Plan, r: Plan)
    requires Usable(plans) && (epoch, p) in plans && (epoch, r) in plans && !SameBuilds(p, r)
    ensures exists steps :: Allowed(steps, plans) && !OwnBuilds(After(steps))
  {
    var b, b' :| b in p.apps && b' in r.apps && b.app.id == b'.app.id && b != b';
    assert (epoch, p).1.Valid() && (epoch, r).1.Valid();
    var steps := OtherBuildTested(epoch, "", p, r, b, b');
    AllowedMore(steps, iset{(epoch, p), (epoch, r)}, plans);
    assert !OnlyBuild(After(steps), "", b');
  }

  /** If clears come between calls only, every call gets to its tests on its own builds, and on no
      other builds of those apps, in every run that resolves only these plans, exactly when the plans
      agree on the build of every app that two of them share between the same clears. */
  lemma OwnBuildsExactlyWhenAgreed(plans: Plans)
    requires Usable(plans)
    ensures Agreed(plans) <==> forall steps :: Allowed(steps, plans) ==> OwnBuilds(After(steps))
  {
    if Agreed(plans) {
      forall steps | Allowed(steps, plans) ensures OwnBuilds(After(steps)) { TestsRunOnOwnBuilds(steps, plans); }
    } else {
      var x, y :| x in plans && y in plans && x.0 == y.0 && !SameBuilds(x.1, y.1);
      DifferentBuildsFail(plans, x.0, x.1, y.1);
    }
  }
}
