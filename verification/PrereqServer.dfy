/** The module-level caches and the parts of `handleAlVerify` that touch them, as the code runs
    them; every method is one step of the protocol in `PublishProtocol`. */
module PrereqServer {
  import opened Wrappers
  import opened PrereqSearch
  import opened PublishProtocol

  /** No app id has the separator of the cache keys. */
  ghost predicate PlainIds(main: Option<App>, listing: Listing) {
    (main.Some? ==> ':' !in main.value.id) && forall e :: e in listing && e.Some? ==> ':' !in e.value.id
  }

  class VerifyServer {
    var prereqCache: map<string, Plan>
    var publishedPrereqCache: map<string, nat>
    var promises: seq<Promise>
    var calls: seq<Call>
    /** What the containers hold. */
    ghost var published: set<(Container, AppId)>
    /** How often the caches were cleared; only the specification reads it. */
    var epoch: nat

    ghost function Now(): State
      reads this
    {
      State(calls, promises, publishedPrereqCache, prereqCache, published, epoch)
    }

    constructor ()
      ensures Now() == INIT
    {
      prereqCache, publishedPrereqCache, promises, calls := map[], map[], [], [];
      published, epoch := {}, 0;
    }

    /** A call takes its plan from the cache if one is there. */
    method BeginVerify(container: Container, job: Job) returns (c: nat)
      modifies this
      ensures c == |old(calls)| && Now() == DoArrive(old(Now()), container, job)
      ensures '|' !in job.task ==> Now() == Apply(old(Now()), Arrive(container, job))
    {
      c := |calls|;
      var key := job.PlanKey();
      var phase := Resolving;
      if key in prereqCache { phase := Publishing(prereqCache[key], 0); }
      calls := calls + [Call(container, job, phase)];
    }

    /** On a cache miss: search, compile, and store the plan unless it is empty. */
    method ResolvePrereqs(c: nat, main: Option<App>, listing: Listing, compile: map<AppId, Compile>)
      returns (ok: bool, ghost plan: Plan)
      requires c < |calls| && calls[c].phase.Resolving?
      requires main.Some? ==> main.value.id in compile
      requires forall e :: e in listing && e.Some? ==> e.value.id in compile
      modifies this
      ensures plan.Searched() && (ok <==> plan.Resolved())
      ensures plan.job == old(calls[c].job) && plan.compile == compile
      ensures plan.project == if main.Some? then Some(Project(main.value, listing)) else None
      ensures Now() == if ok then DoResolve(old(Now()), c, plan) else WithPhase(old(Now()), c, Aborted)
      ensures PlainIds(main, listing) ==> Now() == Apply(old(Now()), if ok then Resolve(c, plan) else Abort(c))
    {
      var job := calls[c].job;
      var order := FindAllPrereqApps(main, listing);
      forall a | a in order ensures a.id in compile && (PlainIds(main, listing) ==> ':' !in a.id) {
        assert Project(main.value, listing).AppOf(a.id) == Some(a);
      }
      var compiled := CompilePrereqs(order, compile);
      var project := if main.Some? then Some(Project(main.value, listing)) else None;
      ok := compiled.Prereqs?;
      var found := if ok then compiled.apps else [];
      var built := Plan(job, project, order, compile, found);
      plan := built;
      if ok {
        calls := calls[c := calls[c].(phase := Publishing(built, 0))];
        if |found| > 0 { prereqCache := prereqCache[job.PlanKey() := built]; }
      } else {
        calls := calls[c := calls[c].(phase := Aborted)];
      }
    }

    /** One turn of the publish loop, up to its `await`. */
    method PublishNext(c: nat)
      requires c < |calls| && calls[c].phase.Publishing?
      modifies this
      ensures Now() == Apply(old(Now()), Advance(c))
    {
      var Publishing(plan, next) := calls[c].phase;
      if next >= |plan.apps| {
        calls := calls[c := calls[c].(phase := Succeeded)];
        return;
      }
      var key := CacheKey(calls[c].container, plan.apps[next].app.id);
      var promise: nat;
      if key in publishedPrereqCache {
        promise := publishedPrereqCache[key];
      } else {
        promise := |promises|;
        promises := promises + [Promise(calls[c].container, plan.apps[next], Pending, epoch)];
        publishedPrereqCache := publishedPrereqCache[key := promise];
      }
      calls := calls[c := calls[c].(phase := Awaiting(plan, next, promise))];
    }

    /** The container provider answers a publish. */
    method PublishSettles(p: nat, ok: bool)
      requires p < |promises| && promises[p].status == Pending
      modifies this
      ensures Now() == Apply(old(Now()), Settle(p, ok))
    {
      if ok { published := published + {promises[p].Target()}; }
      promises := promises[p := promises[p].(status := if ok then Done else Rejected)];
    }

    /** The `catch` handler of a publish. */
    method EvictFailedPublish(p: nat)
      requires p < |promises| && promises[p].status == Rejected
      modifies this
      ensures Now() == Apply(old(Now()), HandleRejection(p))
    {
      publishedPrereqCache := publishedPrereqCache - {promises[p].Key()};
      promises := promises[p := promises[p].(status := Handled)];
    }

    /** The publish loop goes on after its `await`, or the call throws. */
    method ResumeCall(c: nat)
      requires Enabled(Now(), Resume(c))
      modifies this
      ensures Now() == Apply(old(Now()), Resume(c))
    {
      var Awaiting(plan, next, p) := calls[c].phase;
      if promises[p].status == Done {
        calls := calls[c := calls[c].(phase := Publishing(plan, next + 1))];
      } else {
        calls := calls[c := calls[c].(phase := Aborted)];
      }
    }

    method ClearPrereqCaches()
      modifies this
      ensures Now() == Apply(old(Now()), Clear)
      ensures prereqCache == map[] && publishedPrereqCache == map[]
    {
      prereqCache := map[];
      publishedPrereqCache := map[];
      epoch := epoch + 1;
    }
  }
}
