/** The dashboard's escalation adapter (`createEscalationVerify` in
    `cli/commands/workbench-command.ts`): jobs run one after the other, each clears the prereq
    caches and makes sure its container went through one successful preflight. */
module Escalation {
  import opened Wrappers
  import opened PublishProtocol
  import opened PrereqServer

  /** One call of the preflight and how it ended. */
  datatype Preflight = Preflight(container: Container, ok: bool)

  ghost predicate Prepared(log: seq<Preflight>, container: Container) {
    Preflight(container, true) in log
  }

  /** No container is prepared again once a preflight of it succeeded. */
  ghost predicate NeverAgain(log: seq<Preflight>) {
    forall i, j :: 0 <= i < j < |log| && log[i].ok ==> log[i].container != log[j].container
  }

  lemma Logged(log: seq<Preflight>, p: Preflight)
    ensures forall c :: Prepared(log + [p], c) <==> Prepared(log, c) || p == Preflight(c, true)
    ensures NeverAgain(log) && !Prepared(log, p.container) ==> NeverAgain(log + [p])
  {
    var more := log + [p];
    assert forall x :: x in more <==> x in log || x == p;
    if NeverAgain(log) && !Prepared(log, p.container) {
      forall i, j | 0 <= i < j < |more| && more[i].ok ensures more[i].container != more[j].container {
        assert more[i] == log[i] && log[i] in log;
        if more[i].container == p.container { assert log[i] == Preflight(p.container, true); }
      }
    }
  }

  class EscalationVerify {
    const server: VerifyServer
    const defaultContainer: Option<Container>
    /** The preflight promise kept for each container, by its place in the log. */
    var prepared: map<Container, nat>
    /** Every preflight started so far. */
    var log: seq<Preflight>

    constructor (server: VerifyServer, defaultContainer: Option<Container>)
      ensures Valid() && this.server == server && this.defaultContainer == defaultContainer && log == []
    {
      this.server, this.defaultContainer := server, defaultContainer;
      prepared, log := map[], [];
    }

    /** Between jobs the map holds the successful preflights and nothing else. */
    ghost predicate Valid()
      reads this
    {
      && (forall c :: c in prepared ==> prepared[c] < |log| && log[prepared[c]] == Preflight(c, true))
      && (forall c :: Prepared(log, c) ==> c in prepared)
      && NeverAgain(log)
    }

    /** The part of a job before its verify call. The queue is serial, so no verify call runs.
        `ok` is how a preflight would end; `proceeds` is false when the job throws. */
    method StartJob(named: Option<Container>, ok: bool) returns (proceeds: bool)
      requires Valid() && Inv(server.Now()) && Idle(server.Now())
      modifies this, server
      ensures Valid()
      ensures server.Now() == Apply(old(server.Now()), Clear) && Quiescent(old(server.Now()))
      ensures
        var container := if named.Some? then named else defaultContainer;
        && log == (if container.None? || old(Prepared(log, container.value)) then old(log)
                   else old(log) + [Preflight(container.value, ok)])
        && proceeds == (container.None? || Prepared(log, container.value))
    {
      forall p | p in server.promises ensures !p.InFlight() {
        if p.InFlight() { InFlightIsAwaited(server.Now(), p); }
      }
      server.ClearPrereqCaches();
      var container := if named.Some? then named else defaultContainer;
      if container.None? { return true; }
      proceeds := EnsurePrepared(container.value, ok);
    }

    method EnsurePrepared(c: Container, ok: bool) returns (proceeds: bool)
      requires Valid()
      modifies this
      ensures Valid()
      ensures log == if old(Prepared(log, c)) then old(log) else old(log) + [Preflight(c, ok)]
      ensures proceeds == Prepared(log, c)
    {
      ghost var was := log;
      if c !in prepared {
        log := log + [Preflight(c, ok)];
        prepared := prepared[c := |log| - 1];
        Logged(was, Preflight(c, ok));
      }
      proceeds := log[prepared[c]].ok;
      if !proceeds { prepared := prepared - {c}; }
    }
  }
}
