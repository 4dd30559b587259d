// Per-session worker clients: recovery tasks, stale clients, and paced reconnection.
module Supervisor {
  import opened Common

  datatype RecoveryTask = RecoveryTask(session: string, done: bool, cancelled: bool)

  /** What a client, current or replaced, can report. */
  datatype ClientEvent =
    | Notification                // a protocol message
    | Disconnected
    | ProbeAnswered
    | ProbeRejected               // the worker answers the probe with an explicit error
    | ProbeLost
    | CallAnswered
    | CallLost                    // timed out, closed, or a failed write

  datatype WorkerState = Starting | Ready | Reconnecting | Degraded | Stopping

  datatype State = State(
    clients: map<string, nat>, reconnect: map<string, nat>, tasks: map<nat, RecoveryTask>,
    restartRequested: set<string>, workers: map<string, WorkerState>,
    probeFailures: map<string, nat>, probeUnsupported: set<string>, stopping: bool)

  const PROBE_FAILURE_LIMIT := 2

  const LOSSES := {Disconnected, ProbeLost, CallLost}

  class SessionSupervisor {
    var clients: map<string, nat>
    var reconnect: map<string, nat>
    var tasks: map<nat, RecoveryTask>
    var restartRequested: set<string>
    var workers: map<string, WorkerState>
    var probeFailures: map<string, nat>
    var probeUnsupported: set<string>
    var stopping: bool

    function Snapshot(): State
      reads this
    {
      State(clients, reconnect, tasks, restartRequested, workers, probeFailures, probeUnsupported, stopping)
    }

    predicate Live(t: nat)
      reads this
    {
      t in tasks && !tasks[t].done && !tasks[t].cancelled
    }

    /** Every recovery task still at work is the one tracked for its session. */
    ghost predicate Valid()
      reads this
    {
      && (forall name :: name in reconnect ==>
        reconnect[name] in tasks && tasks[reconnect[name]].session == name && !tasks[reconnect[name]].cancelled)
      && (forall t :: Live(t) ==> tasks[t].session in reconnect && reconnect[tasks[t].session] == t)
      && (forall name :: name in probeFailures ==> probeFailures[name] > 0)
    }

    constructor ()
      ensures Valid() && Snapshot() == State(map[], map[], map[], {}, map[], map[], {}, false)
    {
      clients, reconnect, tasks, restartRequested := map[], map[], map[], {};
      workers, probeFailures, probeUnsupported, stopping := map[], map[], {}, false;
    }

    predicate Current(name: string, client: nat)
      reads this
    {
      name in clients && clients[name] == client
    }

    /** The recovery tracked for the session is at work. */
    predicate Recovering(name: string)
      reads this
    {
      name in reconnect && Live(reconnect[name])
    }

    /** No recovery is at work that is not tracked. */
    lemma LiveIsTracked(name: string)
      requires Valid()
      ensures Recovering(name) <==> exists t :: Live(t) && tasks[t].session == name
    {
      if Recovering(name) {
        assert Live(reconnect[name]) && tasks[reconnect[name]].session == name;
      }
    }

    /** The lost probes counted for a session. */
    function Failures(name: string): nat
      reads this
    {
      if name in probeFailures then probeFailures[name] else 0
    }

    function ClientOf(name: string): Option<nat>
      reads this
    {
      if name in clients then Some(clients[name]) else None
    }

    /** Never two: one session has at most one recovery at work. */
    lemma OneRecovery(t: nat, u: nat)
      requires Valid() && Live(t) && Live(u) && tasks[t].session == tasks[u].session
      ensures t == u
    {
    }

    /** Start a tracked recovery unless one is at work. */
    method ScheduleRecovery(name: string, restart: bool, newTask: nat)
      requires Valid() && newTask !in tasks
      modifies `reconnect, `tasks, `restartRequested
      ensures Valid() && restartRequested == old(restartRequested) + (if restart then {name} else {})
      ensures if name in old(reconnect) && !old(tasks)[old(reconnect)[name]].done
        then reconnect == old(reconnect) && tasks == old(tasks)
        else reconnect == old(reconnect)[name := newTask] && tasks == old(tasks)[newTask := RecoveryTask(name, false, false)]
    {
      if restart {
        restartRequested := restartRequested + {name};
      }
      if name in reconnect && !tasks[reconnect[name]].done {
        return;
      }
      tasks := tasks[newTask := RecoveryTask(name, false, false)];
      reconnect := reconnect[name := newTask];
    }

    /** One session's part of restoring after a start. */
    method RestoreRecord(name: string, ready: bool, newTask: nat)
      requires Valid() && newTask !in tasks
      modifies this
      ensures Valid()
      ensures (name in old(clients) && ready) || (name in old(reconnect) && !old(tasks)[old(reconnect)[name]].done) ==>
        Snapshot() == old(Snapshot())
      ensures !((name in old(clients) && ready) || (name in old(reconnect) && !old(tasks)[old(reconnect)[name]].done)) ==>
        Snapshot() == old(Snapshot()).(workers := old(workers)[name := Starting], reconnect := old(reconnect)[name := newTask],
                                       tasks := old(tasks)[newTask := RecoveryTask(name, false, false)])
    {
      if name in clients && ready {
        return;
      }
      if name in reconnect && !tasks[reconnect[name]].done {
        return;
      }
      workers := workers[name := Starting];
      tasks := tasks[newTask := RecoveryTask(name, false, false)];
      reconnect := reconnect[name := newTask];
    }

    /** A recovery opens a new client; the previous one is from then on stale. */
    method AdoptClient(name: string, client: nat)
      requires Valid()
      modifies `clients, `restartRequested
      ensures Valid() && clients == old(clients)[name := client] && restartRequested == old(restartRequested) - {name}
      ensures forall c :: c != client ==> !Current(name, c)
    {
      restartRequested := restartRequested - {name};
      clients := clients[name := client];
    }

    method TaskFinishes(t: nat)
      requires Valid() && Live(t)
      modifies `tasks
      ensures Valid() && tasks == old(tasks)[t := old(tasks)[t].(done := true)]
    {
      tasks := tasks[t := tasks[t].(done := true)];
    }

    /** The completion callback forgets the task only if it is still the tracked one. */
    method TaskDone(t: nat)
      requires Valid() && t in tasks && (tasks[t].done || tasks[t].cancelled)
      modifies `reconnect
      ensures Valid()
      ensures reconnect == if tasks[t].session in old(reconnect) && old(reconnect)[tasks[t].session] == t
        then old(reconnect) - {tasks[t].session} else old(reconnect)
    {
      var name := tasks[t].session;
      if name in reconnect && reconnect[name] == t {
        reconnect := reconnect - {name};
      }
    }

    /**
     * Stopping a worker, first part: cancel the session's recovery. The caller then
     * waits for that recovery, if there was one, and other events may come in between.
     */
    method StopRecovery(name: string) returns (waits: bool)
      requires Valid()
      modifies this
      ensures Valid() && name !in reconnect && (waits <==> name in old(reconnect))
      ensures forall t :: Live(t) <==> old(Live(t)) && old(tasks)[t].session != name
      ensures tasks.Keys == old(tasks).Keys && reconnect == old(reconnect) - {name} && stopping == old(stopping)
      ensures clients == old(clients) && workers == old(workers)[name := Stopping]
      ensures probeFailures == old(probeFailures)
    {
      workers := workers[name := Stopping];
      waits := name in reconnect;
      if waits {
        var t := reconnect[name];
        reconnect := reconnect - {name};
        tasks := tasks[t := tasks[t].(cancelled := true)];
      }
    }

    /** Second part: drop the client, if it is still the session's own; its reports are from then on stale. */
    method DropClient(name: string, client: Option<nat>)
      requires Valid()
      modifies `clients
      ensures Valid() && clients == if client.None? || old(Current(name, client.value)) then old(clients) - {name} else old(clients)
      ensures client.Some? ==> !Current(name, client.value)
    {
      if client.None? || Current(name, client.value) {
        clients := clients - {name};
      }
    }

    /** Last part: once the worker process stopped, forget what was known of it; otherwise it is degraded. */
    method WorkerStopped(name: string, stopped: bool)
      requires Valid()
      modifies `workers, `restartRequested, `probeFailures, `probeUnsupported
      ensures Valid()
      ensures stopped ==> workers == old(workers) && restartRequested == old(restartRequested) - {name}
      ensures stopped ==>
        probeFailures == old(probeFailures) - {name} && probeUnsupported == old(probeUnsupported) - {name}
      ensures !stopped ==> workers == old(workers)[name := Degraded] && restartRequested == old(restartRequested)
      ensures !stopped ==> probeFailures == old(probeFailures) && probeUnsupported == old(probeUnsupported)
    {
      if !stopped {
        workers := workers[name := Degraded];
        return;
      }
      restartRequested := restartRequested - {name};
      probeFailures := probeFailures - {name};
      probeUnsupported := probeUnsupported - {name};
    }

    /** Shut down: every recovery is cancelled and every client dropped. */
    method CloseConnections()
      requires Valid()
      modifies this
      ensures Valid() && stopping && clients == map[] && reconnect == map[] && forall t :: !Live(t)
    {
      stopping := true;
      tasks := map t | t in tasks :: if tasks[t].session in reconnect && reconnect[tasks[t].session] == t
                                     then tasks[t].(cancelled := true) else tasks[t];
      reconnect, clients, restartRequested := map[], map[], {};
    }

    /** A failed probe is forgotten, and the worker is ready again. */
    method ClearProbeFailures(name: string)
      requires Valid()
      modifies `probeFailures, `workers
      ensures Valid() && probeFailures == old(probeFailures) - {name}
      ensures workers == if name in old(probeFailures) then old(workers)[name := Ready] else old(workers)
    {
      if name in probeFailures {
        probeFailures := probeFailures - {name};
        workers := workers[name := Ready];
      } else {
        assert probeFailures - {name} == probeFailures;
      }
    }

    /** The events whose handlers look at the client only after they have acted. */
    predicate Unguarded(name: string, e: ClientEvent)
      reads this
    {
      || (e == ProbeRejected && (name !in probeUnsupported || name in probeFailures))
      || (e == CallAnswered && name in probeFailures)
    }

    /**
     * What a client reports.  An event of a replaced client changes nothing, except
     * exactly a rejected probe or an answered call that finds probe state to change.
     * A recovery starts exactly when the current client is lost, or its probes are.
     */
    method Handle(name: string, client: nat, e: ClientEvent, newTask: nat)
      requires Valid() && newTask !in tasks
      modifies this
      ensures Valid() && clients == old(clients) && stopping == old(stopping)
      ensures !old(Current(name, client)) ==> (Snapshot() == old(Snapshot()) <==> !old(Unguarded(name, e)))
      ensures forall other :: Failures(other) == if other == name
        then Misses(old(Failures(name)), e, old(Current(name, client))) else old(Failures(other))
      ensures probeUnsupported == old(probeUnsupported) + if e == ProbeRejected then {name} else {}
      ensures var current := old(Current(name, client)); var restarts := Restarts(old(Failures(name)), e, current) && !stopping;
        && (restarts ==> restartRequested == old(restartRequested) + (if e == Disconnected then {} else {name}))
        && workers ==
             if restarts then old(workers)[name := Reconnecting]
             else if e == ProbeLost && current then old(workers)[name := Degraded]
             else if (e == CallAnswered || (current && e in {Notification, ProbeAnswered})) && old(Failures(name)) > 0
             then old(workers)[name := Ready] else old(workers)
      ensures var restarts := Restarts(old(Failures(name)), e, old(Current(name, client))) && !stopping;
        && (forall other :: Recovering(other) <==> old(Recovering(other)) || (other == name && restarts))
        && (restarts ==> name in workers && workers[name] == Reconnecting)
        && (!restarts ==>
          reconnect == old(reconnect) && tasks == old(tasks) && restartRequested == old(restartRequested))
        && OnlyStarts(old(tasks), tasks, newTask, name, restarts && !old(Recovering(name)))
    {
      hide OnlyStarts;
      NothingStarts(tasks, newTask, name);
      if e in LOSSES {
        Lose(name, client, e, newTask);
      } else {
        Answer(name, client, e);
      }
    }

    /** A client, or its answer, is lost; of a replaced client that means nothing. */
    method Lose(name: string, client: nat, e: ClientEvent, newTask: nat)
      requires Valid() && newTask !in tasks && e in LOSSES
      modifies this
      ensures Valid() && clients == old(clients) && stopping == old(stopping) && probeUnsupported == old(probeUnsupported)
      ensures !old(Current(name, client)) ==> Snapshot() == old(Snapshot())
      ensures var current := old(Current(name, client)); var restarts := Restarts(old(Failures(name)), e, current) && !stopping;
        && (restarts ==> restartRequested == old(restartRequested) + (if e == Disconnected then {} else {name}))
        && workers == if restarts then old(workers)[name := Reconnecting]
                      else if e == ProbeLost && current then old(workers)[name := Degraded] else old(workers)
      ensures probeFailures ==
        if e == ProbeLost && old(Current(name, client)) then old(probeFailures)[name := old(Failures(name)) + 1] else old(probeFailures)
      ensures var restarts := Restarts(old(Failures(name)), e, old(Current(name, client))) && !stopping;
        && (forall other :: Recovering(other) <==> old(Recovering(other)) || (other == name && restarts))
        && (restarts ==> name in workers && workers[name] == Reconnecting)
        && (!restarts ==>
          reconnect == old(reconnect) && tasks == old(tasks) && restartRequested == old(restartRequested))
        && OnlyStarts(old(tasks), tasks, newTask, name, restarts && !old(Recovering(name)))
    {
      hide OnlyStarts;
      NothingStarts(tasks, newTask, name);
      match e
      case Disconnected => Reconnect(name, client, false, newTask);
      case CallLost => Reconnect(name, client, true, newTask);
      case ProbeLost =>
        if Current(name, client) {
          LoseProbe(name, client, newTask);
        }
      case _ =>
    }

    /** A client says something, or answers; that never starts a recovery. */
    method Answer(name: string, client: nat, e: ClientEvent)
      requires Valid() && e !in LOSSES
      modifies `probeFailures, `probeUnsupported, `workers
      ensures Valid()
        && probeFailures == if Misses(1, e, Current(name, client)) == 0 then old(probeFailures) - {name} else old(probeFailures)
      ensures !Current(name, client) ==> (Snapshot() == old(Snapshot()) <==> !old(Unguarded(name, e)))
      ensures probeUnsupported == old(probeUnsupported) + if e == ProbeRejected then {name} else {}
      ensures workers ==
        if (e == CallAnswered || (Current(name, client) && e in {Notification, ProbeAnswered})) && old(Failures(name)) > 0
        then old(workers)[name := Ready] else old(workers)
    {
      match e
      case ProbeRejected => RejectProbe(name);
      case CallAnswered =>
        Removed(probeFailures, name);
        ClearProbeFailures(name);
      case Notification =>
        if Current(name, client) {
          ClearProbeFailures(name);
        }
      case ProbeAnswered =>
        if Current(name, client) {
          ClearProbeFailures(name);
        }
      case _ =>
    }

    /** The worker does not know the probe, but answers. */
    method RejectProbe(name: string)
      requires Valid()
      modifies `probeUnsupported, `probeFailures
      ensures Valid() && probeUnsupported == old(probeUnsupported) + {name}
      ensures probeFailures == old(probeFailures) - {name}
      ensures (probeUnsupported == old(probeUnsupported) <==> name in old(probeUnsupported))
      ensures (probeFailures == old(probeFailures) <==> name !in old(probeFailures))
    {
      Removed(probeFailures, name);
      probeUnsupported := probeUnsupported + {name};
      probeFailures := probeFailures - {name};
    }

    lemma Removed(m: map<string, nat>, name: string)
      ensures m - {name} == m <==> name !in m
    {
      assert name !in m - {name};
    }

    /** One more probe of the current client got no answer. */
    method LoseProbe(name: string, client: nat, newTask: nat)
      requires Valid() && newTask !in tasks && Current(name, client)
      modifies this
      ensures Valid() && clients == old(clients) && stopping == old(stopping) && probeUnsupported == old(probeUnsupported)
      ensures probeFailures == old(probeFailures)[name := old(Failures(name)) + 1]
      ensures var restarts := old(Failures(name)) + 1 >= PROBE_FAILURE_LIMIT && !stopping;
        && (forall other :: Recovering(other) <==> old(Recovering(other)) || (other == name && restarts))
        && workers == old(workers)[name := if restarts then Reconnecting else Degraded]
        && (!restarts ==>
          reconnect == old(reconnect) && tasks == old(tasks) && restartRequested == old(restartRequested))
        && (restarts ==> restartRequested == old(restartRequested) + {name})
        && OnlyStarts(old(tasks), tasks, newTask, name, restarts && !old(Recovering(name)))
    {
      var failures := (if name in probeFailures then probeFailures[name] else 0) + 1;
      probeFailures := probeFailures[name := failures];
      workers := workers[name := Degraded];
      if failures >= PROBE_FAILURE_LIMIT {
        Reconnect(name, client, true, newTask);
      }
    }

    /** Recover a session, if the report comes from its current client. */
    method Reconnect(name: string, client: nat, restart: bool, newTask: nat)
      requires Valid() && newTask !in tasks
      modifies `workers, `reconnect, `tasks, `restartRequested
      ensures Valid()
      ensures stopping || !old(Current(name, client)) ==> Snapshot() == old(Snapshot())
      ensures !stopping && old(Current(name, client)) ==> restartRequested == old(restartRequested) + (if restart then {name} else {})
      ensures !stopping && old(Current(name, client)) ==> workers == old(workers)[name := Reconnecting]
      ensures forall other :: Recovering(other) <==>
        old(Recovering(other)) || (other == name && !stopping && old(Current(name, client)))
      ensures OnlyStarts(old(tasks), tasks, newTask, name, !stopping && old(Current(name, client)) && !old(Recovering(name)))
    {
      if stopping || !Current(name, client) {
        return;
      }
      workers := workers[name := Reconnecting];
      ScheduleRecovery(name, restart, newTask);
    }

    /** A recovery of the session was started since task numbers began at first. */
    ghost predicate Started(name: string, first: nat)
      reads this
    {
      HasStarted(tasks, name, first)
    }

    /** A client's report, or a step of a recovery that is at work: it opens a client, or it ends. */
    method Take(step: Step, newTask: nat)
      requires Valid() && newTask !in tasks
      modifies this
      ensures Valid() && stopping == old(stopping)
      ensures forall t :: t in old(tasks) ==> t in tasks && tasks[t].session == old(tasks)[t].session
      ensures tasks.Keys <= old(tasks).Keys + {newTask}
      ensures forall name :: !old(Recovering(name)) ==>
        TakenIdle(name, step, old(Failures(name)), old(ClientOf(name)), newTask, old(stopping))
    {
      match step
      case Reported(session, client, event) =>
        Handle(session, client, event, newTask);
      case Adopted(session, client) =>
        if Recovering(session) {
          AdoptClient(session, client);
        }
      case Ended(session, resumed) =>
        if Recovering(session) {
          End(session, resumed);
        }
    }

    /** What a step means for a session without a recovery at work. */
    ghost predicate TakenIdle(name: string, step: Step, n: nat, c: Option<nat>, newTask: nat, stopped: bool)
      reads this
    {
      && ClientOf(name) == c && Failures(name) == MissesOf(n, c, name, step)
      && (Recovering(name) <==> !stopped && RestartBy(n, c, name, step))
      && (newTask in tasks && tasks[newTask].session == name <==> !stopped && RestartBy(n, c, name, step))
    }

    /** The recovery at work ends, with its session resumed or without, and is forgotten. */
    method End(name: string, resumed: bool)
      requires Valid() && Recovering(name)
      modifies `tasks, `reconnect, `probeFailures, `workers
      ensures Valid() && !Recovering(name) && reconnect == old(reconnect) - {name}
      ensures tasks == old(tasks)[old(reconnect)[name] := old(tasks)[old(reconnect)[name]].(done := true)]
      ensures probeFailures == if resumed then old(probeFailures) - {name} else old(probeFailures)
    {
      var t := reconnect[name];
      if resumed {
        probeFailures := probeFailures - {name};
        workers := workers[name := Ready];
      }
      TaskFinishes(t);
      TaskDone(t);
    }

    /**
     * Any steps, one after the other: a recovery of a session that has none at work is started
     * exactly if its client is lost, or its probes are; until then nothing else touches it.
     */
    method TakeAll(name: string, steps: seq<Step>, firstTask: nat, ghost first: nat) returns (nextTask: nat)
      requires Valid() && first <= firstTask && (!Started(name, first) ==> !Recovering(name))
      requires forall t :: t in tasks ==> t < firstTask
      modifies this
      ensures Valid() && stopping == old(stopping) && firstTask <= nextTask && forall t :: t in tasks ==> t < nextTask
      ensures old(Started(name, first)) ==> Started(name, first)
      ensures !old(Started(name, first)) ==>
        (Started(name, first) <==> !stopping && RestartWithin(old(Failures(name)), old(ClientOf(name)), name, steps))
      ensures !Started(name, first) ==> !Recovering(name) && ClientOf(name) == old(ClientOf(name))
      ensures !Started(name, first) ==>
        Failures(name) == MissesAfter(old(Failures(name)), old(ClientOf(name)), name, steps)
    {
      nextTask := firstTask;
      ghost var n, c := Failures(name), ClientOf(name);
      for i := 0 to |steps|
        invariant Valid() && stopping == old(stopping) && firstTask <= nextTask
        invariant forall t :: t in tasks ==> t < nextTask
        invariant old(Started(name, first)) ==> Started(name, first)
        invariant !old(Started(name, first)) ==>
          (Started(name, first) <==> !stopping && RestartWithin(n, c, name, steps[..i]))
        invariant !Started(name, first) ==> !Recovering(name) && ClientOf(name) == c
        invariant !Started(name, first) ==> Failures(name) == MissesAfter(n, c, name, steps[..i])
      {
        OneMoreStep(n, c, name, steps, i);
        TakeOne(name, steps[i], nextTask, first);
        nextTask := nextTask + 1;
      }
      assert steps[..|steps|] == steps;
    }

    /** One step, as far as a start of the session's recovery goes. */
    method TakeOne(name: string, step: Step, newTask: nat, ghost first: nat)
      requires Valid() && first <= newTask && (forall t :: t in tasks ==> t < newTask)
      requires !Started(name, first) ==> !Recovering(name)
      modifies this
      ensures Valid() && stopping == old(stopping) && forall t :: t in tasks ==> t <= newTask
      ensures old(Started(name, first)) ==> Started(name, first)
      ensures !old(Started(name, first)) ==>
        (Started(name, first) <==> !stopping && RestartBy(old(Failures(name)), old(ClientOf(name)), name, step))
      ensures !Started(name, first) ==> !Recovering(name) && ClientOf(name) == old(ClientOf(name))
      ensures !Started(name, first) ==> Failures(name) == MissesOf(old(Failures(name)), old(ClientOf(name)), name, step)
    {
      ghost var started := Started(name, first);
      ghost var before, n, c, stopped := tasks, Failures(name), ClientOf(name), stopping;
      Take(step, newTask);
      if started {
        ghost var t :| t in before && t >= first && before[t].session == name;
        assert t in tasks && tasks[t].session == name;
      } else {
        assert TakenIdle(name, step, n, c, newTask, stopped);
        assert forall t :: t in tasks && t >= first && tasks[t].session == name ==> t == newTask;
      }
    }

    /**
     * Stopping a worker, from cancelling its recovery to its end.  Reports may arrive and other
     * recoveries may go on while the cancelled one is awaited, and again while the client closes
     * and the worker stops.  A new recovery of the session is started exactly if, in one of
     * these times, the client current then is lost, or its probes are; otherwise the stop is final.
     */
    method StopWorker(name: string, client: Option<nat>, awaiting: seq<Step>, closing: seq<Step>, stopped: bool,
                      firstTask: nat)
      requires Valid() && forall t :: t in tasks ==> t < firstTask
      modifies this
      ensures Valid() && stopping == old(stopping)
      ensures var n, c := old(Failures(name)), old(ClientOf(name));
        var before := if name in old(reconnect) then awaiting else [];
        var kept := if client.None? || c == client then None else c;
        && (Started(name, firstTask) <==>
              !stopping && (RestartWithin(n, c, name, before)
                            || RestartWithin(MissesAfter(n, c, name, before), kept, name, closing)))
        && (!Started(name, firstTask) ==> !Recovering(name) && ClientOf(name) == kept)
    {
      assert forall n, c :: MissesAfter(n, c, name, []) == n && !RestartWithin(n, c, name, []);
      hide RestartWithin, MissesAfter, OnlyStarts;
      var nextTask := firstTask;
      var waits := StopRecovery(name);
      if waits {
        nextTask := TakeAll(name, awaiting, nextTask, firstTask);
      }
      ghost var n, c := old(Failures(name)), old(ClientOf(name));
      ghost var before := if name in old(reconnect) then awaiting else [];
      ghost var kept := if client.None? || c == client then None else c;
      ghost var early := Started(name, firstTask);
      DropClient(name, client);
      assert early == Started(name, firstTask) && (!early ==> ClientOf(name) == kept);
      nextTask := TakeAll(name, closing, nextTask, firstTask);
      WorkerStopped(name, stopped);
    }
  }

  /** A step at or between the waits of a stop. */
  datatype Step =
    | Reported(session: string, client: nat, event: ClientEvent)
    | Adopted(session: string, client: nat)
    | Ended(session: string, resumed: bool)

  lemma NothingStarts(tasks: map<nat, RecoveryTask>, newTask: nat, name: string)
    ensures OnlyStarts(tasks, tasks, newTask, name, false)
  {
  }

  ghost predicate HasStarted(tasks: map<nat, RecoveryTask>, name: string, first: nat) {
    exists t :: t in tasks && t >= first && tasks[t].session == name
  }

  /** Tasks only gain the new one, and only if started is said; none changes its session. */
  ghost predicate OnlyStarts(before: map<nat, RecoveryTask>, after: map<nat, RecoveryTask>, newTask: nat, name: string,
                             started: bool) {
    && (forall t :: t in before ==> t in after && after[t].session == before[t].session)
    && after.Keys == before.Keys + (if started then {newTask} else {})
    && (started ==> after[newTask].session == name)
  }

  /** The lost probes counted after a report, by whether its client is current. */
  function Misses(n: nat, e: ClientEvent, current: bool): nat {
    match e
    case ProbeRejected => 0
    case CallAnswered => 0
    case Notification => if current then 0 else n
    case ProbeAnswered => if current then 0 else n
    case ProbeLost => if current then n + 1 else n
    case _ => n
  }

  /** The report of a current client that starts a recovery. */
  predicate Restarts(n: nat, e: ClientEvent, current: bool) {
    current && (e == Disconnected || e == CallLost || (e == ProbeLost && n + 1 >= PROBE_FAILURE_LIMIT))
  }

  /** The lost probes of a session after a step, while it has no recovery at work. */
  function MissesOf(n: nat, c: Option<nat>, name: string, step: Step): nat {
    if step.Reported? && step.session == name then Misses(n, step.event, c == Some(step.client)) else n
  }

  /** The step is a report that starts a recovery of the session, whose client is c. */
  predicate RestartBy(n: nat, c: Option<nat>, name: string, step: Step) {
    step.Reported? && step.session == name && Restarts(n, step.event, c == Some(step.client))
  }

  function MissesAfter(n: nat, c: Option<nat>, name: string, steps: seq<Step>): nat {
    if steps == [] then n else MissesOf(MissesAfter(n, c, name, steps[..|steps| - 1]), c, name, steps[|steps| - 1])
  }

  /** Some report of the session's client c starts a recovery. */
  predicate RestartWithin(n: nat, c: Option<nat>, name: string, steps: seq<Step>) {
    steps != [] &&
    var front, last := steps[..|steps| - 1], steps[|steps| - 1];
    RestartWithin(n, c, name, front) || RestartBy(MissesAfter(n, c, name, front), c, name, last)
  }

  lemma OneMoreStep(n: nat, c: Option<nat>, name: string, steps: seq<Step>, i: nat)
    requires i < |steps|
    ensures var m := MissesAfter(n, c, name, steps[..i]);
      && MissesAfter(n, c, name, steps[..i + 1]) == MissesOf(m, c, name, steps[i])
      && (RestartWithin(n, c, name, steps[..i + 1]) <==>
        RestartWithin(n, c, name, steps[..i]) || RestartBy(m, c, name, steps[i]))
  {
    assert steps[..i + 1][..i] == steps[..i];
  }

  /** Without a loss reported by the current client the stop is final; a replaced client cannot undo it. */
  lemma {:induction false} QuietStopIsFinal(n: nat, c: Option<nat>, name: string, steps: seq<Step>)
    requires forall s :: s in steps && s.Reported? && s.session == name ==>
      c != Some(s.client) || s.event !in {Disconnected, CallLost, ProbeLost}
    ensures !RestartWithin(n, c, name, steps)
  {
    if steps != [] {
      QuietStopIsFinal(n, c, name, steps[..|steps| - 1]);
      assert steps[|steps| - 1] in steps;
    }
  }

  // ---------------------------------------------------------------- losses, from the reports alone

  ghost predicate ReportAt(name: string, steps: seq<Step>, i: int) {
    0 <= i < |steps| && steps[i].Reported? && steps[i].session == name
  }

  /** The client itself, or an answer to a call, is lost. */
  ghost predicate LossAt(c: Option<nat>, name: string, steps: seq<Step>, i: int) {
    ReportAt(name, steps, i) && c == Some(steps[i].client) && steps[i].event in {Disconnected, CallLost}
  }

  ghost predicate MissAt(c: Option<nat>, name: string, steps: seq<Step>, i: int) {
    ReportAt(name, steps, i) && c == Some(steps[i].client) && steps[i].event == ProbeLost
  }

  /** A sign of life: an answered call or a rejected probe, whosever, or anything else the client says. */
  ghost predicate LifeAt(c: Option<nat>, name: string, steps: seq<Step>, i: int) {
    && ReportAt(name, steps, i)
    && (steps[i].event in {ProbeRejected, CallAnswered}
        || (c == Some(steps[i].client) && steps[i].event in {Notification, ProbeAnswered}))
  }

  /** A probe was lost and no sign of life came since. */
  ghost predicate Missing(n: nat, c: Option<nat>, name: string, steps: seq<Step>) {
    || (n > 0 && forall k :: 0 <= k < |steps| ==> !LifeAt(c, name, steps, k))
    || exists j :: MissAt(c, name, steps, j) && forall k :: j < k < |steps| ==> !LifeAt(c, name, steps, k)
  }

  /** The client is lost at step i, or a second probe of it is, with no sign of life between the two. */
  ghost predicate LostAt(n: nat, c: Option<nat>, name: string, steps: seq<Step>, i: int) {
    LossAt(c, name, steps, i) || (MissAt(c, name, steps, i) && Missing(n, c, name, steps[..i]))
  }

  lemma AtFront(c: Option<nat>, name: string, steps: seq<Step>, i: int)
    requires 0 <= i < |steps| - 1
    ensures var front := steps[..|steps| - 1];
      && (LossAt(c, name, front, i) <==> LossAt(c, name, steps, i)) && (MissAt(c, name, front, i) <==> MissAt(c, name, steps, i))
      && (LifeAt(c, name, front, i) <==> LifeAt(c, name, steps, i)) && front[..i] == steps[..i]
  {
  }

  lemma MissingSnoc(n: nat, c: Option<nat>, name: string, steps: seq<Step>)
    requires steps != []
    ensures var last := |steps| - 1;
      Missing(n, c, name, steps) <==>
        MissAt(c, name, steps, last) || (Missing(n, c, name, steps[..last]) && !LifeAt(c, name, steps, last))
  {
    var last := |steps| - 1;
    var front := steps[..last];
    forall i | 0 <= i < last
      ensures MissAt(c, name, front, i) <==> MissAt(c, name, steps, i)
      ensures LifeAt(c, name, front, i) <==> LifeAt(c, name, steps, i)
    {
      AtFront(c, name, steps, i);
    }
    assert forall j :: MissAt(c, name, front, j) ==> 0 <= j < last;
    assert forall j :: MissAt(c, name, steps, j) ==> 0 <= j <= last;
    assert MissAt(c, name, steps, last) ==> !LifeAt(c, name, steps, last);
    hide MissAt, LifeAt;
  }

  lemma {:induction false} MissesExactly(n: nat, c: Option<nat>, name: string, steps: seq<Step>)
    ensures MissesAfter(n, c, name, steps) > 0 <==> Missing(n, c, name, steps)
  {
    if steps == [] {
      assert forall j :: !MissAt(c, name, steps, j);
    } else {
      MissesExactly(n, c, name, steps[..|steps| - 1]);
      MissingSnoc(n, c, name, steps);
      hide Missing;
    }
  }

  /** A recovery is started exactly if the client is lost, or two of its probes are without a sign of life between them. */
  lemma {:induction false} RestartExactly(n: nat, c: Option<nat>, name: string, steps: seq<Step>)
    ensures RestartWithin(n, c, name, steps) <==> exists i :: LostAt(n, c, name, steps, i)
  {
    if steps == [] {
      assert forall i :: !LostAt(n, c, name, steps, i);
    } else {
      var last := |steps| - 1;
      var front := steps[..last];
      RestartExactly(n, c, name, front);
      MissesExactly(n, c, name, front);
      assert RestartBy(MissesAfter(n, c, name, front), c, name, steps[last]) <==> LostAt(n, c, name, steps, last);
      forall i ensures LostAt(n, c, name, steps, i) <==> LostAt(n, c, name, front, i) || (i == last && LostAt(n, c, name, steps, last)) {
        if 0 <= i < last {
          AtFront(c, name, steps, i);
        }
      }
      hide LostAt;
    }
  }

  /** A session whose recovery was at work and has just been cancelled, with its client still there. */
  method CancelledRecovery(name: string, client: nat) returns (s: SessionSupervisor)
    ensures fresh(s) && s.Valid() && !s.stopping && s.Current(name, client) && name !in s.reconnect && 1 !in s.tasks
  {
    s := new SessionSupervisor();
    s.AdoptClient(name, client);
    s.Reconnect(name, client, false, 0);
    var waits := s.StopRecovery(name);
    assert waits;
  }

  /**
   * Stopping a worker is not final: a call of the still current client that is lost while
   * the cancelled recovery is awaited starts a new one, which outlives the stop.
   */
  method RecoveryOutlivesStop(name: string, client: nat) returns (s: SessionSupervisor)
    ensures fresh(s) && s.Valid() && name !in s.clients && s.Recovering(name)
  {
    hide OnlyStarts;
    s := CancelledRecovery(name, client);
    s.Reconnect(name, client, true, 1);
    s.DropClient(name, Some(client));
    s.WorkerStopped(name, true);
  }
}
