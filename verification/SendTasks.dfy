// Message submission: one task per client message id, receipts, and per-session order.
module SendTasks {
  import opened Common
  import opened Numerals

  /** The session and (injectively hashed) text a client message id is bound to. */
  datatype Binding = Binding(session: string, text: string)

  datatype Stage = Queued | Calling | Succeeded | Failed
  /** An asynchronous submission task and what it was created for. */
  datatype Task = Task(id: string, binding: Binding, stage: Stage)
  datatype Receipt = Receipt(binding: Binding, updatedAt: real)

  // ---------------------------------------------------------------- the trace

  datatype Event =
    | Submission(id: string, binding: Binding, steered: bool)  // a turn/start or turn/steer request
    | Success(id: string, binding: Binding)
    | Dropped(ids: set<string>)                                // receipts past their time to live

  function Settled(log: seq<Event>, id: string): Option<Binding> {
    if log == [] then None else SettledNext(Settled(log[..|log| - 1], id), log[|log| - 1], id)
  }

  function SettledNext(settled: Option<Binding>, e: Event, id: string): Option<Binding> {
    match e
    case Success(i, binding) => if i == id then Some(binding) else settled
    case Dropped(ids) => if id in ids then None else settled
    case Submission(_, _, _) => settled
  }

  ghost predicate Safe(log: seq<Event>) {
    forall j :: 0 <= j < |log| && (log[j].Submission? || log[j].Success?) ==> Settled(log[..j], log[j].id) == None
  }

  lemma SafeSnoc(log: seq<Event>, e: Event)
    requires Safe(log) && (e.Submission? || e.Success? ==> Settled(log, e.id) == None)
    ensures Safe(log + [e])
    ensures forall id :: Settled(log + [e], id) == SettledNext(Settled(log, id), e, id)
  {
    var all := log + [e];
    assert all[..|all| - 1] == log;
    forall j | 0 <= j < |all| && (all[j].Submission? || all[j].Success?) ensures Settled(all[..j], all[j].id) == None {
      assert all[..j] == log[..j];
    }
  }

  lemma {:induction false} SettledPersists(log: seq<Event>, i: nat, j: nat)
    requires Safe(log) && i < j <= |log| && log[i].Success?
    requires forall k :: i < k < j && log[k].Dropped? ==> log[i].id !in log[k].ids
    ensures Settled(log[..j], log[i].id).Some?
  {
    assert log[..j][..j - 1] == log[..j - 1];
    if i < j - 1 {
      SettledPersists(log, i, j - 1);
    }
  }

  /** Over any run: after a success no further request for the id until its receipt is dropped. */
  lemma NoRequestAfterSuccess(log: seq<Event>, i: nat, j: nat)
    requires Safe(log) && i < j < |log| && log[i].Success? && log[j].Submission? && log[j].id == log[i].id
    ensures exists k :: i < k < j && log[k].Dropped? && log[i].id in log[k].ids
  {
    if forall k :: i < k < j && log[k].Dropped? ==> log[i].id !in log[k].ids {
      SettledPersists(log, i, j);
    }
  }

  // ---------------------------------------------------------------- the coordinator

  datatype Outcome =
    | Rejected(reason: Reason)
    | Duplicate                 // answered from a receipt, the actor, or a finished task
    | Submitting                // an earlier task is still at work
    | Created(task: nat)
  datatype Reason = EmptyMessage | TooLong | InvalidId | IdReused | SubmissionFailed

  predicate IsUnfinished(task: Task) {
    task.stage == Queued || task.stage == Calling
  }

  /** Every entry is a task of its id, and every unfinished task is the entry of its id. */
  ghost predicate Registered(entries: map<string, nat>, tasks: map<nat, Task>) {
    && (forall id :: id in entries ==> entries[id] in tasks && tasks[entries[id]].id == id)
    && (forall t :: t in tasks && IsUnfinished(tasks[t]) ==> tasks[t].id in entries && entries[tasks[t].id] == t)
  }

  /** The tasks that are calling are exactly the holders of their sessions' locks. */
  ghost predicate LocksMatch(locks: map<string, nat>, tasks: map<nat, Task>) {
    && (forall t :: t in tasks && tasks[t].stage == Calling ==>
      tasks[t].binding.session in locks && locks[tasks[t].binding.session] == t)
    && (forall s :: s in locks ==>
      locks[s] in tasks && tasks[locks[s]].stage == Calling && tasks[locks[s]].binding.session == s)
  }

  /** A success is remembered: by the task still registered, or by a receipt once it is not. */
  ghost predicate Remembered(id: string, settled: Option<Binding>, entries: map<string, nat>, tasks: map<nat, Task>,
                             receipts: map<string, Receipt>) {
    settled.Some? ==>
      if id in entries then entries[id] in tasks && tasks[entries[id]].stage == Succeeded && tasks[entries[id]].binding == settled.value
      else id in receipts && receipts[id].binding == settled.value
  }

  ghost predicate AllRemembered(log: seq<Event>, entries: map<string, nat>, tasks: map<nat, Task>,
                                receipts: map<string, Receipt>) {
    forall id :: Remembered(id, Settled(log, id), entries, tasks, receipts)
  }

  /** Moving a task to another stage keeps the books, if the log is told of a success. */
  lemma StageKeeps(entries: map<string, nat>, tasks: map<nat, Task>, receipts: map<string, Receipt>, log: seq<Event>,
                   t: nat, stage: Stage, log': seq<Event>)
    requires Registered(entries, tasks) && AllRemembered(log, entries, tasks, receipts)
    requires t in tasks && IsUnfinished(tasks[t]) && stage != Queued
    requires forall id ::
      Settled(log', id) == (if stage == Succeeded && id == tasks[t].id then Some(tasks[t].binding) else Settled(log, id))
    ensures Registered(entries, tasks[t := tasks[t].(stage := stage)])
    ensures AllRemembered(log', entries, tasks[t := tasks[t].(stage := stage)], receipts)
  {
    hide Settled;
    var moved := tasks[t := tasks[t].(stage := stage)];
    forall id ensures Remembered(id, Settled(log', id), entries, moved, receipts) {
      assert Remembered(id, Settled(log, id), entries, tasks, receipts);
    }
  }

  lemma CreateKeeps(entries: map<string, nat>, tasks: map<nat, Task>, receipts: map<string, Receipt>, log: seq<Event>,
                    locks: map<string, nat>, t: nat, task: Task)
    requires Registered(entries, tasks) && AllRemembered(log, entries, tasks, receipts) && LocksMatch(locks, tasks)
    requires t !in tasks && task.id !in entries && task.id !in receipts && task.stage == Queued
    ensures Registered(entries[task.id := t], tasks[t := task]) && LocksMatch(locks, tasks[t := task])
    ensures AllRemembered(log, entries[task.id := t], tasks[t := task], receipts)
  {
    hide Settled;
    var entries', tasks' := entries[task.id := t], tasks[t := task];
    forall id ensures Remembered(id, Settled(log, id), entries', tasks', receipts) {
      assert Remembered(id, Settled(log, id), entries, tasks, receipts);
    }
  }

  /** Forgetting a finished task keeps the books, if a success leaves a receipt. */
  lemma ForgetKeeps(entries: map<string, nat>, tasks: map<nat, Task>, receipts: map<string, Receipt>, log: seq<Event>,
                    t: nat, receipts': map<string, Receipt>)
    requires Registered(entries, tasks) && AllRemembered(log, entries, tasks, receipts)
    requires t in tasks && !IsUnfinished(tasks[t]) && tasks[t].id in entries && entries[tasks[t].id] == t
    requires forall id :: id in receipts && id != tasks[t].id ==> id in receipts' && receipts'[id] == receipts[id]
    requires tasks[t].stage == Succeeded ==>
      tasks[t].id in receipts' && receipts'[tasks[t].id].binding == tasks[t].binding
    ensures Registered(entries - {tasks[t].id}, tasks) && AllRemembered(log, entries - {tasks[t].id}, tasks, receipts')
  {
    hide Settled;
    var entries' := entries - {tasks[t].id};
    forall id ensures Remembered(id, Settled(log, id), entries', tasks, receipts') {
      assert Remembered(id, Settled(log, id), entries, tasks, receipts);
    }
  }

  class SendCoordinator {
    const ttl: real
    const maxChars: nat
    var now: real
    var entries: map<string, nat>              // send_tasks: client message id to its task
    var tasks: map<nat, Task>                  // every task ever created
    var receipts: map<string, Receipt>
    var locks: map<string, nat>                // session send locks that are held, by task
    var messages: map<(string, string), string> // user messages the actors show, by session and client id
    var activeTurns: map<string, string>
    ghost var log: seq<Event>

    predicate Unfinished(t: nat)
      reads this
    {
      t in tasks && IsUnfinished(tasks[t])
    }

    ghost predicate Valid()
      reads this
    {
      && Safe(log)
      && Registered(entries, tasks)
      && LocksMatch(locks, tasks)
      && AllRemembered(log, entries, tasks, receipts)
    }

    constructor (ttl: real, maxChars: nat, now: real)
      ensures Valid() && log == []
    {
      this.ttl, this.maxChars, this.now := ttl, maxChars, now;
      entries, tasks, receipts, locks, messages, activeTurns, log := map[], map[], map[], map[], map[], map[], [];
    }

    /** At most one submission of an id is unfinished, and at most one of a session is calling. */
    lemma OneAtATime(t: nat, u: nat)
      requires Valid() && t in tasks && u in tasks
      ensures Unfinished(t) && Unfinished(u) && tasks[t].id == tasks[u].id ==> t == u
      ensures tasks[t].stage == Calling && tasks[u].stage == Calling && tasks[t].binding.session == tasks[u].binding.session ==> t == u
    {
    }

    /** Time passes, and the actors show what the notifications tell them. */
    method Observe(now: real, messages: map<(string, string), string>, activeTurns: map<string, string>)
      requires Valid()
      modifies `now, `messages, `activeTurns
      ensures Valid() && this.now == now && this.messages == messages && this.activeTurns == activeTurns
    {
      this.now, this.messages, this.activeTurns := now, messages, activeTurns;
    }

    method PruneReceipts()
      requires Valid()
      modifies `receipts, `log
      ensures Valid() && log == old(log) + [Dropped(old(Stale()) - entries.Keys)]
      ensures receipts == old(receipts) - old(Stale())
      ensures forall id :: id in old(receipts) ==> (id in receipts <==> old(receipts)[id].updatedAt >= now - ttl)
    {
      hide Safe, Settled, Registered, LocksMatch;
      ghost var dropped, before := Dropped(Stale() - entries.Keys), log;
      SafeSnoc(log, dropped);
      log := log + [dropped];
      receipts := receipts - Stale();
      forall id ensures Remembered(id, Settled(log, id), entries, tasks, receipts) {
        assert Remembered(id, Settled(before, id), entries, tasks, old(receipts));
      }
    }

    function Stale(): set<string>
      reads this
    {
      set id | id in receipts && receipts[id].updatedAt < now - ttl
    }

    /** The binding an id is known under: a live receipt first, else a registered task. */
    function Known(id: string): Option<Binding>
      reads this
    {
      if HasReceipt(id) then Some(receipts[id].binding)
      else if id in entries && entries[id] in tasks then Some(tasks[entries[id]].binding)
      else None
    }

    /** A receipt of the id that has not outlived its time. */
    predicate HasReceipt(id: string)
      reads this
    {
      id in receipts && id !in Stale()
    }

    /** The session's actor already shows the message, with this text. */
    predicate Shown(name: string, value: string, id: string)
      reads this
    {
      (name, id) in messages && Strip(messages[(name, id)]) == value
    }

    /** The text and id are such that a send can be made of them. */
    predicate Sendable(text: string, validId: bool)
    {
      Strip(text) != "" && |text| <= maxChars && validId
    }

    /**
     * The part of a send that runs without waiting: answer, or create the one task.
     * It never issues a request itself.
     */
    method Send(name: string, text: string, id: string, validId: bool, newTask: nat) returns (r: Outcome)
      requires Valid() && newTask !in tasks
      modifies `tasks, `entries, `receipts, `log
      ensures Valid()
      ensures log == old(log) || log == old(log) + [Dropped(old(Stale()) - old(entries).Keys)]
      ensures r == Rejected(EmptyMessage) <==> Strip(text) == ""
      ensures r == Rejected(TooLong) <==> Strip(text) != "" && |text| > maxChars
      ensures r == Rejected(InvalidId) <==> Strip(text) != "" && |text| <= maxChars && !validId
      // What the id is known by decides: a live receipt, else the actor's message, else the registered task.
      ensures Sendable(text, validId) && old(HasReceipt(id)) ==>
        r == if old(receipts)[id].binding == Binding(name, Strip(text)) then Duplicate else Rejected(IdReused)
      ensures Sendable(text, validId) && !old(HasReceipt(id)) && (name, id) in old(messages) ==>
        r == if old(Shown(name, Strip(text), id)) then Duplicate else Rejected(IdReused)
      ensures Sendable(text, validId) && !old(HasReceipt(id)) && (name, id) !in old(messages) ==>
        r == if id !in old(entries) then Created(newTask)
             else if old(tasks[entries[id]]).binding != Binding(name, Strip(text)) then Rejected(IdReused)
             else if IsUnfinished(old(tasks[entries[id]])) then Submitting
             else if old(tasks[entries[id]]).stage == Succeeded then Duplicate else Rejected(SubmissionFailed)
      ensures r.Created? <==> tasks != old(tasks)
      ensures entries == if r.Created? then old(entries)[id := newTask] else old(entries)
      ensures receipts ==
        if !Sendable(text, validId) then old(receipts)
        else if r == Duplicate && !old(HasReceipt(id)) && (name, id) in old(messages)
        then (old(receipts) - old(Stale()))[id := Receipt(Binding(name, Strip(text)), now)]
        else old(receipts) - old(Stale())
      ensures r.Created? ==>
        tasks == old(tasks)[newTask := Task(id, Binding(name, Strip(text)), Queued)] && r.task == newTask && Unfinished(newTask)
      // Once a task or a receipt is known, nothing new is created for the id.
      ensures old(Known(id)).Some? ==> !r.Created?
      // Another session or text is rejected, unless no receipt is live and this session's actor shows exactly that message.
      ensures old(Known(id)).Some? && old(Known(id)).value != Binding(name, Strip(text)) ==>
        (r.Rejected? || r == Duplicate)
      ensures old(Known(id)).Some? && old(Known(id)).value != Binding(name, Strip(text)) ==>
        (r == Duplicate <==> Sendable(text, validId) && old(Shown(name, Strip(text), id)) && !old(HasReceipt(id)))
    {
      hide Strip, StripLeft, StripRight, Safe, AllRemembered, LocksMatch;
      var value := Strip(text);
      if value == "" { return Rejected(EmptyMessage); }
      if |text| > maxChars { return Rejected(TooLong); }
      if !validId { return Rejected(InvalidId); }
      PruneReceipts();
      if id in receipts {
        return if receipts[id].binding == Binding(name, value) then Duplicate else Rejected(IdReused);
      }
      if (name, id) in messages {
        if Strip(messages[(name, id)]) != value {
          return Rejected(IdReused);
        }
        RememberShown(id, Binding(name, value));
        return Duplicate;
      }
      if id in entries {
        var task := tasks[entries[id]];
        if task.binding != Binding(name, value) {
          return Rejected(IdReused);
        }
        return match task.stage
          case Succeeded => Duplicate
          case Failed => Rejected(SubmissionFailed)
          case _ => Submitting;
      }
      CreateTask(id, Binding(name, value), newTask);
      r := Created(newTask);
    }

    /** A message the actor already shows gets a receipt of its own. */
    method RememberShown(id: string, binding: Binding)
      requires Valid() && id !in receipts
      modifies `receipts
      ensures Valid() && receipts == old(receipts)[id := Receipt(binding, now)]
    {
      hide Safe, Settled, Registered, LocksMatch;
      ghost var before := receipts;
      receipts := receipts[id := Receipt(binding, now)];
      forall i ensures Remembered(i, Settled(log, i), entries, tasks, receipts) {
        assert Remembered(i, Settled(log, i), entries, tasks, before);
      }
    }

    method CreateTask(id: string, binding: Binding, newTask: nat)
      requires Valid() && newTask !in tasks && id !in entries && id !in receipts
      modifies `tasks, `entries
      ensures Valid() && tasks == old(tasks)[newTask := Task(id, binding, Queued)] && entries == old(entries)[id := newTask]
    {
      hide Safe, Registered, LocksMatch, AllRemembered;
      CreateKeeps(entries, tasks, receipts, log, locks, newTask, Task(id, binding, Queued));
      tasks := tasks[newTask := Task(id, binding, Queued)];
      entries := entries[id := newTask];
    }

    /** A queued task takes its session's lock, if free, and issues its one request. */
    method Begin(t: nat) returns (began: bool)
      requires Valid() && t in tasks && tasks[t].stage == Queued
      modifies `tasks, `locks, `log
      ensures Valid() && (began <==> old(tasks)[t].binding.session !in old(locks))
      ensures locks == if began then old(locks)[old(tasks)[t].binding.session := t] else old(locks)
      ensures began ==> tasks == old(tasks)[t := old(tasks)[t].(stage := Calling)]
      ensures log == old(log) + if began
        then [Submission(old(tasks)[t].id, old(tasks)[t].binding, old(tasks)[t].binding.session in activeTurns)] else []
      ensures !began ==> tasks == old(tasks)
    {
      hide Safe, Settled, AllRemembered;
      var task := tasks[t];
      began := task.binding.session !in locks;
      if began {
        NotSettledYet(t);
        ghost var e := Submission(task.id, task.binding, task.binding.session in activeTurns);
        SafeSnoc(log, e);
        StageKeeps(entries, tasks, receipts, log, t, Calling, log + [e]);
        log := log + [e];
        locks := locks[task.binding.session := t];
        tasks := tasks[t := task.(stage := Calling)];
      }
    }

    /** The request of a calling task returns or fails, and the lock is released. */
    method Finish(t: nat, ok: bool)
      requires Valid() && t in tasks && tasks[t].stage == Calling
      modifies `tasks, `locks, `log
      ensures locks == old(locks) - {old(tasks)[t].binding.session}
      ensures Valid() && tasks == old(tasks)[t := old(tasks)[t].(stage := if ok then Succeeded else Failed)]
      ensures log == old(log) + if ok then [Success(old(tasks)[t].id, old(tasks)[t].binding)] else []
    {
      hide Safe, Settled, AllRemembered;
      var task, stage := tasks[t], if ok then Succeeded else Failed;
      NotSettledYet(t);
      ghost var log' := if ok then log + [Success(task.id, task.binding)] else log;
      if ok {
        SafeSnoc(log, Success(task.id, task.binding));
      }
      StageKeeps(entries, tasks, receipts, log, t, stage, log');
      log := log';
      locks := locks - {task.binding.session};
      tasks := tasks[t := task.(stage := stage)];
    }

    lemma NotSettledYet(t: nat)
      requires Valid() && Unfinished(t)
      ensures Settled(log, tasks[t].id) == None
    {
      assert Remembered(tasks[t].id, Settled(log, tasks[t].id), entries, tasks, receipts);
    }

    /** The completion callback: forget the task, and keep a receipt of a success. */
    method TaskCompleted(t: nat)
      requires Valid() && t in tasks && !Unfinished(t)
      modifies `entries, `receipts
      ensures Valid() && log == old(log)
      ensures tasks[t].id in old(entries) && old(entries)[tasks[t].id] == t ==>
        && entries == old(entries) - {tasks[t].id}
        && receipts == if tasks[t].stage == Succeeded
                       then old(receipts)[tasks[t].id := Receipt(tasks[t].binding, now)] else old(receipts)
      ensures !(tasks[t].id in old(entries) && old(entries)[tasks[t].id] == t) ==>
        entries == old(entries) && receipts == old(receipts)
    {
      var id := tasks[t].id;
      if id in entries && entries[id] == t {
        ghost var before, was := entries, receipts;
        entries := entries - {id};
        if tasks[t].stage == Succeeded {
          receipts := receipts[id := Receipt(tasks[t].binding, now)];
        }
        ForgetKeeps(before, tasks, was, log, t, receipts);
      }
    }
  }
}
