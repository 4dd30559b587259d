// Reliable delivery into an unreliable terminal: absent, pasted, accepted.
module Delivery {
  import opened Common
  import opened Numerals
  import opened DeliveryStore

  // ---------------------------------------------------------------- the trace

  datatype Checkpoint = Checkpoint(status: Status, session: string, digest: Digest)

  /**
   * Everything that happens to deliveries, in the terminal, in memory and on disk.  What a
   * send does rests on its lookup of the id, made when the wall clock showed asOf; at is the
   * monotonic time an entry in memory carries.
   */
  datatype Event =
    | Pasting(id: string, session: string, digest: Digest, asOf: real)
    | Keys(id: string, session: string, digest: Digest, asOf: real)
    | Reached(id: string, checkpoint: Checkpoint, asOf: real, at: real)
    | Recalled(id: string, checkpoint: Checkpoint, asOf: real, at: real)     // from its durable record
    | Touched(id: string, at: real)
    | Written(id: string, checkpoint: Checkpoint, epoch: real, readable: bool)   // a durable record; readable if small enough
    | Pruned(ids: set<string>, at: real)
    | Erased(ids: set<string>, epoch: real)
    | Restarted

  /** What memory knows of an id, and what its durable record says. */
  datatype Entry = Entry(checkpoint: Checkpoint, at: real)
  datatype Stamp = Stamp(checkpoint: Checkpoint, epoch: real, readable: bool)

  function EntryNext(m: Option<Entry>, e: Event, id: string): Option<Entry> {
    match e
    case Reached(i, c, _, at) => if i == id then Some(Entry(c, at)) else m
    case Recalled(i, c, _, at) => if i == id then Some(Entry(c, at)) else m
    case Touched(i, at) => if i == id && m.Some? then Some(m.value.(at := at)) else m
    case Pruned(ids, _) => if id in ids then None else m
    case Restarted => None
    case _ => m
  }

  function EntryOf(log: seq<Event>, id: string): Option<Entry> {
    if log == [] then None else EntryNext(EntryOf(log[..|log| - 1], id), log[|log| - 1], id)
  }

  function StampNext(s: Option<Stamp>, e: Event, id: string): Option<Stamp> {
    match e
    case Written(i, c, epoch, readable) => if i == id then Some(Stamp(c, epoch, readable)) else s
    case Erased(ids, _) => if id in ids then None else s
    case _ => s
  }

  function StampOf(log: seq<Event>, id: string): Option<Stamp> {
    if log == [] then None else StampNext(StampOf(log[..|log| - 1], id), log[|log| - 1], id)
  }

  /** The checkpoint an id holds: that of its entry, else that of a durable record within its time to live. */
  function Held(log: seq<Event>, id: string, asOf: real, ttl: real): Option<Checkpoint> {
    var m, s := EntryOf(log, id), StampOf(log, id);
    if m.Some? then Some(m.value.checkpoint)
    else if s.Some? && s.value.readable && asOf - s.value.epoch <= ttl then Some(s.value.checkpoint)
    else None
  }

  /** Nothing is held, or this very content, pasted. */
  predicate Continues(held: Option<Checkpoint>, session: string, digest: Digest) {
    held.None? || held.value == Checkpoint(Pasted, session, digest)
  }

  /** What may happen after a run so far. */
  ghost predicate Allowed(log: seq<Event>, e: Event, ttl: real) {
    match e
    case Pasting(id, _, _, asOf) => Held(log, id, asOf, ttl).None?
    case Keys(id, session, digest, asOf) => Continues(Held(log, id, asOf, ttl), session, digest)
    case Reached(id, c, asOf, _) => Continues(Held(log, id, asOf, ttl), c.session, c.digest)
    case Recalled(id, c, asOf, _) => EntryOf(log, id).None? && (StampOf(log, id).None? || Held(log, id, asOf, ttl) == Some(c))
    case Touched(_, _) => true
    case Written(id, c, _, _) => EntryOf(log, id).Some? && EntryOf(log, id).value.checkpoint == c
    case Pruned(ids, at) => forall id :: id in ids ==> EntryOf(log, id).Some? && at - EntryOf(log, id).value.at > ttl
    case Erased(ids, epoch) => forall id :: id in ids && StampOf(log, id).Some? ==>
      epoch - StampOf(log, id).value.epoch > ttl
    case Restarted => true
  }

  ghost predicate Safe(log: seq<Event>, ttl: real) {
    forall j :: 0 <= j < |log| ==> Allowed(log[..j], log[j], ttl)
  }

  lemma SafeSnoc(log: seq<Event>, e: Event, ttl: real)
    requires Safe(log, ttl) && Allowed(log, e, ttl)
    ensures Safe(log + [e], ttl)
  {
    hide Allowed;
    var all := log + [e];
    forall j | 0 <= j < |all| ensures Allowed(all[..j], all[j], ttl) {
      assert all[..j] == log[..j];
      if j == |log| {
        assert log[..j] == log;
      }
    }
  }

  lemma Snoc(log: seq<Event>, e: Event)
    ensures forall id :: EntryOf(log + [e], id) == EntryNext(EntryOf(log, id), e, id)
    ensures forall id :: StampOf(log + [e], id) == StampNext(StampOf(log, id), e, id)
  {
    assert (log + [e])[..|log + [e]| - 1] == log;
  }

  lemma CountSnoc(log: seq<Event>, e: Event)
    ensures Pastes(log + [e]) == Pastes(log) + if e.Pasting? then 1 else 0
    ensures KeyPresses(log + [e]) == KeyPresses(log) + if e.Keys? then 1 else 0
  {
    assert (log + [e])[..|log + [e]| - 1] == log;
  }

  function Pastes(log: seq<Event>): nat {
    if log == [] then 0 else Pastes(log[..|log| - 1]) + if log[|log| - 1].Pasting? then 1 else 0
  }

  function KeyPresses(log: seq<Event>): nat {
    if log == [] then 0 else KeyPresses(log[..|log| - 1]) + if log[|log| - 1].Keys? then 1 else 0
  }

  // ---------------------------------------------------------------- at most once

  /** to is no weaker than from, and bound to the same session and text. */
  predicate Upholds(from: Checkpoint, to: Checkpoint) {
    to.session == from.session && to.digest == from.digest && (from.status == Accepted ==> to.status == Accepted)
  }

  /** Memory forgets an id only when the process restarts, or prunes an entry idle past its time to live. */
  ghost predicate Forgets(log: seq<Event>, k: nat, id: string, ttl: real)
    requires k < |log|
  {
    || log[k].Restarted?
    || (log[k].Pruned? && id in log[k].ids && EntryOf(log[..k], id).Some? && log[k].at - EntryOf(log[..k], id).value.at > ttl)
  }

  lemma EntryUpheld(log: seq<Event>, e: Event, id: string, c: Checkpoint, ttl: real)
    requires Allowed(log, e, ttl) && EntryOf(log, id).Some? && Upholds(c, EntryOf(log, id).value.checkpoint)
    requires !e.Restarted? && !(e.Pruned? && id in e.ids)
    ensures EntryOf(log + [e], id).Some? && Upholds(c, EntryOf(log + [e], id).value.checkpoint)
  {
    Snoc(log, e);
    hide EntryOf, StampOf;
  }

  lemma NotForgotten(log: seq<Event>, k: nat, id: string, ttl: real)
    requires k < |log| && Allowed(log[..k], log[k], ttl) && !Forgets(log, k, id, ttl)
    ensures !log[k].Restarted? && !(log[k].Pruned? && id in log[k].ids)
  {
  }

  lemma ReachedIsKept(log: seq<Event>, e: Event)
    requires e.Reached?
    ensures EntryOf(log + [e], e.id) == Some(Entry(e.checkpoint, e.at)) && Upholds(e.checkpoint, e.checkpoint)
  {
    Snoc(log, e);
  }

  /** Until memory forgets it, a reached checkpoint is never weakened or rebound. */
  lemma {:induction false} EntryPersists(log: seq<Event>, ttl: real, i: nat, j: nat)
    requires Safe(log, ttl) && i < j <= |log| && log[i].Reached?
    requires forall k :: i < k < j ==> !Forgets(log, k, log[i].id, ttl)
    ensures EntryOf(log[..j], log[i].id).Some?
    ensures Upholds(log[i].checkpoint, EntryOf(log[..j], log[i].id).value.checkpoint)
  {
    var front, e := log[..j - 1], log[j - 1];
    assert log[..j] == front + [e] && Allowed(front, e, ttl);
    hide Safe, Allowed, EntryOf, StampOf, Upholds, Forgets;
    if i < j - 1 {
      EntryPersists(log, ttl, i, j - 1);
      assert !Forgets(log, j - 1, log[i].id, ttl);
      NotForgotten(log, j - 1, log[i].id, ttl);
      EntryUpheld(front, e, log[i].id, log[i].checkpoint, ttl);
    } else {
      ReachedIsKept(front, e);
    }
  }

  /**
   * The delivery guarantee over a whole run, while the process lives and the id is in use.
   * After a checkpoint the text is never pasted again, nothing at all is sent once it was
   * accepted, and nothing is sent for another session or text.
   */
  lemma DeliveredAtMostOnce(log: seq<Event>, ttl: real, i: nat, j: nat)
    requires Safe(log, ttl) && i < j < |log| && log[i].Reached?
    requires (log[j].Pasting? || log[j].Keys?) && log[j].id == log[i].id
    ensures
      || (exists k :: i < k < j && Forgets(log, k, log[i].id, ttl))
      || (log[j].Keys? && log[i].checkpoint == Checkpoint(Pasted, log[j].session, log[j].digest))
  {
    if forall k :: i < k < j ==> !Forgets(log, k, log[i].id, ttl) {
      EntryPersists(log, ttl, i, j);
      assert Allowed(log[..j], log[j], ttl);
    }
  }

  /** The wall clock an event rests on, as far as it concerns an id. */
  function ClockOf(e: Event, id: string): Option<real> {
    match e
    case Pasting(i, _, _, asOf) => if i == id then Some(asOf) else None
    case Keys(i, _, _, asOf) => if i == id then Some(asOf) else None
    case Reached(i, _, asOf, _) => if i == id then Some(asOf) else None
    case Recalled(i, _, asOf, _) => if i == id then Some(asOf) else None
    case Erased(ids, epoch) => if id in ids then Some(epoch) else None
    case _ => None
  }

  /** At event k the durable record of an id is readable and within its time to live. */
  ghost predicate Fresh(log: seq<Event>, k: nat, id: string, ttl: real)
    requires k < |log|
  {
    var s := StampOf(log[..k], id);
    s.Some? ==> s.value.readable && (ClockOf(log[k], id).Some? ==> ClockOf(log[k], id).value - s.value.epoch <= ttl)
  }

  ghost predicate RecordUpholds(log: seq<Event>, id: string, c: Checkpoint) {
    && StampOf(log, id).Some? && Upholds(c, StampOf(log, id).value.checkpoint)
    && (EntryOf(log, id).Some? ==> Upholds(c, EntryOf(log, id).value.checkpoint))
  }

  lemma RecordUpheld(log: seq<Event>, e: Event, id: string, c: Checkpoint, ttl: real)
    requires Allowed(log, e, ttl) && RecordUpholds(log, id, c)
    requires StampOf(log, id).value.readable
    requires (ClockOf(e, id).Some? ==> ClockOf(e, id).value - StampOf(log, id).value.epoch <= ttl)
    ensures RecordUpholds(log + [e], id, c)
  {
    Snoc(log, e);
    hide EntryOf, StampOf;
  }

  /** A record once written upholds its checkpoint for as long as every later one is fresh. */
  lemma {:induction false} RecordPersists(log: seq<Event>, ttl: real, i: nat, j: nat)
    requires Safe(log, ttl) && i < j <= |log| && log[i].Written?
    requires forall k :: i < k < j ==> Fresh(log, k, log[i].id, ttl)
    ensures RecordUpholds(log[..j], log[i].id, log[i].checkpoint)
  {
    var front, e := log[..j - 1], log[j - 1];
    assert log[..j] == front + [e] && Allowed(front, e, ttl);
    if i < j - 1 {
      RecordPersists(log, ttl, i, j - 1);
      assert Fresh(log, j - 1, log[i].id, ttl);
      RecordUpheld(front, e, log[i].id, log[i].checkpoint, ttl);
    } else {
      Snoc(front, e);
    }
  }

  /**
   * The delivery guarantee across restarts, pruning and failed writes.  Once a checkpoint was
   * durably written, and while the record of the id stays readable and within its time to
   * live, the text is never pasted again, nothing is sent once it was accepted, and nothing
   * is sent for another session or text.
   */
  lemma DeliveredOnceDurably(log: seq<Event>, ttl: real, i: nat, j: nat)
    requires Safe(log, ttl) && i < j < |log| && log[i].Written?
    requires forall k :: i < k <= j ==> Fresh(log, k, log[i].id, ttl)
    requires (log[j].Pasting? || log[j].Keys?) && log[j].id == log[i].id
    ensures log[j].Keys? && log[i].checkpoint == Checkpoint(Pasted, log[j].session, log[j].digest)
  {
    RecordPersists(log, ttl, i, j);
    assert Allowed(log[..j], log[j], ttl) && Fresh(log, j, log[i].id, ttl);
  }

  /**
   * Events of sends of other ids, and pruning that spares the entry of this one, do not take
   * away a step this send may take next; so steps of different sends may alternate.
   */
  lemma OthersInterleave(log: seq<Event>, e: Event, step: Event, id: string, ttl: real)
    requires Safe(log, ttl) && Allowed(log, e, ttl) && Allowed(log, step, ttl)
    requires step.Pasting? || step.Keys? || step.Reached? || step.Recalled? || step.Touched? || step.Written?
    requires step.id == id && !e.Restarted?
    requires if e.Pruned? || e.Erased? then e.Pruned? ==> id !in e.ids else e.id != id
    ensures Allowed(log + [e], step, ttl) && Safe(log + [e, step], ttl)
  {
    Snoc(log, e);
    SafeSnoc(log, e, ttl);
    hide EntryOf, StampOf, Safe;
    assert Allowed(log + [e], step, ttl);
    SafeSnoc(log + [e], step, ttl);
    assert log + [e] + [step] == log + [e, step];
  }

  // ---------------------------------------------------------------- how methods extend the run

  /** Nothing but pruning concerns another id, and the process does not restart. */
  predicate About(e: Event, id: string) {
    match e
    case Pruned(_, _) => true
    case Erased(_, _) => true
    case Restarted => false
    case _ => e.id == id
  }

  /** The run only grew, by events about id and by pruning. */
  ghost predicate Grows(before: seq<Event>, after: seq<Event>, id: string) {
    before <= after && forall k :: |before| <= k < |after| ==> About(after[k], id)
  }

  lemma GrowsFurther(a: seq<Event>, b: seq<Event>, c: seq<Event>, id: string)
    requires Grows(a, b, id) && Grows(b, c, id)
    ensures Grows(a, c, id)
  {
    forall k | |a| <= k < |c| ensures About(c[k], id) {
      assert k < |b| ==> c[k] == b[k];
    }
  }

  // ---------------------------------------------------------------- the service

  datatype Outcome = Done | Failed | Crashed
  datatype Problem =
    NoSession | EmptyText | TextTooLong | SlashCommand | IdReused | UnsentDraft | TmuxFailed | PasteUnconfirmed | Ambiguous | NotAccepted

  datatype SendResult = Sent(receipt: Receipt, duplicate: bool) | Refused(problem: Problem) | Stopped

  /** What the terminal showed a send that looked: absent a look, anything. */
  datatype Seen = Seen(agentInPane: bool, codex: bool, hasDraft: bool, composerHasText: bool, pasteShown: bool, evidence: Option<string>)

  const NOTHING_SEEN := Seen(false, false, false, false, false, None)

  /** The result of a send that reached the terminal follows from what it saw there, and from the keys and pastes that worked. */
  predicate Follows(seen: Seen, shellPrep: bool, again: bool, r: SendResult, pastes: int, keys: int, keyAttempts: nat) {
    if r.Stopped? then true
    else if shellPrep && !seen.agentInPane then
      pastes == 0 && if r.Sent? then keys == 2 && r.receipt.state == "shell" else r.problem == TmuxFailed && 0 < keys <= 2
    else if seen.codex && !again && seen.hasDraft then r == Refused(UnsentDraft) && pastes == 0 && keys == 0
    else if again && seen.codex && !seen.composerHasText then
      && pastes == 0 && keys == 0
      && if seen.evidence.Some? then r.Sent? && r.receipt.state == seen.evidence.value else r == Refused(Ambiguous)
    else if r.Sent? then
      && pastes == (if again then 0 else 1) && (again || seen.pasteShown) && 0 < keys == r.receipt.enterAttempts
      && if seen.codex then seen.evidence == Some(r.receipt.state) else r.receipt.state == "sent" && keys == 1
    else
      match r.problem
      case PasteUnconfirmed => !again && pastes == 1 && keys == 0 && !seen.pasteShown
      case NotAccepted => seen.codex && seen.evidence.None? && keys == keyAttempts && (again || seen.pasteShown)
      case TmuxFailed => keys > 0 || !again
      case _ => false
  }

  /** The most keys one send presses: a launch line and Enter, or the submit attempts. */
  function KeyBound(keyAttempts: nat, shellPrep: bool): nat {
    var submits := if keyAttempts == 0 then 1 else keyAttempts;
    if shellPrep && submits < 2 then 2 else submits
  }

  /** The run went on from before to after as the result says, with at most one paste, of a new text, and few keys. */
  ghost predicate Delivers(seen: Seen, shellPrep: bool, again: bool, r: SendResult, before: seq<Event>, after: seq<Event>,
                           keyAttempts: nat) {
    var pastes, keys := Pastes(after) - Pastes(before), KeyPresses(after) - KeyPresses(before);
    && Follows(seen, shellPrep, again, r, pastes, keys, keyAttempts)
    && (if again then pastes == 0 else pastes <= 1) && keys <= KeyBound(keyAttempts, shellPrep)
  }

  lemma ShellDelivers(seen: Seen, again: bool, r: SendResult, before: seq<Event>, after: seq<Event>, keyAttempts: nat)
    requires !seen.agentInPane && Pastes(after) == Pastes(before)
    requires var keys := KeyPresses(after) - KeyPresses(before);
      && keys <= 2 && (r.Sent? ==> keys == 2 && r.receipt.state == "shell")
      && (r.Refused? ==> r.problem == TmuxFailed && 0 < keys)
    ensures Delivers(seen, true, again, r, before, after, keyAttempts)
  {
  }

  lemma DraftDelivers(seen: Seen, log: seq<Event>, keyAttempts: nat)
    requires seen.codex && seen.hasDraft
    ensures Delivers(seen, false, false, Refused(UnsentDraft), log, log, keyAttempts)
  {
  }

  /** With an agent there a launch line is text like any other, and a draft matters to a new text alone. */
  lemma AgentDelivers(looked: Seen, seen: Seen, shellPrep: bool, again: bool, r: SendResult, before: seq<Event>, after: seq<Event>,
                      keyAttempts: nat)
    requires looked.agentInPane && Delivers(looked, false, again, r, before, after, keyAttempts)
    requires looked == seen || (looked == seen.(hasDraft := false) && (seen.codex && seen.hasDraft ==> again))
    ensures Delivers(seen, shellPrep, again, r, before, after, keyAttempts)
  {
  }

  lemma DeliversSince(seen: Seen, shellPrep: bool, again: bool, r: SendResult, before: seq<Event>, recalled: seq<Event>,
                      after: seq<Event>, keyAttempts: nat)
    requires Delivers(seen, shellPrep, again, r, recalled, after, keyAttempts)
    requires Pastes(recalled) == Pastes(before) && KeyPresses(recalled) == KeyPresses(before)
    ensures Delivers(seen, shellPrep, again, r, before, after, keyAttempts) && (r.Refused? ==> r.problem != IdReused)
  {
  }

  predicate Matches(d: Delivery, session: string, digest: Digest) {
    d.session == session && d.digest == digest
  }

  /**
   * The answer to a text that can be sent.  Other content is refused, exactly then, and an accepted id with
   * this content is answered with its receipt again; both send nothing.  New or pasted content does what
   * the terminal shows it must.
   */
  ghost predicate Answers(seen: Seen, shellPrep: bool, session: string, digest: Digest, found: Option<Delivery>, r: SendResult,
                          before: seq<Event>, after: seq<Event>, keyAttempts: nat) {
    && (r == Refused(IdReused) <==> found.Some? && !Matches(found.value, session, digest))
    && (r.Sent? ==> (r.duplicate <==> found.Some? && found.value.status == Accepted))
    && if found.Some? && (!Matches(found.value, session, digest) || found.value.status == Accepted) then
         && Pastes(after) == Pastes(before) && KeyPresses(after) == KeyPresses(before)
         && (Matches(found.value, session, digest) ==>
               found.value.receipt.Some? && (r.Stopped? || r == Sent(found.value.receipt.value, true)))
       else Delivers(seen, shellPrep, found.Some?, r, before, after, keyAttempts)
  }

  lemma AnswersMean(seen: Seen, shellPrep: bool, session: string, digest: Digest, found: Option<Delivery>, r: SendResult,
                    before: seq<Event>, after: seq<Event>, keyAttempts: nat)
    requires Answers(seen, shellPrep, session, digest, found, r, before, after, keyAttempts)
    ensures r.Refused? ==> r.problem !in {NoSession, EmptyText, TextTooLong, SlashCommand}
    ensures found.Some? ==> Pastes(after) == Pastes(before)
    ensures Pastes(after) <= Pastes(before) + 1 && KeyPresses(after) <= KeyPresses(before) + KeyBound(keyAttempts, shellPrep)
  {
  }

  function CheckpointOf(d: Delivery): Checkpoint {
    Checkpoint(d.status, d.session, d.digest)
  }

  /** The entry of an id is what the run says memory knows. */
  ghost predicate EntryAgrees(log: seq<Event>, memory: map<string, Delivery>, id: string) {
    EntryOf(log, id) == if id in memory then Some(Entry(CheckpointOf(memory[id]), memory[id].updatedAt)) else None
  }

  ghost predicate Entries(log: seq<Event>, memory: map<string, Delivery>) {
    && (forall id :: id in memory ==> WellFormed(id, memory[id]))
    && (forall id :: EntryAgrees(log, memory, id))
  }

  /** The record of an id, once this run has written it, is what persisting its state wrote. */
  ghost predicate RecordAgrees(log: seq<Event>, durable: map<string, Delivery>, disk: map<string, DiskRecord>,
                               Readable: DiskRecord -> bool, id: string) {
    if id !in durable then StampOf(log, id).None?
    else
      && id in disk && WellFormed(id, durable[id]) && Encode(id, durable[id]) == Some(disk[id])
      && StampOf(log, id) == Some(Stamp(CheckpointOf(durable[id]), durable[id].updatedEpoch, Readable(disk[id])))
  }

  ghost predicate Records(log: seq<Event>, durable: map<string, Delivery>, disk: map<string, DiskRecord>,
                          Readable: DiskRecord -> bool) {
    forall id :: RecordAgrees(log, durable, disk, Readable, id)
  }

  /** An event that changes neither memory nor disk. */
  predicate Quiet(e: Event) {
    e.Pasting? || e.Keys?
  }

  lemma EntriesFollow(log: seq<Event>, e: Event, before: map<string, Delivery>, after: map<string, Delivery>)
    requires Entries(log, before)
    requires forall id :: id in after ==> WellFormed(id, after[id])
    requires forall id :: EntryNext(if id in before then Some(Entry(CheckpointOf(before[id]), before[id].updatedAt)) else None, e, id)
                       == if id in after then Some(Entry(CheckpointOf(after[id]), after[id].updatedAt)) else None
    ensures Entries(log + [e], after)
  {
    hide EntryNext;
    Snoc(log, e);
    forall id ensures EntryAgrees(log + [e], after, id) {
      assert EntryAgrees(log, before, id);
    }
  }

  lemma RecordsStay(log: seq<Event>, e: Event, durable: map<string, Delivery>, disk: map<string, DiskRecord>,
                    Readable: DiskRecord -> bool)
    requires Records(log, durable, disk, Readable) && !e.Written? && !e.Erased?
    ensures Records(log + [e], durable, disk, Readable)
  {
    Snoc(log, e);
    forall id ensures RecordAgrees(log + [e], durable, disk, Readable, id) {
      assert RecordAgrees(log, durable, disk, Readable, id);
    }
  }

  lemma RecordWritten(log: seq<Event>, durable: map<string, Delivery>, disk: map<string, DiskRecord>,
                      Readable: DiskRecord -> bool,
                      id: string, state: Delivery, record: DiskRecord)
    requires Records(log, durable, disk, Readable) && WellFormed(id, state) && Encode(id, state) == Some(record)
    ensures Records(log + [Written(id, CheckpointOf(state), state.updatedEpoch, Readable(record))],
      durable[id := state], disk[id := record], Readable)
  {
    hide Encode;
    var e := Written(id, CheckpointOf(state), state.updatedEpoch, Readable(record));
    var states, records := durable[id := state], disk[id := record];
    Snoc(log, e);
    forall i ensures RecordAgrees(log + [e], states, records, Readable, i) {
      assert RecordAgrees(log, durable, disk, Readable, i);
    }
  }

  lemma RecordsErased(log: seq<Event>, durable: map<string, Delivery>, disk: map<string, DiskRecord>,
                      Readable: DiskRecord -> bool,
                      ids: set<string>, epoch: real, ttl: real)
    requires Records(log, durable, disk, Readable)
    requires forall id :: id in ids && id in disk ==> Expired(disk[id], epoch, ttl)
    ensures Allowed(log, Erased(ids, epoch), ttl)
    ensures Records(log + [Erased(ids, epoch)], durable - ids, disk - ids, Readable)
  {
    var e := Erased(ids, epoch);
    Snoc(log, e);
    forall id | id in ids && StampOf(log, id).Some? ensures epoch - StampOf(log, id).value.epoch > ttl {
      assert RecordAgrees(log, durable, disk, Readable, id);
    }
    forall id ensures RecordAgrees(log + [e], durable - ids, disk - ids, Readable, id) {
      assert RecordAgrees(log, durable, disk, Readable, id);
    }
  }

  lemma EntriesFollowQuiet(log: seq<Event>, e: Event, memory: map<string, Delivery>)
    requires Entries(log, memory) && Quiet(e)
    ensures Entries(log + [e], memory)
  {
    EntriesFollow(log, e, memory, memory);
  }

  lemma EntriesFollowErasure(log: seq<Event>, e: Event, memory: map<string, Delivery>)
    requires Entries(log, memory) && (e.Erased? || e.Written?)
    ensures Entries(log + [e], memory)
  {
    EntriesFollow(log, e, memory, memory);
  }

  lemma AllForgotten(log: seq<Event>, memory: map<string, Delivery>)
    requires Entries(log, memory)
    ensures Entries(log + [Restarted], map[])
  {
    EntriesFollow(log, Restarted, memory, map[]);
  }

  lemma IdleEntries(log: seq<Event>, memory: map<string, Delivery>, ids: set<string>, at: real, ttl: real)
    requires Entries(log, memory) && forall id :: id in ids ==> id in memory && memory[id].updatedAt < at - ttl
    ensures Allowed(log, Pruned(ids, at), ttl) && Entries(log + [Pruned(ids, at)], memory - ids)
  {
    EntriesFollow(log, Pruned(ids, at), memory, memory - ids);
    forall id | id in ids ensures EntryOf(log, id).Some? && at - EntryOf(log, id).value.at > ttl {
      assert EntryAgrees(log, memory, id);
    }
  }

  /** The event puts the state into memory. */
  predicate Keeps(e: Event, id: string, state: Delivery, memory: map<string, Delivery>) {
    || (e.Reached? && e == Reached(id, CheckpointOf(state), e.asOf, state.updatedAt))
    || (e.Recalled? && e == Recalled(id, CheckpointOf(state), e.asOf, state.updatedAt))
    || (e == Touched(id, state.updatedAt) && id in memory && CheckpointOf(state) == CheckpointOf(memory[id]))
  }

  lemma EntryStored(log: seq<Event>, e: Event, memory: map<string, Delivery>, id: string, state: Delivery)
    requires Entries(log, memory) && WellFormed(id, state) && Keeps(e, id, state, memory)
    ensures Entries(log + [e], memory[id := state])
    ensures e.Reached? || e.Recalled? || e.Touched?
  {
    EntriesFollow(log, e, memory, memory[id := state]);
  }

  class DeliveryService {
    const ttl: real
    const maxRecordBytes: nat
    const maxChars: nat
    const keyAttempts: nat
    const encodedSize: DiskRecord -> nat
    var mono: real
    var epoch: real
    var memory: map<string, Delivery>
    var disk: map<string, DiskRecord>
    var up: bool                              // whether the process is running
    ghost var durable: map<string, Delivery>  // the states behind the records written in this run
    ghost var log: seq<Event>

    function Readable(): DiskRecord -> bool {
      (r: DiskRecord) => encodedSize(r) <= maxRecordBytes
    }

    function Load(id: string): Option<Delivery>
      reads this
    {
      if id in disk then Decode(id, disk[id], encodedSize(disk[id]), maxRecordBytes, mono, epoch, ttl) else None
    }

    function Lookup(id: string): Option<Delivery>
      reads this
    {
      if id in memory then Some(memory[id]) else Load(id)
    }

    /** The run so far is safe, and memory and disk are what it says they are. */
    ghost predicate Valid()
      reads this
    {
      Safe(log, ttl) && Entries(log, memory) && Records(log, durable, disk, Readable())
    }

    constructor (ttl: real, maxRecordBytes: nat, maxChars: nat, keyAttempts: nat, encodedSize: DiskRecord -> nat,
                 mono: real, epoch: real, disk: map<string, DiskRecord>)
      ensures Valid() && log == [] && memory == map[] && this.disk == disk && up
    {
      this.ttl, this.maxRecordBytes, this.maxChars, this.keyAttempts := ttl, maxRecordBytes, maxChars, keyAttempts;
      this.encodedSize, this.mono, this.epoch := encodedSize, mono, epoch;
      this.memory, this.disk, this.log, this.durable, up := map[], disk, [], map[], true;
    }

    /** A lookup finds the checkpoint an id holds, and one that is found on disk alone is the one held. */
    lemma FoundIsHeld(id: string)
      requires Valid()
      ensures id in memory ==> Held(log, id, epoch, ttl) == Some(CheckpointOf(memory[id])) && WellFormed(id, memory[id])
      ensures id !in memory ==> EntryOf(log, id).None?
      ensures Held(log, id, epoch, ttl).Some? ==>
        Lookup(id).Some? && CheckpointOf(Lookup(id).value) == Held(log, id, epoch, ttl).value
      ensures id !in memory && Load(id).Some? ==>
        StampOf(log, id).None? || Held(log, id, epoch, ttl) == Some(CheckpointOf(Load(id).value))
    {
      hide Encode, Decode, Allowed;
      assert EntryAgrees(log, memory, id);
      assert RecordAgrees(log, durable, disk, Readable(), id);
      if id in durable {
        LoadAfterPersist(id, durable[id], encodedSize(disk[id]), maxRecordBytes, mono, epoch, ttl);
      }
    }

    /** Append an event that changes neither memory nor disk. */
    ghost method Observe(e: Event)
      requires Valid() && Quiet(e) && Allowed(log, e, ttl)
      modifies `log
      ensures Valid() && log == old(log) + [e]
      ensures forall id, asOf :: Held(log, id, asOf, ttl) == old(Held(log, id, asOf, ttl))
      ensures Pastes(log) == old(Pastes(log)) + (if e.Pasting? then 1 else 0)
      ensures KeyPresses(log) == old(KeyPresses(log)) + (if e.Keys? then 1 else 0)
    {
      hide Allowed, Safe, Entries, Records;
      SafeSnoc(log, e, ttl);
      Snoc(log, e);
      CountSnoc(log, e);
      EntriesFollowQuiet(log, e, memory);
      RecordsStay(log, e, durable, disk, Readable());
      log := log + [e];
    }

    /** The process dies and starts again: only the durable records survive. */
    method Restart()
      requires Valid()
      modifies `memory, `log, `up
      ensures Valid() && memory == map[] && log == old(log) + [Restarted] && up
    {
      hide Safe, Entries, Records;
      SafeSnoc(log, Restarted, ttl);
      AllForgotten(log, memory);
      RecordsStay(log, Restarted, durable, disk, Readable());
      memory, up := map[], true;
      log := log + [Restarted];
    }

    /** Time passes, on two clocks that need not agree. */
    method Wait(mono: real, epoch: real)
      requires Valid()
      modifies `mono, `epoch
      ensures Valid() && this.mono == mono && this.epoch == epoch
    {
      this.mono, this.epoch := mono, epoch;
    }

    /** Delete expired records; one may stay if its file is newer or resists.  No lookup can tell. */
    method Cleanup()
      requires Valid()
      modifies `disk, `durable, `log
      ensures Valid() && (forall id :: Load(id) == old(Load(id))) && (forall id :: Grows(old(log), log, id))
      ensures forall id :: id in disk ==> id in old(disk) && disk[id] == old(disk)[id]
      ensures forall id :: id in old(disk) && !Expired(old(disk)[id], epoch, ttl) ==> id in disk
      ensures Pastes(log) == old(Pastes(log)) && KeyPresses(log) == old(KeyPresses(log))
      ensures forall id :: EntryOf(log, id) == old(EntryOf(log, id))
    {
      var kept: set<string> := *;
      Erase(set id | id in disk && Expired(disk[id], epoch, ttl) && id !in kept);
    }

    method Erase(ids: set<string>)
      requires Valid() && forall id :: id in ids && id in disk ==> Expired(disk[id], epoch, ttl)
      modifies `disk, `durable, `log
      ensures Valid() && disk == old(disk) - ids && log == old(log) + [Erased(ids, epoch)]
      ensures forall id :: Load(id) == old(Load(id))
      ensures Pastes(log) == old(Pastes(log)) && KeyPresses(log) == old(KeyPresses(log))
      ensures forall id :: EntryOf(log, id) == old(EntryOf(log, id))
    {
      forall id | id in ids ensures Load(id).None? {
      }
      hide Safe, Entries, Records, Allowed, Decode;
      RecordsErased(log, durable, disk, Readable(), ids, epoch, ttl);
      SafeSnoc(log, Erased(ids, epoch), ttl);
      Snoc(log, Erased(ids, epoch));
      CountSnoc(log, Erased(ids, epoch));
      EntriesFollowErasure(log, Erased(ids, epoch), memory);
      disk, durable := disk - ids, durable - ids;
      log := log + [Erased(ids, epoch)];
    }

    /** Forget the in-memory entries past their time to live, and clean up when due. */
    method Prune()
      requires Valid()
      modifies `memory, `disk, `durable, `log
      ensures Valid() && (forall id :: Load(id) == old(Load(id))) && (forall id :: Grows(old(log), log, id))
      ensures forall id :: id in memory <==> id in old(memory) && old(memory[id]).updatedAt >= mono - ttl
      ensures forall id :: id in memory ==> memory[id] == old(memory[id])
      ensures |log| > |old(log)|
      ensures log[|old(log)|] == Pruned((set id | id in old(memory) && old(memory)[id].updatedAt < mono - ttl), mono)
      ensures Pastes(log) == old(Pastes(log)) && KeyPresses(log) == old(KeyPresses(log))
    {
      hide Safe, Entries, Records, Allowed, Decode, Pastes, KeyPresses;
      ghost var ids := set id | id in memory && memory[id].updatedAt < mono - ttl;
      ghost var e := Pruned(ids, mono);
      IdleEntries(log, memory, ids, mono, ttl);
      SafeSnoc(log, e, ttl);
      CountSnoc(log, e);
      RecordsStay(log, e, durable, disk, Readable());
      memory := map id | id in memory && memory[id].updatedAt >= mono - ttl :: memory[id];
      assert memory == old(memory) - ids;
      log := log + [e];
      ghost var pruned := log;
      var due: bool := *;
      if due {
        Cleanup();
      }
      forall id ensures Grows(old(log), log, id) {
        assert due ==> Grows(pruned, log, id);
        GrowsFurther(old(log), pruned, log, id);
      }
      assert pruned <= log by { assert Grows(old(log), log, "") && (due ==> Grows(pruned, log, "")); }
    }

    /** Write the durable record; the write may fail, or the process may die around it. */
    method Persist(id: string) returns (alive: bool, ghost written: bool)
      requires Valid() && id in memory
      modifies `disk, `durable, `log, `up
      ensures Valid() && Grows(old(log), log, id) && up == alive
      ensures Encode(id, memory[id]).Some?
      ensures if written
        then disk == old(disk)[id := Encode(id, memory[id]).value]
             && log == old(log) + [Written(id, CheckpointOf(memory[id]), memory[id].updatedEpoch, Readable()(Encode(id, memory[id]).value))]
        else disk == old(disk) && log == old(log)
      ensures Pastes(log) == old(Pastes(log)) && KeyPresses(log) == old(KeyPresses(log))
      ensures forall i :: EntryOf(log, i) == old(EntryOf(log, i))
    {
      FoundIsHeld(id);
      LoadAfterPersist(id, memory[id], 0, maxRecordBytes, mono, epoch, ttl);
      hide Safe, Records, Encode;
      var success: bool := *;
      alive, written := *, success;
      up := alive;
      var record := Encode(id, memory[id]);
      if success {
        ghost var e := Written(id, CheckpointOf(memory[id]), memory[id].updatedEpoch, Readable()(record.value));
        assert EntryAgrees(log, memory, id);
        SafeSnoc(log, e, ttl);
        Snoc(log, e);
        CountSnoc(log, e);
        EntriesFollowErasure(log, e, memory);
        RecordWritten(log, durable, disk, Readable(), id, memory[id], record.value);
        disk := disk[id := record.value];
        durable := durable[id := memory[id]];
        log := log + [e];
      }
    }

    /** Put a state into memory, on account of an event that says so. */
    method Keep(id: string, state: Delivery, ghost e: Event)
      requires Valid() && WellFormed(id, state) && Allowed(log, e, ttl) && Keeps(e, id, state, memory)
      modifies `memory, `log
      ensures Valid() && memory == old(memory)[id := state] && log == old(log) + [e]
      ensures Pastes(log) == old(Pastes(log)) && KeyPresses(log) == old(KeyPresses(log))
    {
      hide Safe, Entries, Records, Allowed, WellFormed, Keeps, Pastes, KeyPresses;
      SafeSnoc(log, e, ttl);
      CountSnoc(log, e);
      EntryStored(log, e, memory, id, state);
      RecordsStay(log, e, durable, disk, Readable());
      memory := memory[id := state];
      log := log + [e];
    }

    /** Store a checkpoint in memory, then on disk. */
    method Remember(id: string, state: Delivery, ghost asOf: real) returns (alive: bool, ghost written: bool)
      requires Valid() && WellFormed(id, state)
      requires Continues(Held(log, id, asOf, ttl), state.session, state.digest)
      modifies `memory, `disk, `durable, `log, `up
      ensures Valid() && Grows(old(log), log, id) && up == alive
      ensures memory == old(memory)[id := state.(updatedAt := mono, updatedEpoch := epoch)]
      ensures written ==> id in disk && Encode(id, memory[id]) == Some(disk[id]) && disk == old(disk)[id := disk[id]]
      ensures written ==>
        log == old(log) + [Reached(id, CheckpointOf(state), asOf, mono), Written(id, CheckpointOf(state), epoch, Readable()(disk[id]))]
      ensures !written ==> disk == old(disk) && log == old(log) + [Reached(id, CheckpointOf(state), asOf, mono)]
      ensures Pastes(log) == old(Pastes(log)) && KeyPresses(log) == old(KeyPresses(log))
    {
      hide Safe, Entries, Records, Encode, Held;
      Keep(id, state.(updatedAt := mono, updatedEpoch := epoch), Reached(id, CheckpointOf(state), asOf, mono));
      alive, written := Persist(id);
    }

    lemma MayTouch(id: string)
      requires Valid() && id in memory
      ensures var state := memory[id].(updatedAt := mono, updatedEpoch := epoch); var e := Touched(id, mono);
        WellFormed(id, state) && Allowed(log, e, ttl) && Keeps(e, id, state, memory)
    {
      FoundIsHeld(id);
      hide Safe, Records, Encode, Held;
    }

    /** Refresh the age of an entry without changing its checkpoint. */
    method Touch(id: string) returns (alive: bool)
      requires Valid() && id in memory
      modifies `memory, `disk, `durable, `log, `up
      ensures Valid() && Grows(old(log), log, id) && up == alive
      ensures memory == old(memory)[id := old(memory)[id].(updatedAt := mono, updatedEpoch := epoch)]
      ensures Pastes(log) == old(Pastes(log)) && KeyPresses(log) == old(KeyPresses(log))
    {
      MayTouch(id);
      hide Safe, Entries, Records, Encode, Held, WellFormed, Allowed, Keeps;
      Keep(id, memory[id].(updatedAt := mono, updatedEpoch := epoch), Touched(id, mono));
      ghost var written;
      alive, written := Persist(id);
    }

    method PasteBuffer(id: string, session: string, digest: Digest, ghost asOf: real) returns (o: Outcome)
      requires Valid() && Held(log, id, asOf, ttl).None?
      modifies `log, `up
      ensures up <==> o != Crashed
      ensures Valid() && log == old(log) + [Pasting(id, session, digest, asOf)] && Held(log, id, asOf, ttl).None?
      ensures Pastes(log) == old(Pastes(log)) + 1 && KeyPresses(log) == old(KeyPresses(log))
    {
      hide Safe, Entries, Records, Held;
      Observe(Pasting(id, session, digest, asOf));
      o := *;
      up := o != Crashed;
    }

    method SendKeys(id: string, session: string, digest: Digest, ghost asOf: real) returns (o: Outcome)
      requires Valid() && Continues(Held(log, id, asOf, ttl), session, digest)
      modifies `log, `up
      ensures up <==> o != Crashed
      ensures Valid() && log == old(log) + [Keys(id, session, digest, asOf)]
      ensures Held(log, id, asOf, ttl) == old(Held(log, id, asOf, ttl))
      ensures Pastes(log) == old(Pastes(log)) && KeyPresses(log) == old(KeyPresses(log)) + 1
    {
      hide Safe, Entries, Records, Held;
      Observe(Keys(id, session, digest, asOf));
      o := *;
      up := o != Crashed;
    }

    /** The state a send for id starts from: what pruning leaves in memory, else the durable record. */
    function Found(id: string): Option<Delivery>
      reads this
    {
      if id in memory && memory[id].updatedAt >= mono - ttl then Some(memory[id]) else Load(id)
    }

    /** A receipt is backed by an accepted entry for exactly this session and text. */
    predicate AcceptedBy(r: SendResult, id: string, session: string, digest: Digest)
      reads this
    {
      r.Sent? ==> id in memory && memory[id].receipt == Some(r.receipt) &&
                  CheckpointOf(memory[id]) == Checkpoint(Accepted, session, digest)
    }

    /** A receipt of a delivery just made. */
    predicate IsNew(r: SendResult, id: string, session: string)
      requires r.Sent?
    {
      !r.duplicate && r.receipt.deliveryId == id && r.receipt.session == session
    }

    /**
     * A send starts from what was durably written, over every restart, pruning and failed
     * write since, as long as the record is fresh: the text is then not pasted again.
     */
    lemma WrittenIsFound(i: nat)
      requires Valid() && i < |log| && log[i].Written?
      requires forall k :: i < k < |log| ==> Fresh(log, k, log[i].id, ttl)
      requires var s := StampOf(log, log[i].id); s.Some? ==> s.value.readable && epoch - s.value.epoch <= ttl
      ensures Found(log[i].id).Some? && Upholds(log[i].checkpoint, CheckpointOf(Found(log[i].id).value))
    {
      var id := log[i].id;
      RecordPersists(log, ttl, i, |log|);
      assert log[..|log|] == log;
      assert EntryAgrees(log, memory, id) && RecordAgrees(log, durable, disk, Readable(), id);
      hide Encode, Decode, Safe;
      LoadAfterPersist(id, durable[id], encodedSize(disk[id]), maxRecordBytes, mono, epoch, ttl);
    }

    /**
     * When an id of this run is pasted again: a send finds nothing of it, and so may paste,
     * exactly if its entry is gone or idle past its time to live, and no record of it is
     * readable and within its own.  The entry of a reached id goes only by a restart or a prune.
     */
    lemma PastedAgainExactly(i: nat)
      requires Valid() && i < |log| && log[i].Reached?
      requires log[i].id in disk ==> StampOf(log, log[i].id).Some?
      ensures var id := log[i].id; var m, s := EntryOf(log, id), StampOf(log, id);
        && (Found(id).None? <==>
              && (m.None? || m.value.at < mono - ttl)
              && (s.None? || !s.value.readable || epoch - s.value.epoch > ttl))
        && (m.None? ==> exists k :: i < k < |log| && Forgets(log, k, id, ttl))
    {
      var id := log[i].id;
      assert log[..|log|] == log;
      assert EntryAgrees(log, memory, id) && RecordAgrees(log, durable, disk, Readable(), id);
      if forall k :: i < k < |log| ==> !Forgets(log, k, id, ttl) {
        EntryPersists(log, ttl, i, |log|);
      }
      if id in durable {
        hide Encode, Decode, Safe, Forgets;
        LoadAfterPersist(id, durable[id], encodedSize(disk[id]), maxRecordBytes, mono, epoch, ttl);
      }
    }

    /**
     * Prune, and bring the durable record of id back into memory when it is not there; a
     * record found expired is deleted.
     */
    method Recall(id: string) returns (existing: Option<Delivery>)
      requires Valid()
      modifies `memory, `disk, `durable, `log
      ensures Valid() && Grows(old(log), log, id)
      ensures existing == old(Found(id)) && existing == (if id in memory then Some(memory[id]) else None)
      ensures existing.Some? ==> WellFormed(id, existing.value)
      ensures existing.None? ==> Held(log, id, epoch, ttl).None?
      ensures Pastes(log) == old(Pastes(log)) && KeyPresses(log) == old(KeyPresses(log))
    {
      hide Safe, Records, Decode;
      Prune();
      ghost var pruned := log;
      FoundIsHeld(id);
      existing := Lookup(id);
      if id !in memory && existing.Some? {
        ghost var e := Recalled(id, CheckpointOf(existing.value), epoch, mono);
        LoadedNow(id);
        Keep(id, existing.value, e);
      } else if id !in memory && id in disk && Expired(disk[id], epoch, ttl) {
        var deleted: bool := *;
        if deleted {
          Erase({id});
          FoundIsHeld(id);
        }
      }
      GrowsFurther(old(log), pruned, log, id);
    }

    lemma LoadedNow(id: string)
      requires Load(id).Some?
      ensures Load(id).value.updatedAt == mono && WellFormed(id, Load(id).value)
    {
    }

    /**
     * One send attempt.  The terminal's and the file system's answers, the passing
     * of time and a crash at any effect are left open.
     */
    method Send(id: string, session: string, text: string, hasSession: bool, slashCommand: bool, shellPrep: bool)
      returns (r: SendResult, ghost seen: Seen)
      requires Valid() && up
      modifies this
      ensures Valid() && Grows(old(log), log, id) && (r.Stopped? <==> !up)
      // What cannot be sent is refused before anything else, each for its own reason.
      ensures r == Refused(NoSession) <==> !hasSession
      ensures r == Refused(EmptyText) <==> hasSession && Strip(text) == ""
      ensures r == Refused(TextTooLong) <==> hasSession && Strip(text) != "" && |text| > maxChars
      ensures r == Refused(SlashCommand) <==> hasSession && Strip(text) != "" && |text| <= maxChars && slashCommand
      ensures !Sendable(text, hasSession, slashCommand) ==> log == old(log)
      // Anything else is answered by what is found of the id and by what the terminal shows.
      ensures Sendable(text, hasSession, slashCommand) ==>
        Answers(seen, shellPrep, session, Digest(text), old(Found(id)), r, old(log), log, keyAttempts)
      // A receipt means the id is accepted for exactly this session and text.
      ensures AcceptedBy(r, id, session, Digest(text)) && (r.Sent? && !r.duplicate ==> IsNew(r, id, session))
      // A pasted id is never pasted again; at most one paste and a bounded number of keys otherwise.
      ensures old(Found(id)).Some? ==> Pastes(log) == old(Pastes(log))
      ensures Pastes(log) <= old(Pastes(log)) + 1
      ensures KeyPresses(log) <= old(KeyPresses(log)) + KeyBound(keyAttempts, shellPrep)
    {
      hide Safe, Entries, Records, Held, Decode, Answers;
      seen := NOTHING_SEEN;
      if !hasSession { return Refused(NoSession), seen; }
      if Strip(text) == "" { return Refused(EmptyText), seen; }
      if |text| > maxChars { return Refused(TextTooLong), seen; }
      if slashCommand { return Refused(SlashCommand), seen; }
      r, seen := SendText(id, session, Digest(text), shellPrep);
      AnswersMean(seen, shellPrep, session, Digest(text), old(Found(id)), r, old(log), log, keyAttempts);
    }

    /** A send of a text that can be sent, once its locks are held. */
    method SendText(id: string, session: string, digest: Digest, shellPrep: bool) returns (r: SendResult, ghost seen: Seen)
      requires Valid() && up
      modifies this
      ensures Valid() && Grows(old(log), log, id) && (r.Stopped? <==> !up)
      ensures Answers(seen, shellPrep, session, digest, old(Found(id)), r, old(log), log, keyAttempts)
      ensures AcceptedBy(r, id, session, digest) && (r.Sent? && !r.duplicate ==> IsNew(r, id, session))
    {
      hide Safe, Entries, Records, Held, Decode, Delivers;
      seen := NOTHING_SEEN;
      var existing := Recall(id);
      ghost var recalled := log;
      if existing.Some? && !Matches(existing.value, session, digest) {
        return Refused(IdReused), seen;
      }
      if existing.Some? && existing.value.status == Accepted {
        var alive := Touch(id);
        GrowsFurther(old(log), recalled, log, id);
        return (if alive then Sent(memory[id].receipt.value, true) else Stopped), seen;
      }
      r, seen := Deliver(id, session, digest, shellPrep, epoch);
      GrowsFurther(old(log), recalled, log, id);
      DeliversSince(seen, shellPrep, existing.Some?, r, old(log), recalled, log, keyAttempts);
    }

    /** The text can be sent at all. */
    predicate Sendable(text: string, hasSession: bool, slashCommand: bool) {
      hasSession && Strip(text) != "" && |text| <= maxChars && !slashCommand
    }

    /**
     * Carry an id that is new, or already pasted for this session and text, to acceptance;
     * the lookup was made when the wall clock showed asOf.
     */
    method Deliver(id: string, session: string, digest: Digest, shellPrep: bool, ghost asOf: real)
      returns (r: SendResult, ghost seen: Seen)
      requires Valid() && up
      requires id in memory ==> CheckpointOf(memory[id]) == Checkpoint(Pasted, session, digest)
      requires id !in memory ==> Held(log, id, asOf, ttl).None?
      modifies this
      ensures Valid() && Grows(old(log), log, id) && (r.Stopped? <==> !up)
      ensures AcceptedBy(r, id, session, digest) && (r.Sent? ==> IsNew(r, id, session))
      ensures Delivers(seen, shellPrep, id in old(memory), r, old(log), log, keyAttempts)
    {
      MayContinue(id, session, digest, asOf);
      hide Safe, Entries, Records, Held, Delivers, Valid, Continues, IsNew, AcceptedBy, Pastes, KeyPresses;
      ghost var continuing := id in memory;
      var agentInPane: bool := *;
      if shellPrep && !agentInPane {
        r := SendShellLine(id, session, digest, asOf);
        seen := NOTHING_SEEN;
        ShellDelivers(seen, continuing, r, old(log), log, keyAttempts);
      } else {
        r, seen := DeliverToAgent(id, session, digest, asOf);
        AgentDelivers(seen, seen, shellPrep, continuing, r, old(log), log, keyAttempts);
      }
    }

    /** An agent is there: an unsent draft keeps a new text out; otherwise paste it, or continue one pasted before. */
    method DeliverToAgent(id: string, session: string, digest: Digest, ghost asOf: real) returns (r: SendResult, ghost seen: Seen)
      requires Valid() && up
      requires id in memory ==> CheckpointOf(memory[id]) == Checkpoint(Pasted, session, digest)
      requires id !in memory ==> Held(log, id, asOf, ttl).None?
      modifies this
      ensures Valid() && Grows(old(log), log, id) && (r.Stopped? <==> !up) && seen.agentInPane
      ensures AcceptedBy(r, id, session, digest) && (r.Sent? ==> IsNew(r, id, session))
      ensures Delivers(seen, false, id in old(memory), r, old(log), log, keyAttempts)
    {
      hide Safe, Entries, Records, Held, Delivers, Valid, IsNew, Pastes, KeyPresses;
      var codex: bool, hasDraft: bool := *, *;
      var continuing := id in memory;
      seen := NOTHING_SEEN.(agentInPane := true, codex := codex, hasDraft := hasDraft);
      if codex && !continuing && hasDraft {
        r := Refused(UnsentDraft);
        DraftDelivers(seen, log, keyAttempts);
        return;
      }
      ghost var shown, evidence, text := false, None, false;
      if continuing {
        r, text, evidence := Continue(id, session, digest, codex, asOf);
      } else {
        r, shown, evidence := PasteAndSubmit(id, session, digest, codex, asOf);
      }
      seen := seen.(composerHasText := text, pasteShown := shown, evidence := evidence);
      AgentDelivers(seen.(hasDraft := false), seen, false, continuing, r, old(log), log, keyAttempts);
    }

    /** A text pasted before: leave it alone when it is gone from the composer, else press the submit key. */
    method Continue(id: string, session: string, digest: Digest, codex: bool, ghost asOf: real)
      returns (r: SendResult, ghost text: bool, ghost evidence: Option<string>)
      requires Valid() && up && id in memory && CheckpointOf(memory[id]) == Checkpoint(Pasted, session, digest)
      modifies this
      ensures Valid() && Grows(old(log), log, id) && (r.Stopped? <==> !up)
      ensures AcceptedBy(r, id, session, digest) && (r.Sent? ==> IsNew(r, id, session))
      ensures Delivers(Seen(true, codex, false, text, false, evidence), false, true, r, old(log), log, keyAttempts)
    {
      hide Safe, Entries, Records, Held, Valid, IsNew, AcceptedBy, Pastes, KeyPresses;
      var composerHasText: bool := *;
      text := composerHasText;
      if codex && !composerHasText {
        r, evidence := RecoverSubmission(id, session, digest, asOf);
      } else {
        r, evidence := Submit(id, session, digest, codex, asOf);
      }
    }

    /** A new id: paste its text, and once it shows press the submit key. */
    method PasteAndSubmit(id: string, session: string, digest: Digest, codex: bool, ghost asOf: real)
      returns (r: SendResult, ghost shown: bool, ghost evidence: Option<string>)
      requires Valid() && up && id !in memory && Held(log, id, asOf, ttl).None?
      modifies this
      ensures Valid() && Grows(old(log), log, id) && (r.Stopped? <==> !up)
      ensures AcceptedBy(r, id, session, digest) && (r.Sent? ==> IsNew(r, id, session))
      ensures Delivers(Seen(true, codex, false, false, shown, evidence), false, false, r, old(log), log, keyAttempts)
    {
      hide Safe, Entries, Records, Held;
      ghost var before := log;
      evidence := None;
      var problem;
      problem, shown := PasteText(id, session, digest, asOf);
      if problem.Some? {
        r := problem.value;
      } else {
        ghost var ready := log;
        r, evidence := Submit(id, session, digest, codex, asOf);
        GrowsFurther(before, ready, log, id);
      }
    }

    lemma MayContinue(id: string, session: string, digest: Digest, asOf: real)
      requires Valid() && (id !in memory ==> Held(log, id, asOf, ttl).None?)
      requires id in memory ==> CheckpointOf(memory[id]) == Checkpoint(Pasted, session, digest)
      ensures Continues(Held(log, id, asOf, ttl), session, digest)
    {
      HeldInMemory(id, asOf);
      hide Safe, Entries, Records, Held;
    }

    /** What memory knows of an id is what it holds, whatever the clock. */
    lemma HeldInMemory(id: string, asOf: real)
      requires Valid()
      ensures id in memory ==> Held(log, id, asOf, ttl) == Some(CheckpointOf(memory[id])) && WellFormed(id, memory[id])
    {
      assert EntryAgrees(log, memory, id);
    }

    /** Type a launch line into a pane without an agent: the text, then Enter. */
    method SendShellLine(id: string, session: string, digest: Digest, ghost asOf: real) returns (r: SendResult)
      requires Valid() && up && Continues(Held(log, id, asOf, ttl), session, digest)
      modifies this
      ensures Valid() && Grows(old(log), log, id) && Pastes(log) == old(Pastes(log)) && (r.Stopped? <==> !up)
      ensures KeyPresses(log) <= old(KeyPresses(log)) + 2 && (r.Sent? ==> KeyPresses(log) == old(KeyPresses(log)) + 2)
      ensures r.Refused? ==> r.problem == TmuxFailed && KeyPresses(log) > old(KeyPresses(log))
      ensures AcceptedBy(r, id, session, digest) && (r.Sent? ==> IsNew(r, id, session) && r.receipt.state == "shell")
    {
      hide Safe, Entries, Records, Held;
      for key := 0 to 2
        invariant Valid() && up && Grows(old(log), log, id) && Continues(Held(log, id, asOf, ttl), session, digest)
        invariant Pastes(log) == old(Pastes(log)) && KeyPresses(log) == old(KeyPresses(log)) + key
      {
        ghost var before := log;
        var o := SendKeys(id, session, digest, asOf);
        GrowsFurther(old(log), before, log, id);
        if o != Done {
          return if o == Failed then Refused(TmuxFailed) else Stopped;
        }
      }
      ghost var typed := log;
      r := Accept(id, session, digest, "shell", 1, asOf);
      GrowsFurther(old(log), typed, log, id);
    }

    method Accept(id: string, session: string, digest: Digest, state: string, attempts: nat, ghost asOf: real)
      returns (r: SendResult)
      requires Valid() && Continues(Held(log, id, asOf, ttl), session, digest)
      modifies `memory, `disk, `durable, `log, `up
      ensures !r.Refused? && (r.Stopped? <==> !up) && (r.Sent? ==> r.receipt == Receipt(id, session, state, attempts))
      ensures Valid() && Grows(old(log), log, id) && Pastes(log) == old(Pastes(log))
      ensures KeyPresses(log) == old(KeyPresses(log))
      ensures AcceptedBy(r, id, session, digest) && (r.Sent? ==> !r.duplicate)
    {
      hide Safe, Entries, Records, Held, Encode;
      var receipt := Receipt(id, session, state, attempts);
      var alive, _ := Remember(id, Delivery(session, digest, Accepted, Some(receipt), false, 0, NO_PROBE, mono, epoch), asOf);
      r := if alive then Sent(receipt, false) else Stopped;
    }

    /** Load the buffer, paste it, and reach the pasted checkpoint once the paste shows. */
    method PasteText(id: string, session: string, digest: Digest, ghost asOf: real)
      returns (problem: Option<SendResult>, ghost seen: bool)
      requires Valid() && up && Held(log, id, asOf, ttl).None?
      modifies this
      ensures (problem.Some? && problem.value.Stopped? <==> !up) && (problem.None? ==> Pastes(log) == old(Pastes(log)) + 1)
      ensures problem.Some? && problem.value.Refused? ==> problem.value.problem in {TmuxFailed, PasteUnconfirmed}
      ensures Valid() && Grows(old(log), log, id) && Pastes(log) <= old(Pastes(log)) + 1
      ensures KeyPresses(log) == old(KeyPresses(log))
      ensures problem.Some? ==> !problem.value.Sent?
      ensures problem == Some(Refused(PasteUnconfirmed)) ==> Pastes(log) == old(Pastes(log)) + 1 && !seen
      ensures problem.None? ==> seen
      ensures problem.None? ==> id in memory && CheckpointOf(memory[id]) == Checkpoint(Pasted, session, digest)
    {
      hide Safe, Entries, Records, Held, Encode;
      var queuedBaseline: int := *;
      var probe: Probe := *;
      var loaded: Outcome := *;
      up := loaded != Crashed;
      seen := false;
      if loaded != Done {
        return Some(if loaded == Failed then Refused(TmuxFailed) else Stopped), seen;
      }
      var o := PasteBuffer(id, session, digest, asOf);
      if o != Done {
        return Some(if o == Failed then Refused(TmuxFailed) else Stopped), seen;
      }
      ghost var pasted := log;
      var shown: bool := *;
      seen := shown;
      var m: real, e: real := *, *;
      Wait(m, e);
      if !shown {
        return Some(Refused(PasteUnconfirmed)), seen;
      }
      var alive, _ := Remember(id, Delivery(session, digest, Pasted, None, true, queuedBaseline, probe, mono, epoch), asOf);
      GrowsFurther(old(log), pasted, log, id);
      problem := if alive then None else Some(Stopped);
    }

    /** The pasted text left the composer: accept on evidence, otherwise send nothing. */
    method RecoverSubmission(id: string, session: string, digest: Digest, ghost asOf: real)
      returns (r: SendResult, ghost seen: Option<string>)
      requires Valid() && up && id in memory && CheckpointOf(memory[id]) == Checkpoint(Pasted, session, digest)
      modifies this
      ensures Valid() && Grows(old(log), log, id) && Pastes(log) == old(Pastes(log))
      ensures KeyPresses(log) == old(KeyPresses(log))
      ensures AcceptedBy(r, id, session, digest) && (r.Sent? ==> IsNew(r, id, session)) && (r.Stopped? <==> !up)
      ensures r.Sent? ==> seen == Some(r.receipt.state)
      ensures r.Refused? ==> seen.None?
      ensures r.Refused? ==> r.problem == Ambiguous && id in memory && CheckpointOf(memory[id]) == Checkpoint(Pasted, session, digest)
    {
      HeldInMemory(id, asOf);
      hide Safe, Entries, Records, Held, Encode;
      var m: real, e: real := *, *;
      Wait(m, e);
      var found: bool, state: string := *, *;
      var evidence := if found then Some(state) else None;
      seen := evidence;
      if evidence.None? {
        var alive := Touch(id);
        return (if alive then Refused(Ambiguous) else Stopped), seen;
      }
      var receipt := Receipt(id, session, evidence.value, 0);
      var alive, _ := Remember(id, memory[id].(status := Accepted, receipt := Some(receipt)), asOf);
      r := if alive then Sent(receipt, false) else Stopped;
    }

    /** Press the submit key until the submission is seen, at most keyAttempts times. */
    method Submit(id: string, session: string, digest: Digest, codex: bool, ghost asOf: real)
      returns (r: SendResult, ghost seen: Option<string>)
      requires Valid() && up && id in memory && CheckpointOf(memory[id]) == Checkpoint(Pasted, session, digest)
      modifies this
      ensures Valid() && Grows(old(log), log, id) && Pastes(log) == old(Pastes(log))
      ensures KeyPresses(log) <= old(KeyPresses(log)) + (if codex then keyAttempts else 1)
      ensures AcceptedBy(r, id, session, digest) && (r.Sent? ==> IsNew(r, id, session)) && (r.Stopped? <==> !up)
      ensures r.Sent? ==> 0 < r.receipt.enterAttempts == KeyPresses(log) - old(KeyPresses(log))
      ensures r.Sent? ==> seen == Some(r.receipt.state) && (!codex ==> r.receipt.state == "sent" && r.receipt.enterAttempts == 1)
      ensures r == Refused(NotAccepted) ==> codex && seen.None? && KeyPresses(log) == old(KeyPresses(log)) + keyAttempts
      ensures r == Refused(TmuxFailed) ==> KeyPresses(log) > old(KeyPresses(log))
      ensures r.Refused? ==> r.problem in {TmuxFailed, NotAccepted}
      ensures r.Refused? ==> id in memory && CheckpointOf(memory[id]) == Checkpoint(Pasted, session, digest)
    {
      HeldInMemory(id, asOf);
      hide Safe, Entries, Records, Held, Encode;
      var attempts := if codex then keyAttempts else 1;
      var accepted: Option<string> := None;
      seen := None;
      var pressed := 0;
      while pressed < attempts && !accepted.Some?
        invariant Valid() && up && pressed <= attempts && (accepted.Some? ==> pressed > 0)
        invariant pressed <= attempts && Grows(old(log), log, id)
        invariant seen == accepted && (!codex && pressed > 0 ==> accepted == Some("sent"))
        invariant memory == old(memory) && Continues(Held(log, id, asOf, ttl), session, digest)
        invariant Pastes(log) == old(Pastes(log)) && KeyPresses(log) == old(KeyPresses(log)) + pressed
      {
        ghost var before := log;
        var o := SendKeys(id, session, digest, asOf);
        GrowsFurther(old(log), before, log, id);
        pressed := pressed + 1;
        if o != Done {
          return (if o == Failed then Refused(TmuxFailed) else Stopped), seen;
        }
        if codex {
          var m: real, e: real := *, *;
          Wait(m, e);
          accepted := *;
        } else {
          accepted := Some("sent");
        }
        seen := accepted;
      }
      ghost var tried := log;
      if !accepted.Some? {
        var alive := Touch(id);
        GrowsFurther(old(log), tried, log, id);
        return (if alive then Refused(NotAccepted) else Stopped), seen;
      }
      r := Accept(id, session, digest, accepted.value, pressed, asOf);
      GrowsFurther(old(log), tried, log, id);
    }
  }

  /**
   * A text that was accepted, but whose record could not be written, is pasted again after a
   * restart: the next send finds nothing, and reaches its paste.
   */
  method UnwrittenIsForgotten(s: DeliveryService, id: string, session: string, digest: Digest, attempts: nat)
    returns (ghost written: bool, ghost accepted: nat)
    requires s.Valid() && id !in s.memory && id !in s.disk
    modifies s
    ensures s.Valid() && old(s.log) <= s.log && accepted < |s.log|
    ensures s.log[accepted].Reached? && s.log[accepted].id == id
    ensures s.log[accepted].checkpoint == Checkpoint(Accepted, session, digest)
    ensures !written ==> s.log[|s.log| - 1] == Pasting(id, session, digest, s.epoch) && accepted < |s.log| - 1
  {
    s.FoundIsHeld(id);
    hide Safe, Entries, Records, Held, Encode, Decode;
    accepted := |s.log|;
    var receipt := Receipt(id, session, "sent", attempts);
    var state := Delivery(session, digest, Accepted, Some(receipt), false, 0, NO_PROBE, s.mono, s.epoch);
    ghost var _, w := s.Remember(id, state, s.epoch);
    written := w;
    s.Restart();
    ghost var restarted := s.log;
    NextSendPastes(s, id, session, digest);
    assert restarted[accepted] == s.log[accepted];
  }

  /** The first steps of a send of an id of which nothing is found: it reaches its paste. */
  method NextSendPastes(s: DeliveryService, id: string, session: string, digest: Digest)
    requires s.Valid()
    modifies s
    ensures s.Valid() && old(s.log) <= s.log && s.epoch == old(s.epoch)
    ensures old(s.Found(id)).None? ==>
      |s.log| > |old(s.log)| && s.log[|s.log| - 1] == Pasting(id, session, digest, s.epoch)
  {
    hide Safe, Entries, Records, Held, Encode, Decode;
    var existing := s.Recall(id);
    if existing.None? {
      var _ := s.PasteBuffer(id, session, digest, s.epoch);
    }
  }
}
