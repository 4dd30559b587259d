// Timer-batched deltas on their way from the session actors to the journal.
module DeltaBatching {
  import opened Common
  import opened Actor

  datatype Key = Key(session: string, item: string)

  /** An event handed to the journal; a delta may stand for a whole batch. */
  datatype Published = Published(session: string, kind: EventKind, item: Option<string>, revision: nat,
                                 batchCount: nat, deltaChars: nat, textLength: nat)

  datatype Batch = Batch(revision: nat, batchCount: nat, deltaChars: nat, textLength: nat)

  predicate IsFor(p: Published, k: Key) {
    p.session == k.session && p.item == Some(k.item)
  }

  /** Characters of all deltas of an item. */
  function Chars(s: seq<Published>, k: Key): nat {
    if s == [] then 0
    else Chars(s[..|s| - 1], k) + if s[|s| - 1].kind == Delta && IsFor(s[|s| - 1], k) then s[|s| - 1].deltaChars else 0
  }

  /** Number of actor deltas behind the deltas of an item. */
  function Deltas(s: seq<Published>, k: Key): nat {
    if s == [] then 0
    else Deltas(s[..|s| - 1], k) + if s[|s| - 1].kind == Delta && IsFor(s[|s| - 1], k) then s[|s| - 1].batchCount else 0
  }

  /** An event about an item that is no delta, and what was told of the item's deltas before it. */
  datatype Mark = Mark(event: Published, chars: nat, deltas: nat)

  function Marks(s: seq<Published>, k: Key): seq<Mark> {
    if s == [] then []
    else
      var front, last := s[..|s| - 1], s[|s| - 1];
      Marks(front, k) + if last.kind != Delta && IsFor(last, k) then [Mark(last, Chars(front, k), Deltas(front, k))] else []
  }

  /** The events that are no deltas, in order. */
  function Plain(s: seq<Published>): seq<Published> {
    if s == [] then []
    else Plain(s[..|s| - 1]) + if s[|s| - 1].kind != Delta then [s[|s| - 1]] else []
  }

  /** The revision and the length of the text that the last delta of an item tells. */
  function LastTold(s: seq<Published>, k: Key): Option<(nat, nat)> {
    if s == [] then None
    else if s[|s| - 1].kind == Delta && IsFor(s[|s| - 1], k) then Some((s[|s| - 1].revision, s[|s| - 1].textLength))
    else LastTold(s[..|s| - 1], k)
  }

  predicate Revises(p: Published, k: Key) {
    (p.kind == Delta || p.kind == Final) && IsFor(p, k)
  }

  /** The revision of the last delta or final event of an item; zero if there is none. */
  function LastRevision(s: seq<Published>, k: Key): nat {
    if s == [] then 0
    else if Revises(s[|s| - 1], k) then s[|s| - 1].revision
    else LastRevision(s[..|s| - 1], k)
  }

  /** The delta and final events of every item have strictly increasing revisions, in order. */
  ghost predicate Rising(s: seq<Published>) {
    forall i, j, k :: 0 <= i < j < |s| && Revises(s[i], k) && Revises(s[j], k) ==> s[i].revision < s[j].revision
  }

  lemma {:induction false} LastIsHighest(s: seq<Published>, k: Key)
    requires Rising(s)
    ensures forall i :: 0 <= i < |s| && Revises(s[i], k) ==> s[i].revision <= LastRevision(s, k)
  {
    if s != [] && !Revises(s[|s| - 1], k) {
      LastIsHighest(s[..|s| - 1], k);
    }
  }

  lemma RisingSnoc(s: seq<Published>, p: Published)
    requires Rising(s)
    requires forall k :: Revises(p, k) ==> LastRevision(s, k) < p.revision
    ensures Rising(s + [p])
  {
    forall i, k | 0 <= i < |s| && Revises(s[i], k) && Revises(p, k) ensures s[i].revision < p.revision {
      LastIsHighest(s, k);
    }
  }

  lemma Snoc(s: seq<Published>, p: Published, k: Key)
    ensures Chars(s + [p], k) == Chars(s, k) + if p.kind == Delta && IsFor(p, k) then p.deltaChars else 0
    ensures Deltas(s + [p], k) == Deltas(s, k) + if p.kind == Delta && IsFor(p, k) then p.batchCount else 0
    ensures LastRevision(s + [p], k) == if Revises(p, k) then p.revision else LastRevision(s, k)
    ensures LastTold(s + [p], k) == if p.kind == Delta && IsFor(p, k) then Some((p.revision, p.textLength)) else LastTold(s, k)
    ensures Marks(s + [p], k) ==
      Marks(s, k) + if p.kind != Delta && IsFor(p, k) then [Mark(p, Chars(s, k), Deltas(s, k))] else []
  {
    assert (s + [p])[..|s + [p]| - 1] == s;
  }

  lemma PlainSnoc(s: seq<Published>, p: Published)
    ensures Plain(s + [p]) == Plain(s) + if p.kind != Delta then [p] else []
  {
    assert (s + [p])[..|s + [p]| - 1] == s;
  }

  /** An actor event as it would be published on its own. */
  function Single(session: string, e: ActorEvent): Published {
    Published(session, e.kind, e.item, e.revision, if e.kind == Delta then 1 else 0, e.deltaChars, e.textLength)
  }

  // ---------------------------------------------------------------- actor revisions

  function Singles(session: string, events: seq<ActorEvent>): seq<Published> {
    seq(|events|, i requires 0 <= i < |events| => Single(session, events[i]))
  }

  function Revision(st: ActorState, id: string): nat {
    if id in st.items then st.items[id].revision else 0
  }

  predicate Counts(e: ActorEvent) {
    (e.kind == Delta || e.kind == Final) && e.item.Some?
  }

  /** The events of one step revise their items one after the other, above all earlier revisions. */
  ghost predicate StepsUp(before: ActorState, events: seq<ActorEvent>, after: ActorState) {
    && (forall id :: Revision(before, id) <= Revision(after, id))
    && (forall j :: 0 <= j < |events| && Counts(events[j]) ==>
          Revision(before, events[j].item.value) < events[j].revision <= Revision(after, events[j].item.value))
    && (forall i, j :: 0 <= i < j < |events| && Counts(events[i]) && Counts(events[j]) && events[i].item == events[j].item ==>
          events[i].revision < events[j].revision)
    && (forall j :: 0 <= j < |events| && events[j].kind == Delta ==> |events| == 1 && events[j].item.Some?)
  }

  lemma CompleteItemStepsUp(labels: Labels, st: ActorState, turn: string, id: string, item: Raw)
    requires Ordered(st)
    ensures var r := CompleteItem(labels, st, turn, id, item); StepsUp(st, r.events, r.state)
  {
    hide ItemText;
  }

  lemma {:induction false} CompleteItemsStepUp(labels: Labels, st: ActorState, turn: string, items: seq<(string, Raw)>)
    requires Ordered(st)
    ensures var r := CompleteItems(labels, st, turn, items); StepsUp(st, r.events, r.state)
    ensures forall e :: e in CompleteItems(labels, st, turn, items).events ==> e.kind == Final
  {
    hide ItemText, CompleteItem;
    if items != [] {
      var front := items[..|items| - 1];
      CompleteItemsStepUp(labels, st, turn, front);
      CompleteItemsOrdered(labels, st, turn, front);
      CompleteItemStepsUp(labels, CompleteItems(labels, st, turn, front).state, turn, items[|items| - 1].0, items[|items| - 1].1);
      CompleteItemFinal(labels, CompleteItems(labels, st, turn, front).state, turn, items[|items| - 1].0, items[|items| - 1].1);
    }
  }

  lemma CompleteItemFinal(labels: Labels, st: ActorState, turn: string, id: string, item: Raw)
    ensures forall e :: e in CompleteItem(labels, st, turn, id, item).events ==> e.kind == Final
  {
    hide ItemText;
  }

  lemma SingleStepsUp(st: ActorState, r: Result, id: string)
    requires |r.events| <= 1
    requires forall i :: i != id ==> Revision(r.state, i) == Revision(st, i)
    requires Revision(st, id) <= Revision(r.state, id)
    requires r.events != [] ==> r.events[0].item == Some(id)
    requires r.events != [] && Counts(r.events[0]) ==> Revision(st, id) < r.events[0].revision <= Revision(r.state, id)
    ensures StepsUp(st, r.events, r.state)
  {
  }

  lemma StartStepsUp(labels: Labels, st: ActorState, turn: string, id: string, item: Raw)
    requires Ordered(st)
    ensures var r := StartItem(labels, st, turn, id, item); StepsUp(st, r.events, r.state)
  {
    hide ItemText;
    SingleStepsUp(st, StartItem(labels, st, turn, id, item), id);
  }

  lemma TextStepsUp(st: ActorState, turn: string, id: string, delta: string, plan: bool)
    requires Ordered(st)
    ensures var r := TextDelta(st, turn, id, delta, plan); StepsUp(st, r.events, r.state)
  {
    SingleStepsUp(st, TextDelta(st, turn, id, delta, plan), id);
  }

  lemma FieldStepsUp(st: ActorState, turn: string, id: string, field: DetailField, delta: string)
    requires Ordered(st)
    ensures var r := FieldDelta(st, turn, id, field, delta); StepsUp(st, r.events, r.state)
  {
    hide LastChars, Field;
    SingleStepsUp(st, FieldDelta(st, turn, id, field, delta), id);
  }

  lemma ApplyStepsUp(labels: Labels, st: ActorState, note: Note)
    requires Ordered(st)
    ensures var r := Apply(labels, st, note); StepsUp(st, r.events, r.state)
  {
    hide ItemText, CompleteItem, CompleteItems, StartItem, TextDelta, FieldDelta;
    match note
    case ItemCompleted(turn, id, item) => CompleteItemStepsUp(labels, st, turn, id, item);
    case TurnEnds(turn) => CompleteItemsStepUp(labels, st, turn.id, turn.items);
    case ItemStarted(turn, id, item) => StartStepsUp(labels, st, turn, id, item);
    case AgentDelta(turn, id, delta) => TextStepsUp(st, turn, id, delta, false);
    case PlanDelta(turn, id, delta) => TextStepsUp(st, turn, id, delta, true);
    case ActivityDelta(turn, id, field, delta) => FieldStepsUp(st, turn, id, field, delta);
    case _ =>
  }

  lemma {:induction false} HydrateStepsUp(labels: Labels, st: ActorState, turns: seq<Turn>)
    requires Ordered(st)
    ensures forall id :: Revision(st, id) <= Revision(HydrateItems(labels, st, turns), id)
  {
    if turns != [] {
      var front := turns[..|turns| - 1];
      HydrateStepsUp(labels, st, front);
      HydrateOrdered(labels, st, front);
      CompleteItemsStepUp(labels, HydrateItems(labels, st, front), turns[|turns| - 1].id, turns[|turns| - 1].items);
    }
  }

  // ---------------------------------------------------------------- the runtime

  function TopRevision(pending: map<Key, Batch>, journal: seq<Published>, k: Key): nat {
    if k in pending then pending[k].revision else LastRevision(journal, k)
  }

  function ActorRevision(actors: map<string, ActorState>, k: Key): nat {
    if k.session in actors then Revision(actors[k.session], k.item) else 0
  }

  /**
   * One item's books: what its actor emitted is what was published plus what is pending, and
   * published is below pending, neither ahead of the actor.  The item's other events were all
   * published, each after exactly the deltas emitted before it; and its latest delta tells
   * the revision and text length of the latest one emitted.
   */
  ghost predicate Balanced(emitted: seq<Published>, journal: seq<Published>, pending: map<Key, Batch>,
                           actors: map<string, ActorState>, k: Key) {
    && Chars(emitted, k) == Chars(journal, k) + (if k in pending then pending[k].deltaChars else 0)
    && Deltas(emitted, k) == Deltas(journal, k) + (if k in pending then pending[k].batchCount else 0)
    && LastRevision(journal, k) <= ActorRevision(actors, k)
    && (k in pending ==> LastRevision(journal, k) < pending[k].revision <= ActorRevision(actors, k))
    && Marks(emitted, k) == Marks(journal, k)
    && LastTold(emitted, k) == (if k in pending then Some((pending[k].revision, pending[k].textLength)) else LastTold(journal, k))
  }

  ghost predicate AllBalanced(emitted: seq<Published>, journal: seq<Published>, pending: map<Key, Batch>,
                              actors: map<string, ActorState>) {
    forall k :: Balanced(emitted, journal, pending, actors, k)
  }

  lemma RaiseActor(emitted: seq<Published>, journal: seq<Published>, pending: map<Key, Batch>,
                   actors: map<string, ActorState>, session: string, before: ActorState, after: ActorState)
    requires AllBalanced(emitted, journal, pending, actors)
    requires before == if session in actors then actors[session] else EMPTY
    requires forall id :: Revision(before, id) <= Revision(after, id)
    ensures AllBalanced(emitted, journal, pending, actors[session := after])
  {
    hide Chars, Deltas, LastRevision, Marks, LastTold;
    var raised := actors[session := after];
    forall k ensures Balanced(emitted, journal, pending, raised, k) {
      assert Balanced(emitted, journal, pending, actors, k);
      assert Revision(before, k.item) <= Revision(after, k.item);
    }
  }

  function BatchEvent(k: Key, b: Batch): Published {
    Published(k.session, Delta, Some(k.item), b.revision, b.batchCount, b.deltaChars, b.textLength)
  }

  /** Publishing a batch moves it from pending to published. */
  lemma FlushKeeps(emitted: seq<Published>, journal: seq<Published>, pending: map<Key, Batch>,
                   actors: map<string, ActorState>, key: Key)
    requires AllBalanced(emitted, journal, pending, actors) && Rising(journal) && key in pending
    ensures var journal' := journal + [BatchEvent(key, pending[key])];
      && AllBalanced(emitted, journal', pending - {key}, actors) && Rising(journal')
      && forall k :: TopRevision(pending - {key}, journal', k) == TopRevision(pending, journal, k)
  {
    hide Chars, Deltas, LastRevision, Rising, Marks, LastTold;
    var p := BatchEvent(key, pending[key]);
    assert Balanced(emitted, journal, pending, actors, key);
    RisingSnoc(journal, p);
    forall k ensures Balanced(emitted, journal + [p], pending - {key}, actors, k) &&
                     TopRevision(pending - {key}, journal + [p], k) == TopRevision(pending, journal, k) {
      assert Balanced(emitted, journal, pending, actors, k);
      Snoc(journal, p, k);
    }
  }

  /** The batch of an item after one more delta. */
  function Enqueued(pending: map<Key, Batch>, key: Key, e: ActorEvent): Batch {
    if key in pending then Batch(e.revision, pending[key].batchCount + 1, pending[key].deltaChars + e.deltaChars, e.textLength)
    else Batch(e.revision, 1, e.deltaChars, e.textLength)
  }

  /** Queueing a delta adds the same to both sides of the balance. */
  lemma QueueKeeps(emitted: seq<Published>, journal: seq<Published>, pending: map<Key, Batch>,
                   actors: map<string, ActorState>, key: Key, e: ActorEvent)
    requires AllBalanced(emitted, journal, pending, actors)
    requires e.kind == Delta && e.item == Some(key.item)
    requires TopRevision(pending, journal, key) < e.revision <= ActorRevision(actors, key)
    ensures var pending' := pending[key := Enqueued(pending, key, e)];
      && AllBalanced(emitted + [Single(key.session, e)], journal, pending', actors)
      && forall k :: TopRevision(pending', journal, k) == if k == key then e.revision else TopRevision(pending, journal, k)
  {
    hide Chars, Deltas, LastRevision, Marks, LastTold;
    var p, pending' := Single(key.session, e), pending[key := Enqueued(pending, key, e)];
    forall k ensures Balanced(emitted + [p], journal, pending', actors, k) {
      assert Balanced(emitted, journal, pending, actors, k);
      Snoc(emitted, p, k);
    }
  }

  /** Publishing an event that is no delta touches no balance. */
  lemma PlainKeeps(emitted: seq<Published>, journal: seq<Published>, pending: map<Key, Batch>,
                   actors: map<string, ActorState>, p: Published)
    requires AllBalanced(emitted, journal, pending, actors) && Rising(journal)
    requires p.kind != Delta && (forall k :: IsFor(p, k) ==> k !in pending) && forall k :: Revises(p, k) ==>
      LastRevision(journal, k) < p.revision <= ActorRevision(actors, k)
    ensures AllBalanced(emitted + [p], journal + [p], pending, actors)
    ensures Rising(journal + [p])
    ensures forall k :: TopRevision(pending, journal + [p], k) == (if Revises(p, k) then p.revision else TopRevision(pending, journal, k))
  {
    hide Chars, Deltas, LastRevision, Rising, Marks, LastTold;
    RisingSnoc(journal, p);
    forall k ensures
        && Balanced(emitted + [p], journal + [p], pending, actors, k)
        && TopRevision(pending, journal + [p], k) == if Revises(p, k) then p.revision else TopRevision(pending, journal, k) {
      assert Balanced(emitted, journal, pending, actors, k);
      Snoc(journal, p, k);
      Snoc(emitted, p, k);
    }
  }

  class DeltaRuntime {
    const labels: Labels
    var actors: map<string, ActorState>
    var pending: map<Key, Batch>
    var timers: set<Key>
    var journal: seq<Published>
    ghost var emitted: seq<Published>  // every event the actors emitted, unbatched

    /** The highest revision of an item that is published or pending. */
    function Top(k: Key): nat
      reads this
    {
      TopRevision(pending, journal, k)
    }

    ghost predicate Valid()
      reads this
    {
      && (forall s :: s in actors ==> Ordered(actors[s]))
      && pending.Keys == timers
      && Rising(journal)
      && AllBalanced(emitted, journal, pending, actors)
      && Plain(journal) == Plain(emitted)
    }

    constructor (labels: Labels)
      ensures Valid() && journal == [] && emitted == [] && this.labels == labels
    {
      this.labels, actors, pending, timers, journal, emitted := labels, map[], map[], {}, [], [];
    }

    /** Publish what is pending for one item, if anything; also run by its timer. */
    method FlushDelta(key: Key)
      requires Valid()
      modifies `pending, `timers, `journal
      ensures Valid() && pending == old(pending) - {key}
      ensures forall k :: Top(k) == old(Top(k))
      ensures journal == old(journal) + if key in old(pending) then [BatchEvent(key, old(pending)[key])] else []
    {
      hide AllBalanced, Rising, TopRevision, Plain;
      timers := timers - {key};
      if key in pending {
        PlainSnoc(journal, BatchEvent(key, pending[key]));
        FlushKeeps(emitted, journal, pending, actors, key);
        var batch := pending[key];
        pending := pending - {key};
        journal := journal + [BatchEvent(key, batch)];
      } else {
        assert pending - {key} == pending;
      }
    }

    method FlushAllDeltas()
      requires Valid()
      modifies `pending, `timers, `journal
      ensures Valid() && pending == map[]
      ensures forall k :: Chars(journal, k) == Chars(emitted, k) && Deltas(journal, k) == Deltas(emitted, k)
    {
      hide Chars, Deltas, LastRevision, Marks, LastTold;
      var keys := pending.Keys;
      while keys != {}
        invariant Valid() && keys == pending.Keys
        decreases keys
      {
        var key :| key in keys;
        FlushDelta(key);
        keys := keys - {key};
      }
      forall k ensures Chars(journal, k) == Chars(emitted, k) && Deltas(journal, k) == Deltas(emitted, k) {
        assert Balanced(emitted, journal, pending, actors, k);
      }
    }

    /** Add one actor delta to its item's batch and see to it that a timer will flush it. */
    method QueueDelta(session: string, e: ActorEvent, loopRunning: bool)
      requires Valid() && e.kind == Delta && e.item.Some?
      requires Top(Key(session, e.item.value)) < e.revision <= ActorRevision(actors, Key(session, e.item.value))
      modifies `pending, `timers, `journal, `emitted
      ensures Valid() && emitted == old(emitted) + [Single(session, e)]
      ensures forall k :: Top(k) == if k == Key(session, e.item.value) then e.revision else old(Top(k))
      // While its loop runs nothing is published before the timer; without one, at once.
      ensures loopRunning || Key(session, e.item.value) in old(timers) ==>
        journal == old(journal) && Key(session, e.item.value) in pending
      ensures !loopRunning && Key(session, e.item.value) !in old(timers) ==> Key(session, e.item.value) !in pending
    {
      hide AllBalanced, Rising, TopRevision, Enqueued, Plain;
      var key := Key(session, e.item.value);
      PlainSnoc(emitted, Single(session, e));
      QueueKeeps(emitted, journal, pending, actors, key, e);
      emitted := emitted + [Single(session, e)];
      pending := pending[key := Enqueued(pending, key, e)];
      if key !in timers {
        timers := timers + {key};
        if !loopRunning {
          FlushDelta(key);
        }
      }
    }

    /** Publish any other event, after what is pending for its item. */
    method PublishEvent(session: string, e: ActorEvent)
      requires Valid() && e.kind != Delta
      requires Counts(e) ==>
        Top(Key(session, e.item.value)) < e.revision <= ActorRevision(actors, Key(session, e.item.value))
      modifies `pending, `timers, `journal, `emitted
      ensures Valid() && emitted == old(emitted) + [Single(session, e)]
      ensures forall k :: Top(k) == if Counts(e) && k == Key(session, e.item.value) then e.revision else old(Top(k))
      ensures e.item.Some? ==> Key(session, e.item.value) !in pending
      ensures journal != [] && journal[|journal| - 1] == Single(session, e)
    {
      hide Rising, AllBalanced, Plain;
      if e.item.Some? {
        FlushDelta(Key(session, e.item.value));
      }
      var p := Single(session, e);
      PlainSnoc(emitted, p);
      PlainSnoc(journal, p);
      PlainKeeps(emitted, journal, pending, actors, p);
      emitted := emitted + [p];
      journal := journal + [p];
    }

    /** Apply one notification to its session's actor and pass its events on. */
    method Notification(session: string, note: Note, loopRunning: bool)
      requires Valid()
      modifies this
      ensures Valid()
      ensures var before := if session in old(actors) then old(actors)[session] else EMPTY;
        actors == old(actors)[session := Apply(labels, before, note).state] &&
        emitted == old(emitted) + Singles(session, Apply(labels, before, note).events)
    {
      hide Apply, Chars, Deltas, LastRevision, Single, Marks, LastTold, Plain;
      var before := if session in actors then actors[session] else EMPTY;
      ApplyOrdered(labels, before, note);
      ApplyStepsUp(labels, before, note);
      var r := Apply(labels, before, note);
      forall id ensures Top(Key(session, id)) <= Revision(before, id) {
        assert Balanced(emitted, journal, pending, actors, Key(session, id));
      }
      RaiseActor(emitted, journal, pending, actors, session, before, r.state);
      actors := actors[session := r.state];
      for n := 0 to |r.events|
        invariant Valid() && emitted == old(emitted) + Singles(session, r.events[..n])
        invariant actors == old(actors)[session := r.state]
        invariant forall j :: n <= j < |r.events| && Counts(r.events[j]) ==>
          Top(Key(session, r.events[j].item.value)) < r.events[j].revision
      {
        var e := r.events[n];
        if e.kind == Delta {
          QueueDelta(session, e, loopRunning);
        } else {
          PublishEvent(session, e);
        }
        assert Singles(session, r.events[..n + 1]) == Singles(session, r.events[..n]) + [Single(session, e)];
      }
      assert r.events[..|r.events|] == r.events;
    }

    /** Recovery revises items without emitting item events, and tells one snapshot. */
    method HydrateSession(session: string, threadLifecycle: string, turns: seq<Turn>)
      requires Valid()
      modifies this
      ensures Valid() && pending == old(pending)
      ensures emitted == old(emitted) + [Published(session, Snapshot, None, 0, 0, 0, 0)]
      ensures journal == old(journal) + [Published(session, Snapshot, None, 0, 0, 0, 0)]
      ensures var before := if session in old(actors) then old(actors)[session] else EMPTY;
        actors == old(actors)[session := Hydrate(labels, before, threadLifecycle, turns)]
    {
      hide Chars, Deltas, LastRevision, HydrateItems, CompleteItems, Marks, LastTold, Plain;
      var before := if session in actors then actors[session] else EMPTY;
      HydrateOrdered(labels, before, turns);
      HydrateStepsUp(labels, before, turns);
      RaiseActor(emitted, journal, pending, actors, session, before, Hydrate(labels, before, threadLifecycle, turns));
      actors := actors[session := Hydrate(labels, before, threadLifecycle, turns)];
      var snapshot := Published(session, Snapshot, None, 0, 0, 0, 0);
      PlainKeeps(emitted, journal, pending, actors, snapshot);
      PlainSnoc(emitted, snapshot);
      PlainSnoc(journal, snapshot);
      emitted := emitted + [snapshot];
      journal := journal + [snapshot];
    }
  }
}
