// The bounded browser-event journal: publish, trim, replay, and its cursor.
module Journal {
  import opened Common
  import opened Numerals

  datatype EventCursor = EventCursor(epoch: string, sequence: nat) {
    function Render(): string {
      epoch + ":" + Print(sequence, Decimal)
    }
  }

  /** The position of the last colon, if there is one. */
  function LastColon(s: string): (r: Option<nat>)
    ensures r.Some? ==> r.value < |s| && s[r.value] == ':' && ':' !in s[r.value + 1..]
    ensures r.None? ==> ':' !in s
  {
    if s == [] then None
    else if s[|s| - 1] == ':' then Some(|s| - 1)
    else LastColon(s[..|s| - 1])
  }

  function ParseCursor(raw: Option<string>): Option<EventCursor> {
    if raw.None? || raw.value == [] then None
    else
      var colon := LastColon(raw.value);
      if colon.None? then None
      else
        var epoch, sequence := raw.value[..colon.value], ParseInt(raw.value[colon.value + 1..]);
        if sequence.None? || epoch == [] || sequence.value < 0 then None
        else Some(EventCursor(epoch, sequence.value))
  }

  /** A rendered cursor is read back as itself, whatever the epoch contains. */
  lemma CursorRoundTrip(c: EventCursor)
    ensures ParseCursor(Some(c.Render())) == if c.epoch == [] then None else Some(c)
  {
    var s, digits := c.Render(), Print(c.sequence, Decimal);
    var n := |c.epoch|;
    assert s[n] == ':' && s[n + 1..] == digits && s[..n] == c.epoch;
    var colon := LastColon(s);
    assert colon.Some? by { assert ':' in s; }
    assert ':' !in digits by { assert !IsDigit(':'); }
    assert colon.value == n;
    ParseIntPrint(c.sequence);
  }

  datatype JournalEvent = JournalEvent(sequence: nat, sessionId: string, itemId: Option<string>, kind: string,
                                       revision: nat, replayable: bool, size: nat)

  datatype Status = Snapshot | Reset | Gap | Replay
  datatype ReplayResult = ReplayResult(status: Status, events: seq<JournalEvent>, latest: EventCursor)

  function TotalSize(s: seq<JournalEvent>): nat {
    if s == [] then 0 else TotalSize(s[..|s| - 1]) + s[|s| - 1].size
  }

  lemma {:induction false} TotalSizeAppend(a: seq<JournalEvent>, b: seq<JournalEvent>)
    ensures TotalSize(a + b) == TotalSize(a) + TotalSize(b)
  {
    if b == [] {
      assert a + b == a;
    } else {
      assert (a + b)[..|a + b| - 1] == a + b[..|b| - 1];
      TotalSizeAppend(a, b[..|b| - 1]);
    }
  }

  predicate IsStorable(e: JournalEvent, maxBytes: nat) {
    e.replayable && e.size <= maxBytes
  }

  function StorablePredicate(maxBytes: nat): JournalEvent -> bool {
    (e: JournalEvent) => IsStorable(e, maxBytes)
  }

  function AfterPredicate(sequence: nat): JournalEvent -> bool {
    (e: JournalEvent) => e.sequence > sequence
  }

  /** The published events that are eligible for replay. */
  function Storable(history: seq<JournalEvent>, maxBytes: nat): seq<JournalEvent> {
    Filter(history, StorablePredicate(maxBytes))
  }

  lemma StorableSnoc(history: seq<JournalEvent>, e: JournalEvent, maxBytes: nat)
    ensures Storable(history + [e], maxBytes) ==
      if IsStorable(e, maxBytes) then Storable(history, maxBytes) + [e] else Storable(history, maxBytes)
  {
    assert (history + [e])[..|history + [e]| - 1] == history;
  }

  lemma TotalSizeOne(e: JournalEvent)
    ensures TotalSize([e]) == e.size
  {
    assert [e][..0] == [];
  }

  predicate Fits(s: seq<JournalEvent>, maxEvents: nat, maxBytes: nat) {
    |s| <= maxEvents && TotalSize(s) <= maxBytes
  }

  /** kept is the longest suffix of all within both limits. */
  ghost predicate LongestFittingSuffix(kept: seq<JournalEvent>, all: seq<JournalEvent>, maxEvents: nat, maxBytes: nat) {
    && |kept| <= |all|
    && kept == all[|all| - |kept|..]
    && Fits(kept, maxEvents, maxBytes)
    && forall k :: 0 <= k < |all| - |kept| ==> !Fits(all[k..], maxEvents, maxBytes)
  }

  /** Publishing one more event leaves only the suffix kept so far to be trimmed. */
  lemma LongestAfterAppend(kept: seq<JournalEvent>, all: seq<JournalEvent>, e: JournalEvent,
                           kept': seq<JournalEvent>, maxEvents: nat, maxBytes: nat)
    requires LongestFittingSuffix(kept, all, maxEvents, maxBytes)
    requires LongestFittingSuffix(kept', kept + [e], maxEvents, maxBytes)
    ensures LongestFittingSuffix(kept', all + [e], maxEvents, maxBytes)
  {
    var all', cut := all + [e], |all| - |kept|;
    assert all'[cut..] == kept + [e];
    forall k | 0 <= k < |all'| - |kept'|
      ensures !Fits(all'[k..], maxEvents, maxBytes)
    {
      if k < cut {
        assert all'[k..] == all[k..] + [e];
        TotalSizeAppend(all[k..], [e]);
      } else {
        assert all'[k..] == (kept + [e])[k - cut..];
      }
    }
  }

  /** Published events carry the sequence numbers 1, 2, 3, ... in order. */
  ghost predicate Numbered(history: seq<JournalEvent>) {
    forall i :: 0 <= i < |history| ==> history[i].sequence == i + 1
  }

  ghost predicate Ascending(s: seq<JournalEvent>) {
    forall i, j :: 0 <= i < j < |s| ==> s[i].sequence < s[j].sequence
  }

  lemma {:induction false} FilterAscending(s: seq<JournalEvent>, p: JournalEvent -> bool)
    requires Ascending(s)
    ensures Ascending(Filter(s, p))
  {
    if s != [] {
      var front := s[..|s| - 1];
      FilterAscending(front, p);
      FilterMembers(front, p);
      forall e | e in Filter(front, p) ensures e.sequence < s[|s| - 1].sequence {
        assert e in front;
      }
    }
  }

  /**
   * Selecting from the retained suffix loses nothing as long as every event that
   * was trimmed is at or before the cursor.
   */
  lemma NothingLost(kept: seq<JournalEvent>, all: seq<JournalEvent>, sequence: nat)
    requires Ascending(all) && |kept| <= |all| && kept == all[|all| - |kept|..]
    requires kept != [] && kept[0].sequence <= sequence + 1
    ensures Filter(kept, AfterPredicate(sequence)) == Filter(all, AfterPredicate(sequence))
  {
    var cut := |all| - |kept|;
    assert all == all[..cut] + kept;
    FilterAppend(all[..cut], kept, AfterPredicate(sequence));
    forall e | e in all[..cut] ensures !AfterPredicate(sequence)(e) {
      assert all[cut] == kept[0];
    }
    FilterNone(all[..cut], AfterPredicate(sequence));
  }

  class EventJournal {
    const maxEvents: nat
    const maxBytes: nat
    const epoch: string
    var sequence: nat
    var totalBytes: nat
    var events: seq<JournalEvent>
    ghost var history: seq<JournalEvent>  // everything ever published

    /**
     * The journal holds the longest suffix of the storable history within both
     * limits, and its byte counter is exact.
     */
    ghost predicate Valid()
      reads this
    {
      && 1 <= maxEvents && 1 <= maxBytes && epoch != []
      && sequence == |history| && Numbered(history)
      && LongestFittingSuffix(events, Storable(history, maxBytes), maxEvents, maxBytes)
      && totalBytes == TotalSize(events)
    }

    constructor (maxEvents: nat, maxBytes: nat, epoch: string)
      requires 1 <= maxEvents && 1 <= maxBytes && epoch != []
      ensures Valid() && history == [] && this.maxEvents == maxEvents && this.maxBytes == maxBytes
      ensures this.epoch == epoch
    {
      this.maxEvents, this.maxBytes, this.epoch := maxEvents, maxBytes, epoch;
      sequence, totalBytes, events, history := 0, 0, [], [];
    }

    function Latest(): EventCursor
      reads this
    {
      EventCursor(epoch, sequence)
    }

    method Publish(sessionId: string, itemId: Option<string>, kind: string, revision: nat, replayable: bool, size: nat)
      returns (event: JournalEvent)
      requires Valid()
      modifies this
      ensures Valid()
      ensures event == JournalEvent(|old(history)| + 1, sessionId, itemId, kind, revision, replayable, size)
      ensures history == old(history) + [event]
    {
      hide LongestFittingSuffix, TotalSize, Filter, Storable;
      sequence := sequence + 1;
      event := JournalEvent(sequence, sessionId, itemId, kind, revision, replayable, size);
      StorableSnoc(history, event, maxBytes);
      history := history + [event];
      if replayable && size <= maxBytes {
        events := events + [event];
        totalBytes := totalBytes + size;
        TotalSizeAppend(old(events), [event]);
        TotalSizeOne(event);
        Trim();
        LongestAfterAppend(old(events), Storable(old(history), maxBytes), event, events, maxEvents, maxBytes);
      }
    }

    method Trim()
      requires totalBytes == TotalSize(events)
      modifies `events, `totalBytes
      ensures LongestFittingSuffix(events, old(events), maxEvents, maxBytes)
      ensures totalBytes == TotalSize(events)
    {
      ghost var cut := 0;
      while events != [] && (|events| > maxEvents || totalBytes > maxBytes)
        invariant 0 <= cut <= |old(events)| && events == old(events)[cut..]
        invariant totalBytes == TotalSize(events)
        invariant forall k :: 0 <= k < cut ==> !Fits(old(events)[k..], maxEvents, maxBytes)
        decreases |events|
      {
        TotalSizeAppend([events[0]], events[1..]);
        assert [events[0]] + events[1..] == events;
        totalBytes := totalBytes - events[0].size;
        events := events[1..];
        cut := cut + 1;
      }
    }

    /**
     * A replay answer is exactly the storable events published after the cursor:
     * trimming can force a gap answer, never a silent loss.
     */
    function Replay(raw: Option<string>): (r: ReplayResult)
      requires Valid()
      reads this
      ensures r.latest == EventCursor(epoch, |history|)
      ensures r.status == Snapshot <==> ParseCursor(raw).None?
      ensures r.status == Reset <==>
        ParseCursor(raw).Some? && (ParseCursor(raw).value.epoch != epoch || ParseCursor(raw).value.sequence > |history|)
      ensures r.status == Status.Replay ==>
        r.events == Filter(Storable(history, maxBytes), AfterPredicate(ParseCursor(raw).value.sequence))
      ensures r.status != Status.Replay ==> r.events == []
      ensures r.status == Gap <==>
        ParseCursor(raw).Some? && ParseCursor(raw).value.epoch == epoch
          && ParseCursor(raw).value.sequence < |history| && forall e :: e in events ==>
            e.sequence > ParseCursor(raw).value.sequence + 1
    {
      var cursor := ParseCursor(raw);
      assert Ascending(Storable(history, maxBytes)) by { FilterAscending(history, StorablePredicate(maxBytes)); }
      FilterMembers(history, StorablePredicate(maxBytes));
      if cursor.None? then ReplayResult(Snapshot, [], Latest())
      else if cursor.value.epoch != epoch || cursor.value.sequence > sequence then ReplayResult(Reset, [], Latest())
      else if cursor.value.sequence == sequence then
        FilterNone(Storable(history, maxBytes), AfterPredicate(sequence));
        ReplayResult(Status.Replay, [], Latest())
      else if events == [] || cursor.value.sequence + 1 < events[0].sequence then ReplayResult(Gap, [], Latest())
      else
        NothingLost(events, Storable(history, maxBytes), cursor.value.sequence);
        ReplayResult(Status.Replay, Filter(events, AfterPredicate(cursor.value.sequence)), Latest())
    }
  }

  /** An event after the cursor that is eligible for replay but no longer held. */
  ghost predicate Lost(journal: EventJournal, sequence: nat)
    reads journal
  {
    exists k :: sequence <= k < |journal.history| && IsStorable(journal.history[k], journal.maxBytes)
      && journal.history[k] !in journal.events
  }

  /** Some event at or before the cursor is still held. */
  ghost predicate HoldsUpTo(journal: EventJournal, sequence: nat)
    reads journal
  {
    exists e :: e in journal.events && e.sequence <= sequence
  }

  /**
   * What a gap answer means.  A loss is always answered with a gap.  If the next event is
   * storable, a gap is answered exactly when that event is gone.  In general a gap means a
   * loss unless the next event was never storable and nothing at or before the cursor is held.
   */
  lemma GapMeansLoss(journal: EventJournal, cursor: EventCursor)
    requires journal.Valid() && cursor.epoch == journal.epoch && cursor.sequence < |journal.history|
    ensures var gap := journal.Replay(Some(cursor.Render())).status == Gap;
      var next := journal.history[cursor.sequence];
      && (Lost(journal, cursor.sequence) ==> gap)
      && (IsStorable(next, journal.maxBytes) ==> (gap <==> next !in journal.events))
      && ((gap ==> Lost(journal, cursor.sequence)) <==>
            Lost(journal, cursor.sequence) || IsStorable(next, journal.maxBytes) || HoldsUpTo(journal, cursor.sequence))
  {
    var n, next := cursor.sequence, journal.history[cursor.sequence];
    assert next.sequence == n + 1 && next in journal.history;
    GapIs(journal, cursor);
    HeldSuffix(journal);
    hide EventJournal.Replay, EventCursor.Render, Storable, LongestFittingSuffix, IsStorable;
    if next !in journal.events && exists e :: e in journal.events && e.sequence <= n + 1 {
      var e :| e in journal.events && e.sequence <= n + 1;
      assert e in journal.history;
    }
  }

  /** A gap is answered exactly when nothing up to the next event is held. */
  lemma GapIs(journal: EventJournal, cursor: EventCursor)
    requires journal.Valid() && cursor.epoch == journal.epoch && cursor.sequence < |journal.history|
    ensures journal.Replay(Some(cursor.Render())).status == Gap <==>
      forall e :: e in journal.events ==> e.sequence > cursor.sequence + 1
  {
    CursorRoundTrip(cursor);
    hide ParseCursor, EventCursor.Render, TotalSize, Filter, LongestFittingSuffix;
  }

  ghost predicate IsLaterStorable(journal: EventJournal, e: JournalEvent, f: JournalEvent)
    reads journal
  {
    f in journal.history && IsStorable(f, journal.maxBytes) && f.sequence >= e.sequence
  }

  /** What is held are storable events, and every storable event from the oldest one held on. */
  lemma HeldSuffix(journal: EventJournal)
    requires journal.Valid()
    ensures forall e :: e in journal.events ==> e in journal.history && IsStorable(e, journal.maxBytes)
    ensures forall e, f :: e in journal.events && IsLaterStorable(journal, e, f) ==> f in journal.events
    ensures forall e, f :: e in journal.history && f in journal.history && e.sequence == f.sequence ==> e == f
  {
    var all, kept := Storable(journal.history, journal.maxBytes), journal.events;
    FilterMembers(journal.history, StorablePredicate(journal.maxBytes));
    FilterAscending(journal.history, StorablePredicate(journal.maxBytes));
    hide Filter, TotalSize, Fits;
    forall e, f | e in kept && f in journal.history && IsStorable(f, journal.maxBytes) && f.sequence >= e.sequence ensures f in kept {
      var i :| 0 <= i < |kept| && kept[i] == e;
      var j :| 0 <= j < |all| && all[j] == f;
      var cut := |all| - |kept|;
      assert all[cut + i] == e;
      assert j >= cut + i;
      assert kept[j - cut] == f;
    }
  }

  /** With nothing retained, every earlier cursor of the epoch is answered with a gap. */
  lemma EmptyAnswersGap(journal: EventJournal, cursor: EventCursor)
    requires journal.Valid() && Storable(journal.history, journal.maxBytes) == []
    requires cursor.epoch == journal.epoch && cursor.sequence < |journal.history|
    ensures journal.Replay(Some(cursor.Render())).status == Gap
  {
    hide ParseCursor, EventCursor.Render, Filter, TotalSize;
    CursorRoundTrip(cursor);
  }

  /** The converse of the gap answer fails: an oversized event alone also produces one. */
  method SpuriousGap(e: JournalEvent, cursor: EventCursor) returns (journal: EventJournal)
    requires e.size > 1 && cursor.epoch != [] && cursor.sequence == 0
    ensures fresh(journal) && journal.Valid()
    ensures Storable(journal.history, journal.maxBytes) == [] && |journal.history| == 1
    ensures journal.Replay(Some(cursor.Render())).status == Gap
  {
    hide LongestFittingSuffix, Numbered, EventJournal.Replay, EventCursor.Render;
    journal := new EventJournal(1, 1, cursor.epoch);
    var event := journal.Publish(e.sessionId, e.itemId, e.kind, e.revision, e.replayable, e.size);
    StorableSnoc([], event, 1);
    assert journal.history == [event] && [] + [event] == [event];
    EmptyAnswersGap(journal, cursor);
  }
}
