// The bounded timeline of commands issued from the browser, and the file it survives in.
module Timeline {
  import opened Common

  datatype Status = Running | Waiting | Completed | Failed
  datatype Digest = Sha256(text: string)

  datatype Event = Event(id: string, owner: string, requestId: string, digest: Digest, name: string, status: Status, anchor: string,
                         interaction: string, metadata: map<string, string>, startedAt: nat, completedAt: nat)

  datatype Command = Command(name: string, durable: bool, metadata: map<string, string>)
  datatype BeginResult = Rejected | NotDurable | Reused | Begun(event: Event, duplicate: bool)

  predicate Finished(status: Status) {
    status == Completed || status == Failed
  }

  // ---------------------------------------------------------------- what trimming keeps

  function Owned(events: seq<Event>, owner: string): seq<Event> {
    Filter(events, (e: Event) => e.owner == owner)
  }

  function Last<T>(s: seq<T>, n: nat): seq<T> {
    if |s| <= n then s else s[|s| - n..]
  }

  /** The events with fewer than perOwner later ones of the same owner. */
  function Newest(events: seq<Event>, perOwner: nat): seq<Event> {
    if events == [] then []
    else if |Owned(events[1..], events[0].owner)| < perOwner then [events[0]] + Newest(events[1..], perOwner)
    else Newest(events[1..], perOwner)
  }

  function Trimmed(events: seq<Event>, perOwner: nat, most: nat): seq<Event> {
    Last(Newest(events, perOwner), most)
  }

  lemma OwnedHead(events: seq<Event>, owner: string)
    requires events != []
    ensures Owned(events, owner) == (if events[0].owner == owner then [events[0]] else []) + Owned(events[1..], owner)
  {
    var p := (e: Event) => e.owner == owner;
    assert events == [events[0]] + events[1..];
    FilterAppend([events[0]], events[1..], p);
    assert Filter([events[0]], p) == if p(events[0]) then [events[0]] else [];
  }

  /** Of each owner, exactly its newest events stay, in order. */
  lemma {:induction false} NewestPerOwner(events: seq<Event>, perOwner: nat, owner: string)
    ensures Owned(Newest(events, perOwner), owner) == Last(Owned(events, owner), perOwner)
  {
    if events != [] {
      var rest := Newest(events[1..], perOwner);
      NewestPerOwner(events[1..], perOwner, owner);
      OwnedHead(events, owner);
      if |Owned(events[1..], events[0].owner)| < perOwner {
        OwnedHead([events[0]] + rest, owner);
        assert ([events[0]] + rest)[1..] == rest;
      }
    }
  }

  lemma NewestTail(events: seq<Event>, perOwner: nat)
    requires events != []
    ensures Newest(events, perOwner) in {Newest(events[1..], perOwner), [events[0]] + Newest(events[1..], perOwner)}
  {
  }

  lemma LastOfLonger<T>(a: seq<T>, b: seq<T>, n: nat)
    requires n <= |b|
    ensures Last(a + b, n) == Last(b, n)
  {
  }

  lemma {:induction false} NewestOfEnd(events: seq<Event>, perOwner: nat, i: nat)
    requires i <= |events|
    ensures |Newest(events[i..], perOwner)| <= |Newest(events, perOwner)|
    ensures Newest(events[i..], perOwner) == Last(Newest(events, perOwner), |Newest(events[i..], perOwner)|)
  {
    if i == 0 {
      assert events[0..] == events;
    } else {
      hide Newest, Last;
      assert events[1..][i - 1..] == events[i..];
      NewestOfEnd(events[1..], perOwner, i - 1);
      NewestTail(events, perOwner);
      var n := |Newest(events[i..], perOwner)|;
      LastOfLonger(if |Newest(events, perOwner)| > |Newest(events[1..], perOwner)| then [events[0]]
        else [], Newest(events[1..], perOwner), n);
    }
  }

  /** Within both caps. */
  ghost predicate Kept(events: seq<Event>, perOwner: nat, most: nat) {
    |events| <= most && forall owner :: |Owned(events, owner)| <= perOwner
  }

  lemma {:induction false} OwnedOfEnd(events: seq<Event>, i: nat, owner: string)
    requires i <= |events|
    ensures |Owned(events[i..], owner)| <= |Owned(events, owner)|
  {
    if i == 0 {
      assert events[0..] == events;
    } else {
      assert events[1..][i - 1..] == events[i..];
      OwnedOfEnd(events[1..], i - 1, owner);
      OwnedHead(events, owner);
    }
  }

  lemma {:induction false} NewestOfKept(events: seq<Event>, perOwner: nat)
    requires forall owner :: |Owned(events, owner)| <= perOwner
    ensures Newest(events, perOwner) == events
  {
    if events != [] {
      forall owner ensures |Owned(events[1..], owner)| <= perOwner {
        OwnedHead(events, owner);
      }
      OwnedHead(events, events[0].owner);
      NewestOfKept(events[1..], perOwner);
    }
  }

  /** Trimming brings the events within the caps, and changes nothing that already is. */
  lemma TrimmedOnce(events: seq<Event>, perOwner: nat, most: nat)
    ensures Kept(Trimmed(events, perOwner, most), perOwner, most)
    ensures Kept(events, perOwner, most) ==> Trimmed(events, perOwner, most) == events
    ensures Trimmed(Trimmed(events, perOwner, most), perOwner, most) == Trimmed(events, perOwner, most)
  {
    var newest, kept := Newest(events, perOwner), Trimmed(events, perOwner, most);
    forall owner ensures |Owned(kept, owner)| <= perOwner {
      NewestPerOwner(events, perOwner, owner);
      if |newest| > most {
        OwnedOfEnd(newest, |newest| - most, owner);
      }
    }
    NewestOfKept(kept, perOwner);
    if Kept(events, perOwner, most) {
      NewestOfKept(events, perOwner);
    }
  }

  /** An event is dropped only for as many newer ones as a cap allows. */
  lemma {:induction false} StaysWhileThereIsRoom(events: seq<Event>, perOwner: nat, most: nat, i: nat)
    requires i < |events|
    requires |Owned(events[i + 1..], events[i].owner)| < perOwner && |Newest(events[i + 1..], perOwner)| < most
    ensures events[i] in Trimmed(events, perOwner, most)
  {
    var tail := events[i..];
    assert tail[0] == events[i] && tail[1..] == events[i + 1..];
    NewestOfEnd(events, perOwner, i);
    var newest, end := Newest(events, perOwner), Newest(tail, perOwner);
    assert end[0] == events[i] && |end| <= most;
    assert newest[|newest| - |end|] == end[0];
  }

  /** The newest event always stays, and stays last. */
  lemma {:induction false} LastStays(events: seq<Event>, perOwner: nat, most: nat)
    requires events != [] && perOwner > 0 && most > 0
    ensures Trimmed(events, perOwner, most) != []
    ensures Trimmed(events, perOwner, most)[|Trimmed(events, perOwner, most)| - 1] == events[|events| - 1]
  {
    var i := |events| - 1;
    assert events[i..] == [events[i]] && events[i..][1..] == [];
    assert Newest(events[i..], perOwner) == [events[i]];
    hide Newest, Owned;
    NewestOfEnd(events, perOwner, i);
    var newest := Newest(events, perOwner);
    assert newest[|newest| - 1..] == [events[i]];
    assert newest[|newest| - 1] == newest[|newest| - 1..][0];
  }

  // ---------------------------------------------------------------- what every list keeps

  /** Ids are never shared, and a request of an owner has one event. */
  ghost predicate Unique(events: seq<Event>) {
    forall i, j :: 0 <= i < j < |events| ==>
      events[i].id != events[j].id && !(events[i].owner == events[j].owner && events[i].requestId == events[j].requestId)
  }

  /** A finished command waits for no interaction. */
  ghost predicate Quiet(events: seq<Event>) {
    forall i :: 0 <= i < |events| && Finished(events[i].status) ==> events[i].interaction == ""
  }

  lemma {:induction false} NewestKeeps(events: seq<Event>, perOwner: nat)
    ensures forall e :: e in Newest(events, perOwner) ==> e in events
    ensures Unique(events) ==> Unique(Newest(events, perOwner))
    ensures Quiet(events) ==> Quiet(Newest(events, perOwner))
  {
    if events != [] {
      var rest := Newest(events[1..], perOwner);
      NewestKeeps(events[1..], perOwner);
      if Unique(events) && Newest(events, perOwner) == [events[0]] + rest {
        forall j | 0 <= j < |rest|
          ensures events[0].id != rest[j].id
          ensures !(events[0].owner == rest[j].owner && events[0].requestId == rest[j].requestId)
        {
          assert rest[j] in events[1..];
        }
      }
    }
  }

  lemma TrimmedKeeps(events: seq<Event>, perOwner: nat, most: nat)
    ensures forall e :: e in Trimmed(events, perOwner, most) ==> e in events
    ensures Unique(events) ==> Unique(Trimmed(events, perOwner, most))
    ensures Quiet(events) ==> Quiet(Trimmed(events, perOwner, most))
  {
    NewestKeeps(events, perOwner);
  }

  // ---------------------------------------------------------------- restart

  /** Whatever was under way when the service stopped has failed. */
  function Interrupted(e: Event, now: nat): Event {
    if Finished(e.status) then e else e.(status := Failed, completedAt := now, interaction := "")
  }

  /** What a restart makes of an event: what was finished stays, and everything else failed then and waits for nothing. */
  predicate Ended(was: Event, e: Event, now: nat) {
    if Finished(was.status) then e == was
    else
      && e.status == Failed && e.completedAt == now && e.interaction == ""
      && (e.id, e.owner, e.requestId, e.digest, e.name, e.anchor) == (was.id, was.owner, was.requestId, was.digest, was.name, was.anchor)
      && e.metadata == was.metadata && e.startedAt == was.startedAt
  }

  /** The newest events, each as a restart leaves it. */
  ghost predicate EndedAll(before: seq<Event>, after: seq<Event>, now: nat) {
    && |after| <= |before|
    && forall k :: 0 <= k < |after| ==> Ended(before[|before| - |after| + k], after[k], now)
  }

  lemma NothingEnded(before: seq<Event>, now: nat)
    ensures EndedAll(before, [], now)
  {
  }

  lemma InterruptedHaveEnded(before: seq<Event>, after: seq<Event>, now: nat, half: nat)
    requires after == InterruptedAll(before, now) || (half > 0 && after == Last(InterruptedAll(before, now), half))
    ensures after == Last(InterruptedAll(before, now), |after|) && EndedAll(before, after, now)
    ensures before != [] ==> after != []
    ensures forall e :: e in after ==> Finished(e.status)
    ensures after == InterruptedAll(before, now) ==> |after| == |before|
  {
    var all := InterruptedAll(before, now);
    forall k | 0 <= k < |after| ensures Ended(before[|before| - |after| + k], after[k], now) {
      assert after[k] == all[|before| - |after| + k];
    }
  }

  function InterruptedAll(events: seq<Event>, now: nat): seq<Event> {
    seq(|events|, i requires 0 <= i < |events| => Interrupted(events[i], now))
  }

  lemma {:induction false} OwnersUnchanged(a: seq<Event>, b: seq<Event>, owner: string)
    requires |a| == |b| && forall i :: 0 <= i < |a| ==> a[i].owner == b[i].owner
    ensures |Owned(a, owner)| == |Owned(b, owner)|
  {
    if a != [] {
      OwnedHead(a, owner);
      OwnedHead(b, owner);
      OwnersUnchanged(a[1..], b[1..], owner);
    }
  }

  /** Events that keep their identity stay within the caps and unique. */
  lemma SameIdentities(a: seq<Event>, b: seq<Event>, perOwner: nat, most: nat)
    requires |a| == |b| && Kept(a, perOwner, most) && Unique(a)
    requires forall i :: 0 <= i < |a| ==>
      a[i].id == b[i].id && a[i].owner == b[i].owner && a[i].requestId == b[i].requestId
    ensures Kept(b, perOwner, most) && Unique(b)
  {
    forall owner ensures |Owned(b, owner)| <= perOwner {
      OwnersUnchanged(a, b, owner);
    }
  }

  // ---------------------------------------------------------------- sound lists

  /** Within the caps, with distinct ids, one event for each request of an owner, and no finished event waiting. */
  ghost predicate Sound(events: seq<Event>, perOwner: nat, most: nat) {
    Kept(events, perOwner, most) && Unique(events) && Quiet(events)
  }

  lemma NothingIsSound(perOwner: nat, most: nat)
    ensures Sound([], perOwner, most)
  {
  }

  lemma EndIsSound(events: seq<Event>, perOwner: nat, most: nat, n: nat)
    requires Sound(events, perOwner, most)
    ensures Sound(Last(events, n), perOwner, most)
  {
    if |events| > n {
      forall owner ensures |Owned(Last(events, n), owner)| <= perOwner {
        OwnedOfEnd(events, |events| - n, owner);
      }
    }
  }

  lemma GrownIsSound(events: seq<Event>, perOwner: nat, most: nat, e: Event)
    requires Sound(events, perOwner, most) && e.status == Running
    requires forall o :: o in events ==> o.id != e.id && !(o.owner == e.owner && o.requestId == e.requestId)
    ensures Sound(Trimmed(events + [e], perOwner, most), perOwner, most)
  {
    TrimmedOnce(events + [e], perOwner, most);
    TrimmedKeeps(events + [e], perOwner, most);
  }

  lemma AdvancedIsSound(events: seq<Event>, perOwner: nat, most: nat, i: nat, e: Event)
    requires Sound(events, perOwner, most) && i < |events|
    requires e.id == events[i].id && e.owner == events[i].owner && e.requestId == events[i].requestId
    requires Finished(e.status) ==> e.interaction == ""
    ensures Sound(events[i := e], perOwner, most)
  {
    SameIdentities(events, events[i := e], perOwner, most);
  }

  lemma InterruptedIsSound(events: seq<Event>, perOwner: nat, most: nat, now: nat)
    requires Sound(events, perOwner, most)
    ensures Sound(InterruptedAll(events, now), perOwner, most)
    ensures Trimmed(events, perOwner, most) == events
  {
    SameIdentities(events, InterruptedAll(events, now), perOwner, most);
    TrimmedOnce(events, perOwner, most);
  }

  // ---------------------------------------------------------------- counting back

  ghost predicate Counted(counts: map<string, nat>, newer: seq<Event>, perOwner: nat) {
    forall o :: |Last(Owned(newer, o), perOwner)| == if o in counts then counts[o] else 0
  }

  lemma StartCounting(events: seq<Event>, perOwner: nat)
    ensures Counted(map[], events[|events|..], perOwner) && Newest(events[|events|..], perOwner) == []
  {
  }

  lemma CountOne(counts: map<string, nat>, events: seq<Event>, i: nat, perOwner: nat, count: nat)
    requires i < |events| && Counted(counts, events[i + 1..], perOwner)
    requires count == if events[i].owner in counts then counts[events[i].owner] else 0
    ensures count >= perOwner ==>
      Counted(counts, events[i..], perOwner) && Newest(events[i..], perOwner) == Newest(events[i + 1..], perOwner)
    ensures count < perOwner ==> Counted(counts[events[i].owner := count + 1], events[i..], perOwner)
    ensures count < perOwner ==> Newest(events[i..], perOwner) == [events[i]] + Newest(events[i + 1..], perOwner)
  {
    hide Owned;
    var tail, newer := events[i..], events[i + 1..];
    assert tail[0] == events[i] && tail[1..] == newer;
    OwnedHead(tail, events[i].owner);
    var after := if count >= perOwner then counts else counts[events[i].owner := count + 1];
    forall o ensures |Last(Owned(tail, o), perOwner)| == if o in after then after[o] else 0 {
      assert |Last(Owned(newer, o), perOwner)| == if o in counts then counts[o] else 0;
      OwnedHead(tail, o);
    }
  }

  // ---------------------------------------------------------------- the store

  predicate ValidOwner(s: string) {
    0 < |s| <= 320 && forall i :: 0 <= i < |s| ==> s[i] != '\0'
  }

  class CommandTimelineStore {
    const perOwner: nat
    const maxEvents: nat
    const maxBytes: nat
    const Size: seq<Event> -> nat
    var events: seq<Event>
    var file: seq<Event>

    /**
     * Both lists are within the caps, with distinct ids and one event for each request
     * of an owner. The file is the list, unless it was too large to be read back.
     */
    ghost predicate Valid()
      reads this
    {
      && perOwner > 0 && maxEvents > 0
      && Sound(file, perOwner, maxEvents)
      && (events == file || events == [])
    }

    constructor (perOwner: int, maxEvents: int, maxBytes: nat, Size: seq<Event> -> nat)
      ensures Valid() && events == [] && file == []
      ensures this.perOwner == (if perOwner < 1 then 1 else perOwner)
      ensures this.maxEvents == (if maxEvents < 1 then 1 else maxEvents)
      ensures this.maxBytes == maxBytes && this.Size == Size
    {
      this.perOwner := if perOwner < 1 then 1 else perOwner;
      this.maxEvents := if maxEvents < 1 then 1 else maxEvents;
      this.maxBytes := maxBytes;
      this.Size := Size;
      events, file := [], [];
    }

    /** Walk back from the newest event, counting for each owner, until both caps are met. */
    method Trim()
      requires perOwner > 0 && maxEvents > 0
      modifies this`events
      ensures events == Trimmed(old(events), perOwner, maxEvents)
    {
      hide Newest, Owned, Counted;
      var counts: map<string, nat> := map[];
      var selected: seq<Event> := [];
      var i := |events|;
      StartCounting(events, perOwner);
      while i > 0
        invariant 0 <= i <= |events| && events == old(events)
        invariant selected == Newest(events[i..], perOwner) && |selected| < maxEvents
        invariant Counted(counts, events[i..], perOwner)
      {
        i := i - 1;
        var event := events[i];
        var count := if event.owner in counts then counts[event.owner] else 0;
        CountOne(counts, events, i, perOwner, count);
        if count >= perOwner {
          continue;
        }
        counts := counts[event.owner := count + 1];
        selected := [event] + selected;
        if |selected| >= maxEvents {
          NewestOfEnd(events, perOwner, i);
          events := selected;
          return;
        }
      }
      assert events[0..] == events;
      events := selected;
    }

    /** Write the file, after dropping the older half of an oversized list. */
    method Save()
      requires perOwner > 0 && maxEvents > 0 && Sound(events, perOwner, maxEvents)
      modifies this
      ensures Valid() && events == file
      ensures Size(old(events)) <= maxBytes ==> events == old(events)
      ensures Size(old(events)) > maxBytes ==> events == Last(old(events), if maxEvents < 2 then 1 else maxEvents / 2)
    {
      hide Sound;
      if Size(events) > maxBytes {
        var half := if maxEvents < 2 then 1 else maxEvents / 2;
        EndIsSound(events, perOwner, maxEvents, half);
        events := Last(events, half);
      }
      file := events;
    }

    /** The stored list as a new process reads it; everything under way has failed. */
    method Restart(now: nat)
      requires Valid()
      modifies this
      ensures Valid()
      ensures Size(old(file)) > maxBytes ==> events == [] && file == old(file)
      ensures Size(old(file)) <= maxBytes ==> events == Last(InterruptedAll(old(file), now), |events|)
      ensures Size(old(file)) <= maxBytes && Size(InterruptedAll(old(file), now)) <= maxBytes ==>
        |events| == |old(file)|
      ensures Size(old(file)) <= maxBytes && old(file) != [] ==> events != []
      ensures EndedAll(old(file), events, now)
      ensures forall e :: e in events ==> Finished(e.status)
    {
      hide Sound, Trimmed, EndedAll, InterruptedAll, Last, Finished;
      events := [];
      if Size(file) > maxBytes {
        NothingEnded(file, now);
        return;
      }
      ghost var before := file;
      events := file;
      InterruptedIsSound(file, perOwner, maxEvents, now);
      Trim();
      var changed := Interrupt(now);
      if changed {
        Save();
      }
      InterruptedHaveEnded(before, events, now, if maxEvents < 2 then 1 else maxEvents / 2);
    }

    method Interrupt(now: nat) returns (changed: bool)
      modifies this`events
      ensures events == InterruptedAll(old(events), now) && (!changed ==> events == old(events))
    {
      changed := false;
      ghost var before := events;
      for i := 0 to |events|
        invariant |events| == |before|
        invariant !changed ==> events == before
        invariant forall k :: 0 <= k < |events| ==> events[k] == if k < i then Interrupted(before[k], now) else before[k]
      {
        if !Finished(events[i].status) {
          events := events[i := Interrupted(events[i], now)];
          changed := true;
        }
      }
    }

    /** The stored event of a request, if any. */
    method Stored(owner: string, requestId: string) returns (found: Option<Event>)
      requires Valid()
      ensures found.Some? ==> found.value in events && found.value.owner == owner && found.value.requestId == requestId
      ensures found.None? ==> forall e :: e in events ==> !(e.owner == owner && e.requestId == requestId)
    {
      for i := |events| downto 0
        invariant forall k :: i <= k < |events| ==> !(events[k].owner == owner && events[k].requestId == requestId)
      {
        if events[i].owner == owner && events[i].requestId == requestId {
          return Some(events[i]);
        }
      }
      return None;
    }

    /**
     * Record a command about to be issued. A request seen before answers with its stored
     * event, or is refused when it was another command; a new one becomes the last event.
     */
    method Begin(owner: string, requestId: string, invocation: string, command: Option<Command>, anchor: string,
                 token: string, now: nat)
      returns (result: BeginResult)
      requires Valid() && forall e :: e in events ==> e.id != token
      modifies this
      ensures Valid()
      ensures result.Rejected? <==>
        command.None? || !ValidRequestId(requestId) || (command.value.durable && !ValidOwner(owner))
      ensures result.NotDurable? <==> command.Some? && ValidRequestId(requestId) && !command.value.durable
      ensures !(result.Begun? && !result.duplicate) ==> events == old(events) && file == old(file)
      ensures result.Reused? ==> exists e :: e in events && e.owner == owner && e.requestId == requestId && e.digest != Sha256(invocation)
      ensures result.Begun? ==>
        result.event in events && result.event.owner == owner && result.event.requestId == requestId
      ensures result.Begun? ==> result.event.digest == Sha256(invocation)
      ensures result.Begun? ==> (result.duplicate <==> exists e :: e in old(events) && e.owner == owner && e.requestId == requestId)
      ensures result.Begun? && !result.duplicate ==>
        events == file && events != [] && events[|events| - 1] == result.event && result.event.status == Running
      ensures result.Begun? && !result.duplicate ==>
        command.Some? && result.event == Event(token, owner, requestId, Sha256(invocation), command.value.name, Running, anchor, "",
          command.value.metadata, now, 0)
      ensures result.Begun? && !result.duplicate ==>
        var kept := Trimmed(old(events) + [result.event], perOwner, maxEvents);
          events == Last(kept, |events|) && (Size(kept) <= maxBytes ==> events == kept)
    {
      hide Sound, Trimmed;
      if command.None? || !ValidRequestId(requestId) {
        return Rejected;
      }
      if !command.value.durable {
        return NotDurable;
      }
      if !ValidOwner(owner) {
        return Rejected;
      }
      var existing := Stored(owner, requestId);
      if existing.Some? {
        return if existing.value.digest != Sha256(invocation) then Reused else Begun(existing.value, true);
      }
      var event := Event(token, owner, requestId, Sha256(invocation), command.value.name, Running, anchor, "",
        command.value.metadata, now, 0);
      NothingIsSound(perOwner, maxEvents);
      GrownIsSound(events, perOwner, maxEvents, event);
      events := events + [event];
      LastStays(events, perOwner, maxEvents);
      Trim();
      Save();
      return Begun(event, false);
    }

    /** Advance the event with the given id; every other event stays as it is. */
    method Update(id: string, status: Status, metadata: map<string, string>, interaction: Option<string>, now: nat)
      returns (updated: Option<Event>)
      requires Valid()
      modifies this
      ensures Valid()
      ensures updated.None? <==> forall e :: e in old(events) ==> e.id != id
      ensures updated.None? ==> events == old(events) && file == old(file)
      ensures updated.Some? ==>
        exists i, e :: IsUpdate(old(events), events, i, id, e, updated.value, Size, maxBytes)
          && updated.value == Advanced(e, status, metadata, interaction, now)
          && UpdatedTo(e, updated.value, status, metadata, interaction, now)
    {
      hide Sound, Advanced, UpdatedTo, Finished;
      for i := |events| downto 0
        invariant forall k :: i <= k < |events| ==> events[k].id != id
        invariant events == old(events) && file == old(file)
      {
        if events[i].id == id {
          var event := Advanced(events[i], status, metadata, interaction, now);
          AdvancedMeans(events[i], status, metadata, interaction, now);
          NothingIsSound(perOwner, maxEvents);
          AdvancedIsSound(events, perOwner, maxEvents, i, event);
          ghost var before := events;
          events := events[i := event];
          Save();
          assert IsUpdate(before, events, i, id, before[i], event, Size, maxBytes);
          return Some(event);
        }
      }
      return None;
    }

    /** The newest event of the owner that waits for the interaction. */
    method EventForInteraction(owner: string, interaction: string) returns (found: Option<Event>)
      requires Valid()
      ensures found.Some? ==>
        found.value in events && found.value.owner == owner && found.value.interaction == interaction
      ensures found.Some? && interaction != "" ==> !Finished(found.value.status)
      ensures found.Some? ==>
        exists i :: 0 <= i < |events| && events[i] == found.value
          && forall k :: i < k < |events| ==> !(events[k].owner == owner && events[k].interaction == interaction)
      ensures found.None? ==> forall e :: e in events ==> !(e.owner == owner && e.interaction == interaction)
    {
      for i := |events| downto 0
        invariant forall k :: i <= k < |events| ==> !(events[k].owner == owner && events[k].interaction == interaction)
      {
        if events[i].owner == owner && events[i].interaction == interaction {
          return Some(events[i]);
        }
      }
      return None;
    }
  }

  /** The list that a save writes. */
  function Fitting(events: seq<Event>, maxEvents: nat, maxBytes: nat, Size: seq<Event> -> nat): seq<Event> {
    if Size(events) <= maxBytes then events else Last(events, if maxEvents < 2 then 1 else maxEvents / 2)
  }

  /** What is saved is lost with the next restart exactly if the list, and its newer half too, exceed the limit. */
  method OversizedIsLost(store: CommandTimelineStore, now: nat)
    requires store.perOwner > 0 && store.maxEvents > 0 && Sound(store.events, store.perOwner, store.maxEvents)
    requires store.events != []
    modifies store
    ensures store.Valid()
    ensures store.events == [] <==>
      store.Size(old(store.events)) > store.maxBytes
      && store.Size(Fitting(old(store.events), store.maxEvents, store.maxBytes, store.Size)) > store.maxBytes
  {
    hide Sound;
    store.Save();
    ghost var saved := store.file;
    store.Restart(now);
  }

  /** Only the event at i, with the id given, has changed; a list that fits its file loses nothing. */
  ghost predicate IsUpdate(before: seq<Event>, after: seq<Event>, i: int, id: string, e: Event, updated: Event,
                           Size: seq<Event> -> nat, maxBytes: nat) {
    && 0 <= i < |before| && before[i] == e && e.id == id
    && after == Last(before[i := updated], |after|)
    && (Size(before[i := updated]) <= maxBytes ==> |after| == |before|)
  }

  lemma AdvancedMeans(e: Event, status: Status, metadata: map<string, string>, interaction: Option<string>, now: nat)
    ensures UpdatedTo(e, Advanced(e, status, metadata, interaction, now), status, metadata, interaction, now)
    ensures var u := Advanced(e, status, metadata, interaction, now);
      u.id == e.id && u.owner == e.owner && u.requestId == e.requestId && (Finished(u.status) ==> u.interaction == "")
  {
  }

  /** New metadata goes over old, a finished command is stamped and waits for nothing, and who asked what and when stays. */
  ghost predicate UpdatedTo(e: Event, u: Event, status: Status, metadata: map<string, string>, interaction: Option<string>, now: nat) {
    && u.status == status
    && (forall k :: k in u.metadata <==> k in metadata || k in e.metadata)
    && (forall k :: k in u.metadata ==> u.metadata[k] == if k in metadata then metadata[k] else e.metadata[k])
    && (Finished(status) ==> u.interaction == "" && u.completedAt == now)
    && (!Finished(status) ==> u.completedAt == e.completedAt)
    && (!Finished(status) ==> u.interaction == match interaction case Some(i) => i case None => e.interaction)
    && (u.id, u.owner, u.requestId, u.digest, u.name, u.anchor) == (e.id, e.owner, e.requestId, e.digest, e.name, e.anchor)
    && u.startedAt == e.startedAt
  }

  /** An event after an update: metadata is merged, and a finished command waits for nothing. */
  function Advanced(e: Event, status: Status, metadata: map<string, string>, interaction: Option<string>,
                    now: nat): Event {
    e.(status := status,
       metadata := e.metadata + metadata,
       interaction := if Finished(status) then "" else if interaction.Some? then interaction.value else e.interaction,
       completedAt := if Finished(status) then now else e.completedAt)
  }
}
