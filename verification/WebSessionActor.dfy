// The session actor as the object whose methods update its fields in place.
module WebSessionActor {
  import opened Common
  import opened Actor

  class WebSessionActor {
    const labels: Labels
    var items: map<string, Projection>
    var itemOrder: seq<string>
    var activeTurnId: Option<string>
    var lifecycle: string
    var revision: nat

    function State(): ActorState
      reads this
    {
      ActorState(items, itemOrder, activeTurnId, lifecycle, revision)
    }

    ghost predicate Valid()
      reads this
    {
      Ordered(State())
    }

    constructor (labels: Labels)
      ensures Valid() && State() == EMPTY && this.labels == labels
    {
      this.labels, items, itemOrder, activeTurnId, lifecycle, revision := labels, map[], [], None, "loading", 0;
    }

    /** Apply one notification: the new state and the events are those of the specification. */
    method ApplyNote(note: Note) returns (events: seq<ActorEvent>)
      requires Valid()
      modifies this
      ensures Valid()
      ensures Result(State(), events) == Apply(labels, old(State()), note)
    {
      ApplyOrdered(labels, State(), note);
      match note
      case ItemStarted(turn, id, item) => events := ItemStarts(turn, id, item);
      case AgentDelta(turn, id, delta) => events := TextArrives(turn, id, delta, false);
      case PlanDelta(turn, id, delta) => events := TextArrives(turn, id, delta, true);
      case ActivityDelta(turn, id, field, delta) => events := FieldArrives(turn, id, field, delta);
      case ItemCompleted(turn, id, item) => events := ItemCompletes(turn, id, item);
      case TurnBegins(turn) =>
        activeTurnId, lifecycle, revision := Some(turn.id), "running", revision + 1;
        events := [ActorEvent(TurnStarted, Some(turn.id), None, 0, 0, 0)];
      case TurnEnds(turn) => events := TurnCompletes(turn);
      case StatusChanged(status) =>
        lifecycle, revision := status, revision + 1;
        events := [ActorEvent(Lifecycle, None, None, 0, 0, 0)];
      case Malformed => events := [];
    }

    method ItemStarts(turn: string, id: string, item: Raw) returns (events: seq<ActorEvent>)
      requires Valid()
      modifies this
      ensures Result(State(), events) == StartItem(labels, old(State()), turn, id, item)
    {
      hide ItemText;
      var text := ItemText(labels, item, false);
      if id !in items {
        items := items[id := Projection(id, turn, Or(Field(item, "type"), "unknown"), text, 0, false, item)];
        itemOrder := itemOrder + [id];
      } else {
        items := items[id := items[id].(raw := item, text := text)];
      }
      revision := revision + 1;
      events := [ActorEvent(Started, Some(turn), Some(id), 0, 0, 0)];
    }

    method TextArrives(turn: string, id: string, delta: string, plan: bool) returns (events: seq<ActorEvent>)
      requires Valid()
      modifies this
      ensures Result(State(), events) == TextDelta(old(State()), turn, id, delta, plan)
    {
      var p := if id in items then items[id]
               else if plan then Projection(id, turn, "plan", "Updated Plan\n", 0, false, map[])
               else Projection(id, turn, "agentMessage", "", 0, false, map[]);
      if id !in items {
        itemOrder := itemOrder + [id];
      }
      if p.final {
        return [];
      }
      if !plan && p.text == "Updated Plan" {
        p := p.(text := "Updated Plan\n");
      }
      p := p.(text := p.text + delta, revision := p.revision + 1);
      items := items[id := p];
      revision := revision + 1;
      events := [ActorEvent(Delta, Some(turn), Some(id), p.revision, |delta|, |p.text|)];
    }

    method FieldArrives(turn: string, id: string, field: DetailField, delta: string) returns (events: seq<ActorEvent>)
      requires Valid()
      modifies this
      ensures Result(State(), events) == FieldDelta(old(State()), turn, id, field, delta)
    {
      if id !in items || items[id].final {
        return [];
      }
      var p := items[id];
      var value := LastChars(Field(p.raw, field.Name()) + delta, DETAIL_CHARS);
      p := p.(raw := p.raw[field.Name() := value], revision := p.revision + 1);
      items := items[id := p];
      revision := revision + 1;
      events := [ActorEvent(Delta, Some(turn), Some(id), p.revision, |delta|, |value|)];
    }

    method ItemCompletes(turn: string, id: string, item: Raw) returns (events: seq<ActorEvent>)
      requires Valid()
      modifies this
      ensures Result(State(), events) == CompleteItem(labels, old(State()), turn, id, item)
      ensures Valid()
    {
      hide ItemText, Put, Completed, CompleteItem;
      var before := if id in items then items[id] else Fresh(turn, id, item);
      if id !in items {
        itemOrder := itemOrder + [id];
      }
      var p, changed := CompletesProjection(before, item);
      if changed {
        revision := revision + 1;
      }
      items := items[id := p];
      events := if changed then [ActorEvent(Final, Some(turn), Some(id), p.revision, 0, 0)] else [];
      CompleteItemUnfolds(old(State()), turn, id, item);
    }

    lemma CompleteItemUnfolds(st: ActorState, turn: string, id: string, item: Raw)
      requires Ordered(st)
      ensures var p := if id in st.items then st.items[id] else Fresh(turn, id, item); var q := Completed(labels, p, item);
        && q.id == id
        && CompleteItem(labels, st, turn, id, item) ==
             (if Changes(labels, p, item) then Emit(Put(st, q), ActorEvent(Final, Some(turn), Some(id), q.revision, 0, 0))
              else Result(Put(st, q), []))
        && Put(st, q) == st.(items := st.items[id := q], order := if id in st.items then st.order else st.order + [id])
        && Ordered(CompleteItem(labels, st, turn, id, item).state)
    {
      hide ItemText;
      PutOrdered(st, Completed(labels, if id in st.items then st.items[id] else Fresh(turn, id, item), item));
    }

    method CompletesProjection(before: Projection, item: Raw) returns (p: Projection, changed: bool)
      ensures p == Completed(labels, before, item) && changed == Changes(labels, before, item)
    {
      hide ItemText;
      var text := ItemText(labels, item, true);
      changed := !before.final || before.raw != item || before.text != text;
      p := before.(kind := Or(Field(item, "type"), before.kind), raw := item, final := true);
      if text != "" {
        p := p.(text := text);
      }
      if changed {
        p := p.(revision := p.revision + 1);
      }
    }

    /** Complete each identified item of a turn, in order. */
    method ItemsComplete(turn: string, completed: seq<(string, Raw)>) returns (events: seq<ActorEvent>)
      requires Valid()
      modifies this
      ensures Valid() && Result(State(), events) == CompleteItems(labels, old(State()), turn, completed)
    {
      hide CompleteItem;
      events := [];
      assert completed[..0] == [];
      for k := 0 to |completed|
        invariant Valid() && Result(State(), events) == CompleteItems(labels, old(State()), turn, completed[..k])
      {
        var prefix := completed[..k + 1];
        assert prefix[..|prefix| - 1] == completed[..k] && prefix[|prefix| - 1] == completed[k];
        var more: seq<ActorEvent> := [];
        if completed[k].0 != "" && turn != "" {
          more := ItemCompletes(turn, completed[k].0, completed[k].1);
        }
        events := events + more;
      }
      assert completed[..|completed|] == completed;
    }

    method TurnCompletes(turn: Turn) returns (events: seq<ActorEvent>)
      requires Valid()
      modifies this
      ensures Result(State(), events) == EndTurn(labels, old(State()), turn)
    {
      hide CompleteItems;
      events := ItemsComplete(turn.id, turn.items);
      if activeTurnId == Some(turn.id) {
        activeTurnId := None;
      }
      var status := Or(turn.status, "completed");
      lifecycle := if status == "completed" then "idle" else status;
      revision := revision + 1;
      events := events + [ActorEvent(TurnCompleted, Some(turn.id), None, 0, 0, 0)];
    }

    /** Recover from a thread snapshot: complete its items silently, then settle the lifecycle. */
    method HydrateThread(threadLifecycle: string, turns: seq<Turn>)
      requires Valid()
      modifies this
      ensures Valid() && State() == Hydrate(labels, old(State()), threadLifecycle, turns)
    {
      hide CompleteItems;
      var active: Option<string> := None;
      assert turns[..0] == [];
      for k := 0 to |turns|
        invariant Valid() && State() == HydrateItems(labels, old(State()), turns[..k])
        invariant active == LastActive(turns[..k])
      {
        var prefix := turns[..k + 1];
        assert prefix[..|prefix| - 1] == turns[..k] && prefix[|prefix| - 1] == turns[k];
        var _ := ItemsComplete(turns[k].id, turns[k].items);
        if IsActive(turns[k].status) {
          active := Some(turns[k].id);
        }
      }
      assert turns[..|turns|] == turns;
      if active.Some? && active.value != "" {
        activeTurnId, lifecycle := active, "running";
      } else {
        lifecycle := threadLifecycle;
        if threadLifecycle != "running" {
          activeTurnId := None;
        }
      }
    }
  }
}
