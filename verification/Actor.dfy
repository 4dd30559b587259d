// The projection of one session's notifications: started, streamed, completed.
module Actor {
  import opened Common
  import opened Numerals

  /** A protocol item as a dictionary of text fields. */
  type Raw = map<string, string>
  /** The display label of an item, after its fixed heading. */
  type Labels = (Raw, bool) -> string

  const DETAIL_CHARS := 96 * 1024

  function Field(item: Raw, name: string): string {
    if name in item then item[name] else ""
  }

  function AgentText(item: Raw): string {
    if Field(item, "type") == "agentMessage" then Field(item, "text") else ""
  }

  function Heading(kind: string, completed: bool): (s: string)
    ensures s != ""
  {
    match kind
    case "commandExecution" => if completed then "Ran " else "Running "
    case "fileChange" => if completed then "Edited " else "Editing "
    case "mcpToolCall" => if completed then "Called " else "Calling "
    case "dynamicToolCall" => if completed then "Called " else "Calling "
    case "webSearch" => if completed then "Searched" else "Searching the web"
    case "todoList" => "Updated Plan"
    case "contextCompaction" => "Context compacted"
    case "imageView" => "Viewed Image "
    case "subAgentActivity" => "Working with a background agent"
    case "error" => "⚠ "
    case _ => "Codex activity · "
  }

  function ProcessText(labels: Labels, item: Raw, final: bool): string {
    var kind := Field(item, "type");
    var completed := final || Field(item, "status") in {"completed", "failed", "declined"};
    if kind == "plan" then
      var text := Strip(Field(item, "text"));
      if text == "" then "Updated Plan" else "Updated Plan\n" + text
    else if kind == "reasoning" || kind == "" then ""
    else Heading(kind, completed) + labels(item, completed)
  }

  function ItemText(labels: Labels, item: Raw, final: bool): string {
    if AgentText(item) != "" then AgentText(item) else ProcessText(labels, item, final)
  }

  datatype Projection = Projection(id: string, turn: string, kind: string, text: string, revision: nat, final: bool, raw: Raw)

  datatype EventKind = Started | Delta | Final | TurnStarted | TurnCompleted | Lifecycle | Snapshot
  datatype ActorEvent = ActorEvent(kind: EventKind, turn: Option<string>, item: Option<string>, revision: nat,
                                   deltaChars: nat, textLength: nat)

  datatype ActorState = ActorState(items: map<string, Projection>, order: seq<string>,
                                   activeTurn: Option<string>, lifecycle: string, revision: nat)

  datatype Turn = Turn(id: string, status: string, items: seq<(string, Raw)>)

  /** The field a tool streams its output into. */
  datatype DetailField = CommandOutput | ChangeOutput {
    function Name(): string {
      if this == CommandOutput then "aggregatedOutput" else "output"
    }
  }

  /** A notification; an identity that fails validation is None and has no effect. */
  datatype Note =
    | ItemStarted(turn: string, id: string, item: Raw)
    | AgentDelta(turn: string, id: string, delta: string)
    | PlanDelta(turn: string, id: string, delta: string)
    | ActivityDelta(turn: string, id: string, field: DetailField, delta: string)
    | ItemCompleted(turn: string, id: string, item: Raw)
    | TurnBegins(begun: Turn)
    | TurnEnds(ended: Turn)
    | StatusChanged(lifecycle: string)
    | Malformed

  datatype Result = Result(state: ActorState, events: seq<ActorEvent>)

  const EMPTY := ActorState(map[], [], None, "loading", 0)

  function Put(st: ActorState, p: Projection): ActorState {
    st.(items := st.items[p.id := p], order := if p.id in st.items then st.order else st.order + [p.id])
  }

  /** Emit one event; every event advances the session revision. */
  function Emit(st: ActorState, e: ActorEvent): Result {
    Result(st.(revision := st.revision + 1), [e])
  }

  function StartItem(labels: Labels, st: ActorState, turn: string, id: string, item: Raw): Result {
    var text := ItemText(labels, item, false);
    var p := if id in st.items then st.items[id].(raw := item, text := text)
             else Projection(id, turn, Or(Field(item, "type"), "unknown"), text, 0, false, item);
    Emit(Put(st, p), ActorEvent(Started, Some(turn), Some(id), 0, 0, 0))
  }

  /** A text delta for an agent message or a plan. */
  function TextDelta(st: ActorState, turn: string, id: string, delta: string, plan: bool): Result {
    var p := if id in st.items then st.items[id]
             else if plan then Projection(id, turn, "plan", "Updated Plan\n", 0, false, map[])
             else Projection(id, turn, "agentMessage", "", 0, false, map[]);
    if p.final then Result(st, [])
    else
      var base := if !plan && p.text == "Updated Plan" then "Updated Plan\n" else p.text;
      var q := p.(text := base + delta, revision := p.revision + 1);
      Emit(Put(st, q), ActorEvent(Delta, Some(turn), Some(id), q.revision, |delta|, |q.text|))
  }

  function LastChars(s: string, n: nat): string {
    if |s| <= n then s else s[|s| - n..]
  }

  function FieldDelta(st: ActorState, turn: string, id: string, field: DetailField, delta: string): Result {
    if id !in st.items || st.items[id].final then Result(st, [])
    else
      var p := st.items[id];
      var value := LastChars(Field(p.raw, field.Name()) + delta, DETAIL_CHARS);
      var q := p.(raw := p.raw[field.Name() := value], revision := p.revision + 1);
      Emit(Put(st, q), ActorEvent(Delta, Some(turn), Some(id), q.revision, |delta|, |value|))
  }

  predicate Changes(labels: Labels, p: Projection, item: Raw) {
    !p.final || p.raw != item || p.text != ItemText(labels, item, true)
  }

  /** The projection after a completion: the item's own type, fields and text win. */
  function Completed(labels: Labels, p: Projection, item: Raw): Projection {
    var text := ItemText(labels, item, true);
    p.(kind := Or(Field(item, "type"), p.kind), raw := item, text := Or(text, p.text), final := true,
       revision := if Changes(labels, p, item) then p.revision + 1 else p.revision)
  }

  function Fresh(turn: string, id: string, item: Raw): Projection {
    Projection(id, turn, Or(Field(item, "type"), "unknown"), "", 0, false, map[])
  }

  function CompleteItem(labels: Labels, st: ActorState, turn: string, id: string, item: Raw): Result {
    var p := if id in st.items then st.items[id] else Fresh(turn, id, item);
    var q := Completed(labels, p, item);
    if Changes(labels, p, item) then
      Emit(Put(st, q), ActorEvent(Final, Some(turn), Some(id), q.revision, 0, 0))
    else Result(Put(st, q), [])
  }

  function CompleteItems(labels: Labels, st: ActorState, turn: string, items: seq<(string, Raw)>): Result {
    if items == [] then Result(st, [])
    else
      var front := CompleteItems(labels, st, turn, items[..|items| - 1]);
      var (id, item) := items[|items| - 1];
      var last := if id == "" || turn == "" then Result(front.state, []) else CompleteItem(labels, front.state, turn, id, item);
      Result(last.state, front.events + last.events)
  }

  function BeginTurn(st: ActorState, turn: Turn): Result {
    Emit(st.(activeTurn := Some(turn.id), lifecycle := "running"), ActorEvent(TurnStarted, Some(turn.id), None, 0, 0, 0))
  }

  function EndTurn(labels: Labels, st: ActorState, turn: Turn): Result {
    var done := CompleteItems(labels, st, turn.id, turn.items);
    var status := Or(turn.status, "completed");
    var ended := done.state.(
      activeTurn := if done.state.activeTurn == Some(turn.id) then None else done.state.activeTurn,
      lifecycle := if status == "completed" then "idle" else status);
    var last := Emit(ended, ActorEvent(TurnCompleted, Some(turn.id), None, 0, 0, 0));
    Result(last.state, done.events + last.events)
  }

  function Apply(labels: Labels, st: ActorState, note: Note): Result {
    match note
    case ItemStarted(turn, id, item) => StartItem(labels, st, turn, id, item)
    case AgentDelta(turn, id, delta) => TextDelta(st, turn, id, delta, false)
    case PlanDelta(turn, id, delta) => TextDelta(st, turn, id, delta, true)
    case ActivityDelta(turn, id, field, delta) => FieldDelta(st, turn, id, field, delta)
    case ItemCompleted(turn, id, item) => CompleteItem(labels, st, turn, id, item)
    case TurnBegins(turn) => BeginTurn(st, turn)
    case TurnEnds(turn) => EndTurn(labels, st, turn)
    case StatusChanged(lifecycle) => Emit(st.(lifecycle := lifecycle), ActorEvent(Lifecycle, None, None, 0, 0, 0))
    case Malformed => Result(st, [])
  }

  // ---------------------------------------------------------------- order

  /** item_order is duplicate-free and lists exactly the keys of items. */
  ghost predicate Ordered(st: ActorState) {
    && Distinct(st.order)
    && (forall id :: id in st.order <==> id in st.items)
    && (forall id :: id in st.items ==> st.items[id].id == id)
  }

  lemma PutOrdered(st: ActorState, p: Projection)
    requires Ordered(st)
    ensures Ordered(Put(st, p))
  {
  }

  lemma {:induction false} CompleteItemsOrdered(labels: Labels, st: ActorState, turn: string, items: seq<(string, Raw)>)
    requires Ordered(st)
    ensures Ordered(CompleteItems(labels, st, turn, items).state)
  {
    hide ItemText;
    if items != [] {
      CompleteItemsOrdered(labels, st, turn, items[..|items| - 1]);
    }
  }

  lemma ApplyOrdered(labels: Labels, st: ActorState, note: Note)
    requires Ordered(st)
    ensures Ordered(Apply(labels, st, note).state)
  {
    hide ItemText, Put;
    if note.TurnEnds? {
      CompleteItemsOrdered(labels, st, note.ended.id, note.ended.items);
    } else {
      forall p: Projection ensures Ordered(Put(st, p)) {
        PutOrdered(st, p);
      }
    }
  }

  // ---------------------------------------------------------------- convergence

  /** Everything of a projection that later readers see, except its counters. */
  datatype Content = Content(kind: string, raw: Raw, text: string, final: bool)

  function ContentOf(p: Projection): Content {
    Content(p.kind, p.raw, p.text, p.final)
  }

  function Converged(labels: Labels, item: Raw): Content {
    ContentOf(Completed(labels, Fresh("", "", item), item))
  }

  /** The projected text of a completed item is empty only for reasoning and for items without a type. */
  lemma EmptyTextKinds(labels: Labels, item: Raw)
    ensures ItemText(labels, item, true) == "" <==> Field(item, "type") in {"", "reasoning"}
  {
  }

  /**
   * A completion overrides whatever was streamed before exactly when its projected
   * text is not empty, or nothing had been streamed into the item.
   */
  lemma ConvergesExactly(labels: Labels, p: Projection, item: Raw)
    ensures ContentOf(Completed(labels, p, item)) == Converged(labels, item) <==>
      ItemText(labels, item, true) != "" || (p.text == "" && (Field(item, "type") != "" || p.kind == "unknown"))
  {
    EmptyTextKinds(labels, item);
    hide ItemText;
  }

  /** Repeating a completion emits nothing exactly when the first one settled the text. */
  lemma RepeatIsSilent(labels: Labels, st: ActorState, turn: string, id: string, item: Raw)
    requires Ordered(st)
    ensures var once := CompleteItem(labels, st, turn, id, item).state;
      var twice := CompleteItem(labels, once, turn, id, item);
      (twice.events == [] && twice.state == once) <==>
      ItemText(labels, item, true) != "" || id !in st.items || st.items[id].text == ""
  {
    hide ItemText;
    var once := CompleteItem(labels, st, turn, id, item).state;
    var q := once.items[id];
    assert once.items[id := q] == once.items;
    if ItemText(labels, item, true) != "" || id !in st.items || st.items[id].text == "" {
      assert !Changes(labels, q, item);
      assert Put(once, Completed(labels, q, item)) == once;
    }
  }

  /** Deltas neither change a final item nor say anything about it. */
  predicate IsDeltaFor(note: Note, id: string) {
    (note.AgentDelta? || note.PlanDelta? || note.ActivityDelta?) && note.id == id
  }

  predicate Concerns(note: Note, id: string) {
    match note
    case ItemStarted(_, i, _) => i == id
    case AgentDelta(_, i, _) => i == id
    case PlanDelta(_, i, _) => i == id
    case ActivityDelta(_, i, _, _) => i == id
    case ItemCompleted(_, i, _) => i == id
    case TurnEnds(turn) => exists k :: 0 <= k < |turn.items| && turn.items[k].0 == id
    case _ => false
  }

  lemma LateDeltaIgnored(labels: Labels, st: ActorState, note: Note, id: string)
    requires IsDeltaFor(note, id) && id in st.items && st.items[id].final
    ensures Apply(labels, st, note) == Result(st, [])
  {
  }

  lemma {:induction false} CompleteItemsOthers(labels: Labels, st: ActorState, turn: string, items: seq<(string, Raw)>,
                                               id: string)
    requires id in st.items && Ordered(st) && forall k :: 0 <= k < |items| ==> items[k].0 != id
    ensures var r := CompleteItems(labels, st, turn, items).state; id in r.items && r.items[id] == st.items[id]
  {
    hide ItemText;
    if items != [] {
      var front := items[..|items| - 1];
      CompleteItemsOthers(labels, st, turn, front, id);
      CompleteItemsOrdered(labels, st, turn, front);
    }
  }

  lemma UnconcernedKept(labels: Labels, st: ActorState, note: Note, id: string)
    requires Ordered(st) && id in st.items && !Concerns(note, id)
    ensures var r := Apply(labels, st, note).state; id in r.items && r.items[id] == st.items[id]
  {
    hide ItemText;
    if note.TurnEnds? {
      CompleteItemsOthers(labels, st, note.ended.id, note.ended.items, id);
    }
  }

  ghost predicate SameContent(a: ActorState, b: ActorState, id: string) {
    id in a.items && id in b.items && ContentOf(a.items[id]) == ContentOf(b.items[id])
  }

  /** One completion makes two actors agree on its item, and keeps them agreed on every other. */
  lemma CompletionAgrees(labels: Labels, a: ActorState, b: ActorState, turn: string, i: string, item: Raw, id: string)
    requires Ordered(a) && Ordered(b)
    requires SameContent(a, b, id) || (i == id && ItemText(labels, item, true) != "")
    ensures SameContent(CompleteItem(labels, a, turn, i, item).state, CompleteItem(labels, b, turn, i, item).state, id)
  {
    EmptyTextKinds(labels, item);
    hide ItemText;
  }

  // ---------------------------------------------------------------- hydration

  /** Complete every item of every turn of a recovered thread, silently. */
  function HydrateItems(labels: Labels, st: ActorState, turns: seq<Turn>): ActorState {
    if turns == [] then st
    else
      var last := turns[|turns| - 1];
      CompleteItems(labels, HydrateItems(labels, st, turns[..|turns| - 1]), last.id, last.items).state
  }

  predicate IsActive(status: string) {
    status in {"inProgress", "in_progress", "active"}
  }

  function LastActive(turns: seq<Turn>): Option<string> {
    if turns == [] then None
    else if IsActive(turns[|turns| - 1].status) then Some(turns[|turns| - 1].id)
    else LastActive(turns[..|turns| - 1])
  }

  function Hydrate(labels: Labels, st: ActorState, threadLifecycle: string, turns: seq<Turn>): ActorState {
    var done := HydrateItems(labels, st, turns);
    var active := LastActive(turns);
    if active.Some? && active.value != "" then done.(activeTurn := active, lifecycle := "running")
    else if threadLifecycle != "running" then done.(activeTurn := None, lifecycle := threadLifecycle)
    else done.(lifecycle := threadLifecycle)
  }

  ghost predicate Settles(labels: Labels, turn: string, items: seq<(string, Raw)>, id: string) {
    turn != "" && exists k :: 0 <= k < |items| && items[k].0 == id && ItemText(labels, items[k].1, true) != ""
  }

  lemma {:induction false} ItemsAgree(labels: Labels, a: ActorState, b: ActorState, turn: string,
                                      items: seq<(string, Raw)>, id: string)
    requires Ordered(a) && Ordered(b) && id != ""
    requires SameContent(a, b, id) || Settles(labels, turn, items, id)
    ensures SameContent(CompleteItems(labels, a, turn, items).state, CompleteItems(labels, b, turn, items).state, id)
  {
    hide ItemText, CompleteItem;
    if items != [] {
      var front, item := items[..|items| - 1], items[|items| - 1].1;
      CompleteItemsOrdered(labels, a, turn, front);
      CompleteItemsOrdered(labels, b, turn, front);
      if SameContent(a, b, id) || Settles(labels, turn, front, id) {
        ItemsAgree(labels, a, b, turn, front, id);
      }
      var x, y := CompleteItems(labels, a, turn, front).state, CompleteItems(labels, b, turn, front).state;
      if items[|items| - 1].0 != "" && turn != "" {
        CompletionAgrees(labels, x, y, turn, items[|items| - 1].0, item, id);
      }
    }
  }

  lemma {:induction false} HydrateOrdered(labels: Labels, st: ActorState, turns: seq<Turn>)
    requires Ordered(st)
    ensures Ordered(HydrateItems(labels, st, turns))
  {
    if turns != [] {
      var front := turns[..|turns| - 1];
      HydrateOrdered(labels, st, front);
      CompleteItemsOrdered(labels, HydrateItems(labels, st, front), turns[|turns| - 1].id, turns[|turns| - 1].items);
    }
  }

  /**
   * Recovery over partial streaming: an item whose recovered text is not empty reads
   * the same as after recovering into a fresh actor.
   */
  lemma {:induction false} HydrateConverges(labels: Labels, st: ActorState, threadLifecycle: string, turns: seq<Turn>,
                                            t: nat, id: string)
    requires Ordered(st) && id != "" && t < |turns| && Settles(labels, turns[t].id, turns[t].items, id)
    ensures SameContent(Hydrate(labels, st, threadLifecycle, turns), Hydrate(labels, EMPTY, threadLifecycle, turns), id)
  {
    hide ItemText;
    var front, last := turns[..|turns| - 1], turns[|turns| - 1];
    HydrateOrdered(labels, st, front);
    HydrateOrdered(labels, EMPTY, front);
    if t < |front| {
      HydrateConverges(labels, st, threadLifecycle, front, t, id);
    }
    ItemsAgree(labels, HydrateItems(labels, st, front), HydrateItems(labels, EMPTY, front), last.id, last.items, id);
  }

  // ---------------------------------------------------------------- whole runs

  /** What happens to an actor: it is told a notification, or recovers from a thread snapshot. */
  datatype Move = Told(note: Note) | Recovered(lifecycle: string, turns: seq<Turn>)

  function Step(labels: Labels, st: ActorState, move: Move): ActorState {
    match move
    case Told(note) => Apply(labels, st, note).state
    case Recovered(lifecycle, turns) => Hydrate(labels, st, lifecycle, turns)
  }

  function Run(labels: Labels, st: ActorState, moves: seq<Move>): ActorState {
    if moves == [] then st else Step(labels, Run(labels, st, moves[..|moves| - 1]), moves[|moves| - 1])
  }

  lemma StepOrdered(labels: Labels, st: ActorState, move: Move)
    requires Ordered(st)
    ensures Ordered(Step(labels, st, move))
  {
    hide Apply;
    match move
    case Told(note) => ApplyOrdered(labels, st, note);
    case Recovered(_, turns) => HydrateOrdered(labels, st, turns);
  }

  lemma {:induction false} RunOrdered(labels: Labels, moves: seq<Move>)
    ensures Ordered(Run(labels, EMPTY, moves))
  {
    hide Step;
    if moves != [] {
      RunOrdered(labels, moves[..|moves| - 1]);
      StepOrdered(labels, Run(labels, EMPTY, moves[..|moves| - 1]), moves[|moves| - 1]);
    }
  }

  /** The item reads as after this completion alone. */
  ghost predicate Reads(labels: Labels, st: ActorState, id: string, item: Raw) {
    id in st.items && ContentOf(st.items[id]) == Converged(labels, item)
  }

  ghost predicate SaysOnly(items: seq<(string, Raw)>, id: string, item: Raw) {
    forall k :: 0 <= k < |items| && items[k].0 == id ==> items[k].1 == item
  }

  /** Late deltas, other items, and repetitions of the same completion in any form. */
  ghost predicate Restates(move: Move, id: string, item: Raw) {
    match move
    case Told(note) =>
      || IsDeltaFor(note, id) || !Concerns(note, id)
      || (note.ItemCompleted? && note.item == item)
      || (note.TurnEnds? && SaysOnly(note.ended.items, id, item))
    case Recovered(_, turns) => forall t :: 0 <= t < |turns| ==> SaysOnly(turns[t].items, id, item)
  }

  lemma CompletionReads(labels: Labels, st: ActorState, turn: string, i: string, item: Raw, id: string, said: Raw)
    requires Ordered(st) && ItemText(labels, said, true) != ""
    requires if i == id then item == said else Reads(labels, st, id, said)
    ensures Reads(labels, CompleteItem(labels, st, turn, i, item).state, id, said)
  {
    EmptyTextKinds(labels, said);
    hide ItemText;
  }

  lemma {:induction false} CompletionsRead(labels: Labels, st: ActorState, turn: string, items: seq<(string, Raw)>,
                                           id: string, item: Raw)
    requires Ordered(st) && ItemText(labels, item, true) != "" && Reads(labels, st, id, item)
    requires SaysOnly(items, id, item)
    ensures Reads(labels, CompleteItems(labels, st, turn, items).state, id, item)
  {
    hide ItemText, CompleteItem, Reads;
    if items != [] {
      var front, last := items[..|items| - 1], items[|items| - 1];
      CompletionsRead(labels, st, turn, front, id, item);
      CompleteItemsOrdered(labels, st, turn, front);
      if last.0 != "" && turn != "" {
        CompletionReads(labels, CompleteItems(labels, st, turn, front).state, turn, last.0, last.1, id, item);
      }
    }
  }

  lemma {:induction false} RecoveryReads(labels: Labels, st: ActorState, turns: seq<Turn>, id: string, item: Raw)
    requires Ordered(st) && ItemText(labels, item, true) != "" && Reads(labels, st, id, item)
    requires forall t :: 0 <= t < |turns| ==> SaysOnly(turns[t].items, id, item)
    ensures Reads(labels, HydrateItems(labels, st, turns), id, item)
  {
    hide ItemText, CompleteItems, Reads, SaysOnly;
    if turns != [] {
      var front, last := turns[..|turns| - 1], turns[|turns| - 1];
      RecoveryReads(labels, st, front, id, item);
      HydrateOrdered(labels, st, front);
      CompletionsRead(labels, HydrateItems(labels, st, front), last.id, last.items, id, item);
    }
  }

  lemma StepReads(labels: Labels, st: ActorState, move: Move, id: string, item: Raw)
    requires Ordered(st) && ItemText(labels, item, true) != "" && Reads(labels, st, id, item)
    requires Restates(move, id, item)
    ensures Reads(labels, Step(labels, st, move), id, item)
  {
    hide ItemText;
    match move
    case Recovered(_, turns) => RecoveryReads(labels, st, turns, id, item);
    case Told(note) =>
      if IsDeltaFor(note, id) {
        LateDeltaIgnored(labels, st, note, id);
      } else if !Concerns(note, id) {
        UnconcernedKept(labels, st, note, id);
      } else if note.ItemCompleted? {
        CompletionReads(labels, st, note.turn, note.id, note.item, id, item);
      } else {
        CompletionsRead(labels, st, note.ended.id, note.ended.items, id, item);
      }
  }

  /**
   * Convergence over a whole run of notifications and recoveries: whatever came before a
   * completion with projected text, and whatever late deltas, notes about other items or
   * repetitions of it came after, the item reads exactly as in an actor that saw the
   * completion alone.
   */
  lemma {:induction false} ActorConverges(labels: Labels, before: seq<Move>, turn: string, id: string, item: Raw,
                                          after: seq<Move>)
    requires ItemText(labels, item, true) != ""
    requires forall k :: 0 <= k < |after| ==> Restates(after[k], id, item)
    ensures var st := Run(labels, EMPTY, before + [Told(ItemCompleted(turn, id, item))] + after);
      SameContent(st, Run(labels, EMPTY, [Told(ItemCompleted(turn, id, item))]), id) && st.items[id].final
  {
    RunReads(labels, before, turn, id, item, after);
    RunReads(labels, [], turn, id, item, []);
    assert [] + [Told(ItemCompleted(turn, id, item))] + [] == [Told(ItemCompleted(turn, id, item))];
  }

  lemma {:induction false} RunReads(labels: Labels, before: seq<Move>, turn: string, id: string, item: Raw,
                                    after: seq<Move>)
    requires ItemText(labels, item, true) != ""
    requires forall k :: 0 <= k < |after| ==> Restates(after[k], id, item)
    ensures Reads(labels, Run(labels, EMPTY, before + [Told(ItemCompleted(turn, id, item))] + after), id, item)
  {
    var c := Told(ItemCompleted(turn, id, item));
    if after == [] {
      assert before + [c] + after == before + [c];
      RunSnoc(labels, before, c);
      RunOrdered(labels, before);
      hide ItemText, Reads;
      CompletionReads(labels, Run(labels, EMPTY, before), turn, id, item, id, item);
    } else {
      hide ItemText, Reads, Step, Restates;
      var front, last := after[..|after| - 1], after[|after| - 1];
      var moves := before + [c] + front;
      assert before + [c] + after == moves + [last];
      RunReads(labels, before, turn, id, item, front);
      RunSnoc(labels, moves, last);
      RunOrdered(labels, moves);
      StepReads(labels, Run(labels, EMPTY, moves), last, id, item);
    }
  }

  lemma RunSnoc(labels: Labels, moves: seq<Move>, move: Move)
    ensures Run(labels, EMPTY, moves + [move]) == Step(labels, Run(labels, EMPTY, moves), move)
  {
    assert (moves + [move])[..|moves + [move]| - 1] == moves;
  }

  /** A recovered reasoning item has no text of its own, so streamed text survives it. */
  lemma ReasoningKeepsStreamedText(labels: Labels)
    ensures var reasoning: Raw := map["type" := "reasoning"]; var turns := [Turn("t", "completed", [("i", reasoning)])];
      && Hydrate(labels, Run(labels, EMPTY, [Told(AgentDelta("t", "i", "x"))]), "idle", turns).items["i"].text == "x"
      && Hydrate(labels, EMPTY, "idle", turns).items["i"].text == ""
  {
    var reasoning: Raw := map["type" := "reasoning"];
    var note, turns := AgentDelta("t", "i", "x"), [Turn("t", "completed", [("i", reasoning)])];
    var st := Run(labels, EMPTY, [Told(note)]);
    assert [Told(note)][..0] == [] && turns[..0] == [] && turns[0].items[..0] == [];
    assert ItemText(labels, reasoning, true) == "";
    assert st == Apply(labels, EMPTY, note).state && st.items["i"].text == "x";
    forall start: ActorState ensures HydrateItems(labels, start, turns) == CompleteItem(labels, start, "t", "i", reasoning).state {
      assert HydrateItems(labels, start, turns) == CompleteItems(labels, HydrateItems(labels, start, []), "t", turns[0].items).state;
      assert CompleteItems(labels, start, "t", []).state == start;
    }
  }
}
