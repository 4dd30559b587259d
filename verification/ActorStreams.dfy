// What an actor has streamed into an item that is not final: its deltas, joined in order.
module ActorStreams {
  import opened Common
  import opened Numerals
  import opened Actor

  // ---------------------------------------------------------------- joined deltas

  /** A text delta, and whether it was one of an agent message rather than of a plan. */
  datatype Chunk = Chunk(text: string, agent: bool)

  function Joined(chunks: seq<Chunk>): string {
    if chunks == [] then "" else Joined(chunks[..|chunks| - 1]) + chunks[|chunks| - 1].text
  }

  const HEADING := "Updated Plan"

  /** An agent delta finds exactly the bare plan heading. */
  ghost predicate Breaks(base: string, chunks: seq<Chunk>) {
    exists j :: 0 <= j < |chunks| && chunks[j].agent && base + Joined(chunks[..j]) == HEADING
  }

  /**
   * The text of an item: where it began, and its deltas in order of arrival; only where an
   * agent delta finds exactly the plan heading, a line break comes in between.
   */
  ghost function Streamed(base: string, chunks: seq<Chunk>): string {
    var whole := base + Joined(chunks);
    if Breaks(base, chunks) && |whole| >= |HEADING| then HEADING + "\n" + whole[|HEADING|..] else whole
  }

  lemma {:induction false} JoinedGrows(chunks: seq<Chunk>, j: nat)
    requires j <= |chunks|
    ensures Joined(chunks[..j]) <= Joined(chunks)
  {
    if j < |chunks| {
      var front := chunks[..|chunks| - 1];
      assert chunks[..j] == front[..j];
      JoinedGrows(front, j);
    } else {
      assert chunks[..j] == chunks;
    }
  }

  lemma BreakIsInside(base: string, chunks: seq<Chunk>)
    requires Breaks(base, chunks)
    ensures HEADING <= base + Joined(chunks)
  {
    var j :| 0 <= j < |chunks| && chunks[j].agent && base + Joined(chunks[..j]) == HEADING;
    JoinedGrows(chunks, j);
  }

  lemma BreaksSnoc(base: string, chunks: seq<Chunk>, c: Chunk)
    ensures Breaks(base, chunks + [c]) <==> Breaks(base, chunks) || (c.agent && base + Joined(chunks) == HEADING)
  {
    var all := chunks + [c];
    assert forall j :: 0 <= j <= |chunks| ==> all[..j] == chunks[..j];
    assert chunks[..|chunks|] == chunks;
    if j :| 0 <= j < |chunks| && chunks[j].agent && base + Joined(chunks[..j]) == HEADING {
      assert all[j].agent && base + Joined(all[..j]) == HEADING;
    }
    if c.agent && base + Joined(chunks) == HEADING {
      assert all[|chunks|].agent && base + Joined(all[..|chunks|]) == HEADING;
    }
  }

  /** One more delta goes to the end. */
  lemma StreamedSnoc(base: string, chunks: seq<Chunk>, c: Chunk)
    ensures Streamed(base, chunks + [c]) ==
      (if c.agent && Streamed(base, chunks) == HEADING then HEADING + "\n" else Streamed(base, chunks)) + c.text
  {
    assert (chunks + [c])[..|chunks|] == chunks;
    BreaksSnoc(base, chunks, c);
    var whole := base + Joined(chunks);
    assert base + Joined(chunks + [c]) == whole + c.text;
    if Breaks(base, chunks) {
      BreakIsInside(base, chunks);
      assert (whole + c.text)[|HEADING|..] == whole[|HEADING|..] + c.text;
      assert |Streamed(base, chunks)| > |HEADING|;
    } else if c.agent && whole == HEADING {
      assert (whole + c.text)[|HEADING|..] == c.text;
    }
  }

  // ---------------------------------------------------------------- bounded output

  function Output(parts: seq<string>): string {
    if parts == [] then "" else Output(parts[..|parts| - 1]) + parts[|parts| - 1]
  }

  /** A raw field: where it began, or the last characters of that and all its output. */
  function Detail(base: string, parts: seq<string>): string {
    if parts == [] then base else LastChars(base + Output(parts), DETAIL_CHARS)
  }

  lemma DetailSnoc(base: string, parts: seq<string>, part: string)
    ensures Detail(base, parts + [part]) == LastChars(Detail(base, parts) + part, DETAIL_CHARS)
  {
    assert (parts + [part])[..|parts|] == parts;
    var whole := base + Output(parts);
    assert base + Output(parts + [part]) == whole + part;
    hide LastChars, Output;
    if parts == [] {
      assert base + "" == base;
      assert whole == base by { OutputOfNothing(); }
    } else {
      LastCharsTwice(whole, part, DETAIL_CHARS);
    }
  }

  lemma OutputOfNothing()
    ensures Output([]) == ""
  {
  }

  lemma LastCharsTwice(a: string, b: string, n: nat)
    ensures LastChars(LastChars(a, n) + b, n) == LastChars(a + b, n)
  {
    if |a| > n {
      assert a + b == a[..|a| - n] + (a[|a| - n..] + b);
    }
  }

  // ---------------------------------------------------------------- the deltas of a run

  function TextOf(move: Move, id: string): seq<Chunk> {
    if move.Told? && move.note.AgentDelta? && move.note.id == id then [Chunk(move.note.delta, true)]
    else if move.Told? && move.note.PlanDelta? && move.note.id == id then [Chunk(move.note.delta, false)]
    else []
  }

  /** The text deltas for an item, in order of arrival. */
  function Chunks(moves: seq<Move>, id: string): seq<Chunk> {
    if moves == [] then [] else Chunks(moves[..|moves| - 1], id) + TextOf(moves[|moves| - 1], id)
  }

  function OutputOf(move: Move, id: string, field: DetailField): seq<string> {
    if move.Told? && move.note.ActivityDelta? && move.note.id == id && move.note.field == field then [move.note.delta] else []
  }

  /** The output deltas for a field of an item, in order of arrival. */
  function Parts(moves: seq<Move>, id: string, field: DetailField): seq<string> {
    if moves == [] then [] else Parts(moves[..|moves| - 1], id, field) + OutputOf(moves[|moves| - 1], id, field)
  }

  predicate Begins(move: Move, id: string) {
    move.Told? && move.note.ItemStarted? && move.note.id == id
  }

  /** Where an item began: its text, its raw fields, and the number of the first move whose deltas count. */
  datatype Origin = Origin(text: string, raw: Raw, from: nat)

  /** The item last started with move k, or was first heard of by the delta it brings. */
  ghost predicate Began(labels: Labels, moves: seq<Move>, id: string, k: int, o: Origin) {
    && 0 <= k < |moves| && k <= o.from <= k + 1
    && (forall j :: k < j < |moves| ==> !Begins(moves[j], id))
    && if Begins(moves[k], id) then o == Origin(ItemText(labels, moves[k].note.item, false), moves[k].note.item, k + 1)
       else
         && id !in Run(labels, EMPTY, moves[..k]).items && |TextOf(moves[k], id)| == 1
         && o == Origin(if TextOf(moves[k], id)[0].agent then "" else HEADING + "\n", map[], k)
  }

  /** The item is where its origin and its deltas since have brought it. */
  ghost predicate Arrived(p: Projection, moves: seq<Move>, id: string, o: Origin) {
    && o.from <= |moves|
    && p.text == Streamed(o.text, Chunks(moves[o.from..], id))
    && forall field: DetailField :: Field(p.raw, field.Name()) == Detail(Field(o.raw, field.Name()), Parts(moves[o.from..], id, field))
  }

  // ---------------------------------------------------------------- one move

  lemma {:induction false} CompletionsKeepOrFinish(labels: Labels, st: ActorState, turn: string, items: seq<(string, Raw)>, id: string)
    requires Ordered(st)
    ensures var r := CompleteItems(labels, st, turn, items).state;
      id in r.items ==> r.items[id].final || (id in st.items && r.items[id] == st.items[id])
  {
    hide ItemText;
    if items != [] {
      CompletionsKeepOrFinish(labels, st, turn, items[..|items| - 1], id);
      CompleteItemsOrdered(labels, st, turn, items[..|items| - 1]);
    }
  }

  lemma {:induction false} RecoveryKeepsOrFinishes(labels: Labels, st: ActorState, turns: seq<Turn>, id: string)
    requires Ordered(st)
    ensures var r := HydrateItems(labels, st, turns);
      id in r.items ==> r.items[id].final || (id in st.items && r.items[id] == st.items[id])
  {
    hide CompleteItems;
    if turns != [] {
      var front, last := turns[..|turns| - 1], turns[|turns| - 1];
      RecoveryKeepsOrFinishes(labels, st, front, id);
      HydrateOrdered(labels, st, front);
      CompletionsKeepOrFinish(labels, HydrateItems(labels, st, front), last.id, last.items, id);
    }
  }

  /** A move that leaves an item not final either begins it, adds its delta, or leaves it alone. */
  ghost predicate Adds(labels: Labels, before: ActorState, after: ActorState, move: Move, id: string)
    requires id in after.items
  {
    var q := after.items[id];
    if Begins(move, id) then q.text == ItemText(labels, move.note.item, false) && q.raw == move.note.item
    else if TextOf(move, id) != [] then
      var c := TextOf(move, id)[0];
      if id in before.items then
        var p := before.items[id];
        !p.final && q.raw == p.raw && q.text == (if c.agent && p.text == HEADING then HEADING + "\n" else p.text) + c.text
      else q.raw == map[] && q.text == (if c.agent then "" else HEADING + "\n") + c.text
    else
      && id in before.items && !before.items[id].final && q.text == before.items[id].text
      && forall field: DetailField ::
           Field(q.raw, field.Name()) ==
           var base := Field(before.items[id].raw, field.Name());
           if OutputOf(move, id, field) == [] then base else LastChars(base + OutputOf(move, id, field)[0], DETAIL_CHARS)
  }

  lemma NoteAdds(labels: Labels, st: ActorState, note: Note, id: string)
    requires Ordered(st)
    requires var r := Apply(labels, st, note).state; id in r.items && !r.items[id].final
    ensures Adds(labels, st, Apply(labels, st, note).state, Told(note), id)
  {
    hide ItemText, CompleteItems, CompleteItem, StartItem, TextDelta, FieldDelta, Adds;
    match note
    case ItemStarted(turn, i, item) => StartAdds(labels, st, turn, i, item, id);
    case AgentDelta(turn, i, delta) => TextAdds(labels, st, turn, i, delta, false, id);
    case PlanDelta(turn, i, delta) => TextAdds(labels, st, turn, i, delta, true, id);
    case ActivityDelta(turn, i, field, delta) => FieldAdds(labels, st, turn, i, field, delta, id);
    case ItemCompleted(turn, i, item) => CompletionAdds(labels, st, turn, i, item, id);
    case TurnEnds(turn) =>
      CompletionsKeepOrFinish(labels, st, turn.id, turn.items, id);
      Untouched(labels, st, Apply(labels, st, note).state, Told(note), id);
    case _ => Untouched(labels, st, Apply(labels, st, note).state, Told(note), id);
  }

  lemma Untouched(labels: Labels, before: ActorState, after: ActorState, move: Move, id: string)
    requires id in before.items && id in after.items && after.items[id] == before.items[id] && !before.items[id].final
    requires !Begins(move, id) && TextOf(move, id) == [] && forall field :: OutputOf(move, id, field) == []
    ensures Adds(labels, before, after, move, id)
  {
  }

  lemma StartAdds(labels: Labels, st: ActorState, turn: string, i: string, item: Raw, id: string)
    requires Ordered(st)
    requires var r := StartItem(labels, st, turn, i, item).state; id in r.items && !r.items[id].final
    ensures Adds(labels, st, StartItem(labels, st, turn, i, item).state, Told(ItemStarted(turn, i, item)), id)
  {
    hide ItemText, LastChars;
  }

  lemma TextAdds(labels: Labels, st: ActorState, turn: string, i: string, delta: string, plan: bool, id: string)
    requires Ordered(st)
    requires var r := TextDelta(st, turn, i, delta, plan).state; id in r.items && !r.items[id].final
    ensures Adds(labels, st, TextDelta(st, turn, i, delta, plan).state,
      Told(if plan then PlanDelta(turn, i, delta) else AgentDelta(turn, i, delta)), id)
  {
    hide ItemText, LastChars;
  }

  lemma FieldAdds(labels: Labels, st: ActorState, turn: string, i: string, field: DetailField, delta: string, id: string)
    requires Ordered(st)
    requires var r := FieldDelta(st, turn, i, field, delta).state; id in r.items && !r.items[id].final
    ensures Adds(labels, st, FieldDelta(st, turn, i, field, delta).state, Told(ActivityDelta(turn, i, field, delta)), id)
  {
    hide ItemText, LastChars;
    assert CommandOutput.Name() != ChangeOutput.Name();
  }

  lemma CompletionAdds(labels: Labels, st: ActorState, turn: string, i: string, item: Raw, id: string)
    requires Ordered(st)
    requires var r := CompleteItem(labels, st, turn, i, item).state; id in r.items && !r.items[id].final
    ensures Adds(labels, st, CompleteItem(labels, st, turn, i, item).state, Told(ItemCompleted(turn, i, item)), id)
  {
    hide ItemText, LastChars;
  }

  lemma StepAdds(labels: Labels, st: ActorState, move: Move, id: string)
    requires Ordered(st)
    requires var r := Step(labels, st, move); id in r.items && !r.items[id].final
    ensures Adds(labels, st, Step(labels, st, move), move, id)
  {
    hide Apply, HydrateItems;
    match move
    case Told(note) => NoteAdds(labels, st, note, id);
    case Recovered(_, turns) => RecoveryKeepsOrFinishes(labels, st, turns, id);
  }

  // ---------------------------------------------------------------- whole runs

  lemma ArrivedSnoc(labels: Labels, before: ActorState, after: ActorState, moves: seq<Move>, move: Move, id: string, o: Origin)
    requires id in before.items && id in after.items && Arrived(before.items[id], moves, id, o)
    requires Adds(labels, before, after, move, id) && !Begins(move, id)
    ensures Arrived(after.items[id], moves + [move], id, o)
  {
    hide LastChars, Detail, Streamed, Adds, Chunks, Parts;
    var since := moves[o.from..];
    assert (moves + [move])[o.from..] == since + [move];
    TextSnoc(labels, before, after, since, move, id, o.text);
    forall field: DetailField ensures
      Field(after.items[id].raw, field.Name()) == Detail(Field(o.raw, field.Name()), Parts(since + [move], id, field))
    {
      FieldSnoc(labels, before, after, since, move, id, field, Field(o.raw, field.Name()));
    }
  }

  lemma TextSnoc(labels: Labels, before: ActorState, after: ActorState, since: seq<Move>, move: Move, id: string, base: string)
    requires id in before.items && id in after.items && before.items[id].text == Streamed(base, Chunks(since, id))
    requires Adds(labels, before, after, move, id) && !Begins(move, id)
    ensures after.items[id].text == Streamed(base, Chunks(since + [move], id))
  {
    hide LastChars, Streamed;
    assert (since + [move])[..|since|] == since;
    var c, chunks := TextOf(move, id), Chunks(since, id);
    assert Chunks(since + [move], id) == chunks + c;
    hide Chunks;
    if c != [] {
      assert c == [c[0]];
      StreamedSnoc(base, chunks, c[0]);
    } else {
      assert chunks + c == chunks;
    }
  }

  lemma FieldSnoc(labels: Labels, before: ActorState, after: ActorState, since: seq<Move>, move: Move, id: string,
                  field: DetailField, base: string)
    requires id in before.items && id in after.items
    requires Field(before.items[id].raw, field.Name()) == Detail(base, Parts(since, id, field))
    requires Adds(labels, before, after, move, id) && !Begins(move, id)
    ensures Field(after.items[id].raw, field.Name()) == Detail(base, Parts(since + [move], id, field))
  {
    hide LastChars, Detail;
    assert (since + [move])[..|since|] == since;
    var part, parts := OutputOf(move, id, field), Parts(since, id, field);
    assert Parts(since + [move], id, field) == parts + part;
    hide Parts;
    if part != [] {
      assert part == [part[0]];
      DetailSnoc(base, parts, part[0]);
    } else {
      assert parts + part == parts;
    }
  }

  lemma BeganSnoc(labels: Labels, moves: seq<Move>, move: Move, id: string, k: int, o: Origin)
    requires Began(labels, moves, id, k, o) && !Begins(move, id)
    ensures Began(labels, moves + [move], id, k, o)
  {
    assert (moves + [move])[..k] == moves[..k];
  }

  lemma BeginsNow(labels: Labels, before: ActorState, after: ActorState, moves: seq<Move>, move: Move, id: string) returns (o: Origin)
    requires before == Run(labels, EMPTY, moves) && id in after.items && Adds(labels, before, after, move, id)
    requires Begins(move, id) || id !in before.items
    ensures Began(labels, moves + [move], id, |moves|, o) && Arrived(after.items[id], moves + [move], id, o)
  {
    if Begins(move, id) {
      o := StartsNow(labels, before, after, moves, move, id);
    } else {
      o := IsHeardOf(labels, before, after, moves, move, id);
    }
  }

  lemma StartsNow(labels: Labels, before: ActorState, after: ActorState, moves: seq<Move>, move: Move, id: string) returns (o: Origin)
    requires id in after.items && Adds(labels, before, after, move, id) && Begins(move, id)
    ensures Began(labels, moves + [move], id, |moves|, o) && Arrived(after.items[id], moves + [move], id, o)
  {
    hide ItemText, LastChars, Run, Streamed;
    var all := moves + [move];
    assert all[|moves|] == move && all[|all|..] == [];
    o := Origin(ItemText(labels, move.note.item, false), move.note.item, |moves| + 1);
    StreamedNothing(o.text);
    assert Chunks([], id) == [] && forall field :: Parts([], id, field) == [];
  }

  lemma IsHeardOf(labels: Labels, before: ActorState, after: ActorState, moves: seq<Move>, move: Move, id: string) returns (o: Origin)
    requires before == Run(labels, EMPTY, moves) && id in after.items && Adds(labels, before, after, move, id)
    requires !Begins(move, id) && id !in before.items
    ensures Began(labels, moves + [move], id, |moves|, o) && Arrived(after.items[id], moves + [move], id, o)
  {
    hide ItemText, LastChars, Run, Streamed;
    var all := moves + [move];
    assert all[..|moves|] == moves && all[|moves|] == move && all[|moves|..] == [move];
    var c := TextOf(move, id)[0];
    o := Origin(if c.agent then "" else HEADING + "\n", map[], |moves|);
    OnlyChunk(move, id);
    StreamedNothing(o.text);
    StreamedSnoc(o.text, [], c);
    assert [] + [c] == [c];
    assert o.text != HEADING;
    hide Chunks, Parts;
  }

  lemma StreamedNothing(base: string)
    ensures Streamed(base, []) == base
  {
    assert base + "" == base;
  }

  lemma OnlyChunk(move: Move, id: string)
    requires TextOf(move, id) != []
    ensures Chunks([move], id) == [TextOf(move, id)[0]] && forall field :: Parts([move], id, field) == []
  {
    assert [move][..0] == [];
  }

  /**
   * Over any run, an item that is not final reads as it began, followed by its deltas in the
   * order they arrived; so do the last characters of its output fields.
   */
  lemma {:induction false} RunStreams(labels: Labels, moves: seq<Move>, id: string) returns (k: int, o: Origin)
    requires var st := Run(labels, EMPTY, moves); id in st.items && !st.items[id].final
    ensures Began(labels, moves, id, k, o) && Arrived(Run(labels, EMPTY, moves).items[id], moves, id, o)
  {
    var front, last := moves[..|moves| - 1], moves[|moves| - 1];
    var before, after := Run(labels, EMPTY, front), Run(labels, EMPTY, moves);
    assert moves == front + [last];
    RunOrdered(labels, front);
    StepAdds(labels, before, last, id);
    hide Step, Began, Arrived;
    if Begins(last, id) || id !in before.items {
      o := BeginsNow(labels, before, after, front, last, id);
      k := |front|;
    } else {
      assert !before.items[id].final;
      k, o := RunStreams(labels, front, id);
      BeganSnoc(labels, front, last, id, k, o);
      ArrivedSnoc(labels, before, after, front, last, id, o);
    }
  }

  /** The quirk of the heading: an agent message that reads exactly so far gets a line break it was not sent. */
  lemma HeadingGetsABreak(labels: Labels)
    ensures var moves := [Told(AgentDelta("t", "a", "Updated Plan")), Told(AgentDelta("t", "a", "!"))];
      Streamed("", Chunks(moves, "a")) == "Updated Plan\n!"
  {
    var x, y := Chunk("Updated Plan", true), Chunk("!", true);
    var a, b := Told(AgentDelta("t", "a", "Updated Plan")), Told(AgentDelta("t", "a", "!"));
    assert [a, b][..1] == [a] && [a][..0] == [];
    assert Chunks([a], "a") == [x] && Chunks([a, b], "a") == [x] + [y];
    StreamedSnoc("", [], x);
    StreamedSnoc("", [x], y);
    assert [] + [x] == [x] && Streamed("", []) == "";
    assert "" + "Updated Plan" == HEADING;
    assert HEADING + "\n" + "!" == "Updated Plan\n!";
  }

  // ---------------------------------------------------------------- turns and lifecycle of a run

  /** The last turn of a snapshot that is under way. */
  ghost predicate UnderWay(turns: seq<Turn>, turn: string) {
    exists i :: 0 <= i < |turns| && turns[i].id == turn && turns[i].status in {"inProgress", "in_progress", "active"}
      && forall j :: i < j < |turns| ==> turns[j].status !in {"inProgress", "in_progress", "active"}
  }

  lemma {:induction false} LastActiveExactly(turns: seq<Turn>, turn: string)
    ensures LastActive(turns) == Some(turn) <==> UnderWay(turns, turn)
  {
    if turns != [] {
      var front := turns[..|turns| - 1];
      LastActiveExactly(front, turn);
      if IsActive(turns[|turns| - 1].status) {
        assert turns[|turns| - 1].id == turn ==> UnderWay(turns, turn);
      } else if i :| 0 <= i < |front| && front[i].id == turn && IsActive(front[i].status)
                     && forall j :: i < j < |front| ==> !IsActive(front[j].status) {
        assert turns[i] == front[i] && UnderWay(turns, turn);
      }
    }
  }

  /** The move makes the turn the active one. */
  ghost predicate Activates(move: Move, turn: string) {
    match move
    case Told(note) => note.TurnBegins? && note.begun.id == turn
    case Recovered(_, turns) => turn != "" && UnderWay(turns, turn)
  }

  /** The move ends what is active when that is the turn: its own end, or a recovery into rest. */
  ghost predicate Deactivates(move: Move, turn: string) {
    match move
    case Told(note) => note.TurnEnds? && note.ended.id == turn
    case Recovered(lifecycle, turns) => lifecycle != "running" && forall other :: other != "" ==> !UnderWay(turns, other)
  }

  ghost predicate ActiveFrom(moves: seq<Move>, turn: string, k: int) {
    && 0 <= k < |moves| && Activates(moves[k], turn)
    && forall j :: k < j < |moves| ==> !Deactivates(moves[j], turn) && forall other :: !Activates(moves[j], other)
  }

  lemma ActiveFromSnoc(moves: seq<Move>, turn: string)
    requires moves != []
    ensures var last := moves[|moves| - 1]; var front := moves[..|moves| - 1];
      (exists k :: ActiveFrom(moves, turn, k)) <==>
        Activates(last, turn)
        || ((exists k :: ActiveFrom(front, turn, k)) && !Deactivates(last, turn) && forall other :: !Activates(last, other))
  {
    hide Activates, Deactivates;
    var last, front := moves[|moves| - 1], moves[..|moves| - 1];
    if Activates(last, turn) {
      assert ActiveFrom(moves, turn, |moves| - 1);
    }
    if k :| ActiveFrom(front, turn, k) && !Deactivates(last, turn) && forall other :: !Activates(last, other) {
      assert ActiveFrom(moves, turn, k);
    }
    if k :| ActiveFrom(moves, turn, k) && k < |front| {
      assert ActiveFrom(front, turn, k);
    }
  }

  lemma {:induction false} CompletionsKeepTurn(labels: Labels, st: ActorState, turn: string, items: seq<(string, Raw)>)
    ensures CompleteItems(labels, st, turn, items).state.activeTurn == st.activeTurn
    ensures CompleteItems(labels, st, turn, items).state.lifecycle == st.lifecycle
  {
    hide ItemText;
    if items != [] {
      CompletionsKeepTurn(labels, st, turn, items[..|items| - 1]);
    }
  }

  lemma {:induction false} RecoveryKeepsTurn(labels: Labels, st: ActorState, turns: seq<Turn>)
    ensures HydrateItems(labels, st, turns).activeTurn == st.activeTurn
  {
    hide CompleteItems;
    if turns != [] {
      RecoveryKeepsTurn(labels, st, turns[..|turns| - 1]);
      CompletionsKeepTurn(labels, HydrateItems(labels, st, turns[..|turns| - 1]), turns[|turns| - 1].id, turns[|turns| - 1].items);
    }
  }

  lemma StepTurns(labels: Labels, st: ActorState, move: Move, turn: string)
    ensures Step(labels, st, move).activeTurn == Some(turn) <==>
      Activates(move, turn)
      || (st.activeTurn == Some(turn) && !Deactivates(move, turn) && forall other :: !Activates(move, other))
  {
    hide ItemText, CompleteItems, HydrateItems;
    match move
    case Told(note) =>
      if note.TurnEnds? {
        CompletionsKeepTurn(labels, st, note.ended.id, note.ended.items);
      } else if note.TurnBegins? {
        assert Activates(move, note.begun.id);
      }
    case Recovered(lifecycle, turns) =>
      RecoveryKeepsTurn(labels, st, turns);
      forall other ensures LastActive(turns) == Some(other) <==> UnderWay(turns, other) {
        LastActiveExactly(turns, other);
      }
      hide UnderWay, LastActive;
      if LastActive(turns).Some? && LastActive(turns).value != "" {
        assert Activates(move, LastActive(turns).value);
      }
  }

  /** Over any run the active turn is the one last begun, or found under way by a recovery, and not ended since. */
  lemma {:induction false} ActiveTurnExactly(labels: Labels, moves: seq<Move>, turn: string)
    ensures Run(labels, EMPTY, moves).activeTurn == Some(turn) <==> exists k :: ActiveFrom(moves, turn, k)
  {
    hide Step, Activates, Deactivates;
    if moves != [] {
      var front := moves[..|moves| - 1];
      ActiveTurnExactly(labels, front, turn);
      StepTurns(labels, Run(labels, EMPTY, front), moves[|moves| - 1], turn);
      ActiveFromSnoc(moves, turn);
    }
  }

  /** What a move makes of the lifecycle, if anything. */
  ghost predicate LeavesAt(move: Move, before: string, after: string) {
    match move
    case Told(TurnBegins(_)) => after == "running"
    case Told(TurnEnds(turn)) => after == if turn.status in {"", "completed"} then "idle" else turn.status
    case Told(StatusChanged(status)) => after == status
    case Told(_) => after == before
    case Recovered(lifecycle, turns) =>
      after == if exists turn :: turn != "" && UnderWay(turns, turn) then "running" else lifecycle
  }

  /** A session runs from the beginning of a turn, or its recovery with one under way, and rests when the turn completes. */
  lemma LifecycleExactly(labels: Labels, st: ActorState, move: Move)
    ensures LeavesAt(move, st.lifecycle, Step(labels, st, move).lifecycle)
  {
    hide ItemText, CompleteItems, HydrateItems, UnderWay, LastActive;
    match move
    case Told(note) =>
      if note.TurnEnds? {
        CompletionsKeepTurn(labels, st, note.ended.id, note.ended.items);
      }
    case Recovered(lifecycle, turns) =>
      forall turn ensures LastActive(turns) == Some(turn) <==> UnderWay(turns, turn) {
        LastActiveExactly(turns, turn);
      }
      if LastActive(turns).Some? {
        assert UnderWay(turns, LastActive(turns).value);
      }
  }

  // ---------------------------------------------------------------- a completion repeats what was streamed

  /** An agent message completed with the text streamed reads as before, unless the stream broke its heading. */
  lemma MessageRepeatsStream(labels: Labels, item: Raw, chunks: seq<Chunk>)
    requires Field(item, "type") == "agentMessage" && Field(item, "text") == Joined(chunks) != ""
    ensures ItemText(labels, item, true) == Streamed("", chunks) <==> !Breaks("", chunks)
  {
    var whole := "" + Joined(chunks);
    assert whole == Joined(chunks) && ItemText(labels, item, true) == whole;
    if Breaks("", chunks) {
      BreakIsInside("", chunks);
      assert |HEADING + "\n" + whole[|HEADING|..]| == |whole| + 1;
    }
  }

  /** So does a plan completed with the text streamed under its heading. */
  lemma PlanRepeatsStream(labels: Labels, item: Raw, chunks: seq<Chunk>)
    requires Field(item, "type") == "plan" && Strip(Field(item, "text")) == Joined(chunks) != ""
    ensures ItemText(labels, item, true) == Streamed("Updated Plan\n", chunks)
  {
    hide Strip;
    assert forall j :: 0 <= j < |chunks| ==> |"Updated Plan\n" + Joined(chunks[..j])| > |HEADING|;
    assert !Breaks("Updated Plan\n", chunks);
  }

  // ---------------------------------------------------------------- what the events tell

  /** One event, of this kind and about this item. */
  predicate TellsOne(events: seq<ActorEvent>, kind: EventKind, turn: string, id: string) {
    |events| == 1 && events[0].kind == kind && events[0].turn == Some(turn) && events[0].item == Some(id)
  }

  /** A delta is told unless its item is final, with the length of what it added and of what there is now. */
  lemma DeltasAreTold(labels: Labels, st: ActorState, note: Note)
    requires Ordered(st) && (note.AgentDelta? || note.PlanDelta?)
    ensures var r := Apply(labels, st, note);
      if note.id in st.items && st.items[note.id].final then r.events == []
      else
        && TellsOne(r.events, Delta, note.turn, note.id)
        && r.events[0].deltaChars == |note.delta| && r.events[0].textLength == |r.state.items[note.id].text|
        && r.events[0].revision == r.state.items[note.id].revision
        && r.events[0].revision == (if note.id in st.items then st.items[note.id].revision else 0) + 1
  {
  }

  lemma OutputIsTold(labels: Labels, st: ActorState, note: Note)
    requires Ordered(st) && note.ActivityDelta?
    ensures var r := Apply(labels, st, note);
      if note.id !in st.items || st.items[note.id].final then r.events == [] && r.state == st
      else
        && TellsOne(r.events, Delta, note.turn, note.id) && r.events[0].deltaChars == |note.delta|
        && r.events[0].textLength == |Field(r.state.items[note.id].raw, note.field.Name())|
        && r.events[0].revision == r.state.items[note.id].revision == st.items[note.id].revision + 1
  {
    hide LastChars;
  }

  /** A start is always told; a completion exactly if it changed the item, with its new revision. */
  lemma ItemsAreTold(labels: Labels, st: ActorState, note: Note)
    requires Ordered(st) && (note.ItemStarted? || note.ItemCompleted?)
    ensures var r := Apply(labels, st, note);
      && note.id in r.state.items
      && (note.ItemStarted? ==> TellsOne(r.events, Started, note.turn, note.id))
      && (note.ItemCompleted? && note.id !in st.items ==> r.events != [])
      && (note.ItemCompleted? && note.id in st.items && (!st.items[note.id].final || st.items[note.id].raw != note.item) ==> r.events != [])
      && (note.ItemCompleted? && r.events == [] ==>
            && note.id in st.items && r.state.items[note.id].text == st.items[note.id].text
            && r.state.items[note.id].raw == st.items[note.id].raw && r.state.items[note.id].final)
      && (note.ItemCompleted? && r.events != [] ==>
            && TellsOne(r.events, Final, note.turn, note.id)
            && r.events[0].revision == r.state.items[note.id].revision
            && r.events[0].revision == (if note.id in st.items then st.items[note.id].revision else 0) + 1)
  {
    hide ItemText;
  }

  lemma {:induction false} CompletionsTell(labels: Labels, st: ActorState, turn: string, items: seq<(string, Raw)>)
    ensures forall e :: e in CompleteItems(labels, st, turn, items).events ==> e.kind == Final && e.turn == Some(turn)
  {
    hide ItemText;
    if items != [] {
      CompletionsTell(labels, st, turn, items[..|items| - 1]);
    }
  }

  /** A turn's beginning and end are told once each, the end after the items it completes. */
  lemma TurnsAreTold(labels: Labels, st: ActorState, note: Note)
    requires note.TurnBegins? || note.TurnEnds?
    ensures var events := Apply(labels, st, note).events; var turn := if note.TurnBegins? then note.begun.id else note.ended.id;
      && events != [] && events[|events| - 1].turn == Some(turn) && events[|events| - 1].item == None
      && events[|events| - 1].kind == (if note.TurnBegins? then TurnStarted else TurnCompleted)
      && (note.TurnBegins? ==> |events| == 1)
      && forall i :: 0 <= i < |events| - 1 ==> events[i].kind == Final && events[i].turn == Some(turn)
  {
    if note.TurnEnds? {
      CompletionsTell(labels, st, note.ended.id, note.ended.items);
    }
    hide CompleteItems;
  }
}
