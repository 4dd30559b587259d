// The session actor's own message blocks, and their agreement with the history segments.
module ActorSegments {
  import opened Common
  import opened Numerals
  import opened Actor
  import opened HistoryMerge
  import opened HistorySegments

  function KindOf(raw: Raw): Kind {
    var kind := Field(raw, "type");
    if kind == "userMessage" then User
    else if kind == "agentMessage" then Output
    else if kind in {"plan", "todoList"} then Plan
    else Process
  }

  /** The text an item gives by itself. */
  function RawText(labels: Labels, raw: Raw, final: bool): string {
    if KindOf(raw) == User then Field(raw, "content")
    else if KindOf(raw) == Output then AgentText(raw)
    else ProcessText(labels, raw, final)
  }

  /** The text of a block: a projected user message is read from its item, anything else from the projection. */
  function BlockText(labels: Labels, p: Projection): string {
    if IsQuestion(p) then RawText(labels, p.raw, p.final) else p.text
  }

  /** The public activity of a process item. */
  type Activities = (Raw, bool) -> Option<Activity>

  predicate Shown(labels: Labels, p: Projection) {
    p.id != "" && p.turn != "" && Strip(BlockText(labels, p)) != ""
  }

  function MakeBlock(labels: Labels, activities: Activities, p: Projection, segment: Key): Option<Block> {
    if !Shown(labels, p) then None
    else
      var text, kind := Strip(BlockText(labels, p)), KindOf(p.raw);
      Some(Block(p.id, p.turn, kind, text,
                 if kind == User then QuestionKey(p.id) else if segment == NoKey then TurnKey(p.turn) else segment,
                 p.final, if kind == Process then activities(p.raw, p.final) else None, text))
  }

  predicate IsQuestion(p: Projection) {
    p.kind == "userMessage"
  }

  /** The projections in item order. */
  function Items(st: ActorState): (r: seq<Projection>)
    requires forall id :: id in st.order ==> id in st.items
    ensures |r| == |st.order| && forall i :: 0 <= i < |r| ==> r[i] == st.items[st.order[i]]
  {
    seq(|st.order|, i requires 0 <= i < |st.order| => assert st.order[i] in st.order; st.items[st.order[i]])
  }

  function FirstAsked(items: seq<Projection>, turn: string): Key {
    if items == [] then NoKey
    else
      var front, last := FirstAsked(items[..|items| - 1], turn), items[|items| - 1];
      if front != NoKey then front else if IsQuestion(last) && last.turn == turn then QuestionKey(last.id) else NoKey
  }

  /** The segment key the actor has at item i: the last question, from the turn's first one on. */
  function SegmentAt(items: seq<Projection>, i: nat): Key
    requires i < |items|
  {
    if IsQuestion(items[i]) then QuestionKey(items[i].id)
    else if i > 0 && items[i - 1].turn == items[i].turn then SegmentAt(items, i - 1)
    else FirstAsked(items, items[i].turn)
  }

  /** The blocks of the first n items; items without text are dropped. */
  function Blocks(labels: Labels, activities: Activities, items: seq<Projection>, n: nat): seq<Block>
    requires n <= |items|
  {
    if n == 0 then []
    else
      var b := MakeBlock(labels, activities, items[n - 1], SegmentAt(items, n - 1));
      if b.None? then Blocks(labels, activities, items, n - 1) else Blocks(labels, activities, items, n - 1) + [b.value]
  }

  /** The loop that walks the items and carries the current turn and segment along. */
  method MessageBlocks(labels: Labels, activities: Activities, items: seq<Projection>) returns (blocks: seq<Block>)
    requires forall p :: p in items ==> p.turn != ""
    ensures blocks == Blocks(labels, activities, items, |items|)
  {
    var first: map<string, Key> := map[];
    for n := 0 to |items|
      invariant forall turn :: FirstAsked(items[..n], turn) == if turn in first then first[turn] else NoKey
      invariant forall turn :: turn in first ==> first[turn] != NoKey
    {
      assert items[..n + 1][..n] == items[..n] && items[..n + 1][n] == items[n];
      if IsQuestion(items[n]) && items[n].turn !in first {
        first := first[items[n].turn := QuestionKey(items[n].id)];
      }
    }
    assert items[..|items|] == items;
    blocks := [];
    var currentTurn, current := "", NoKey;
    for n := 0 to |items|
      invariant blocks == Blocks(labels, activities, items, n)
      invariant if n == 0 then currentTurn == "" else currentTurn == items[n - 1].turn && current == SegmentAt(items, n - 1)
    {
      var p := items[n];
      assert p in items;
      if p.turn != currentTurn {
        currentTurn := p.turn;
        current := if p.turn in first then first[p.turn] else NoKey;
      }
      if IsQuestion(p) {
        current := QuestionKey(p.id);
      }
      var b := MakeBlock(labels, activities, p, current);
      if b.Some? {
        blocks := blocks + [b.value];
      }
    }
  }

  // ---------------------------------------------------------------- agreement

  ghost predicate NoQuestions(items: seq<Projection>, turn: string) {
    forall p :: p in items && p.turn == turn ==> !IsQuestion(p)
  }

  /** The turn shows both a user message and something else, and no item of it is projected as a question. */
  ghost predicate Mixed(labels: Labels, items: seq<Projection>, turn: string) {
    && NoQuestions(items, turn)
    && (exists p :: p in items && p.turn == turn && Shown(labels, p) && KindOf(p.raw) == User)
    && (exists p :: p in items && p.turn == turn && Shown(labels, p) && KindOf(p.raw) != User)
  }

  lemma {:induction false} FirstAskedNone(items: seq<Projection>, turn: string)
    ensures FirstAsked(items, turn) == NoKey <==> NoQuestions(items, turn)
    ensures FirstAsked(items, turn) == NoKey || FirstAsked(items, turn).QuestionKey?
  {
    if items != [] {
      var front := items[..|items| - 1];
      FirstAskedNone(front, turn);
      assert items == front + [items[|items| - 1]];
    }
  }

  lemma {:induction false} SegmentAtNone(items: seq<Projection>, i: nat)
    requires i < |items|
    ensures SegmentAt(items, i) == NoKey <==> NoQuestions(items, items[i].turn)
    ensures SegmentAt(items, i) == NoKey || SegmentAt(items, i).QuestionKey?
  {
    FirstAskedNone(items, items[i].turn);
    assert items[i] in items;
    if i > 0 {
      SegmentAtNone(items, i - 1);
    }
  }

  /** A block carries its turn as segment exactly when it is no user message and its turn has no questions. */
  ghost predicate BlockFits(items: seq<Projection>, b: Block) {
    && (b.segment.QuestionKey? || b.segment == TurnKey(b.turn))
    && (b.segment == TurnKey(b.turn) <==> b.kind != User && NoQuestions(items, b.turn))
    && b.id != "" && b.turn != "" && Trimmed(b.text) && b.text != ""
  }

  lemma {:induction false} BlocksFit(labels: Labels, activities: Activities, items: seq<Projection>, n: nat)
    requires n <= |items|
    ensures forall b :: b in Blocks(labels, activities, items, n) ==> BlockFits(items, b)
  {
    hide BlockText;
    if n > 0 {
      BlocksFit(labels, activities, items, n - 1);
      SegmentAtNone(items, n - 1);
      StripTrims(BlockText(labels, items[n - 1]));
    }
  }

  /** The turn and kind of a block are those of a shown item, and each shown item has one. */
  ghost predicate HasBlock(blocks: seq<Block>, turn: string, user: bool) {
    exists b :: b in blocks && b.turn == turn && (b.kind == User <==> user)
  }

  ghost predicate ShowsItem(labels: Labels, items: seq<Projection>, turn: string, user: bool) {
    exists p :: p in items && p.turn == turn && Shown(labels, p) && (KindOf(p.raw) == User <==> user)
  }

  lemma {:induction false} BlocksShow(labels: Labels, activities: Activities, items: seq<Projection>, n: nat,
                                      turn: string, user: bool)
    requires n <= |items|
    ensures HasBlock(Blocks(labels, activities, items, n), turn, user) <==> ShowsItem(labels, items[..n], turn, user)
  {
    if n > 0 {
      var front, last := items[..n - 1], items[n - 1];
      assert items[..n] == front + [last];
      BlocksShow(labels, activities, items, n - 1, turn, user);
      hide Shown, KindOf;
      var blocks, before := Blocks(labels, activities, items, n), Blocks(labels, activities, items, n - 1);
      var b := MakeBlock(labels, activities, last, SegmentAt(items, n - 1));
      LastShows(labels, activities, last, SegmentAt(items, n - 1));
      assert blocks == if b.None? then before else before + [b.value];
      if Shown(labels, last) && last.turn == turn && (KindOf(last.raw) == User <==> user) {
        assert b.value in blocks && last in items[..n];
      }
    }
  }

  lemma LastShows(labels: Labels, activities: Activities, p: Projection, segment: Key)
    ensures var b := MakeBlock(labels, activities, p, segment);
      (b.Some? <==> Shown(labels, p)) && (b.Some? ==> b.value.id == p.id && b.value.turn == p.turn && b.value.kind == KindOf(p.raw))
  {
  }

  lemma {:induction false} OpeningShape(blocks: seq<Block>, turn: string)
    requires forall b :: b in blocks && b.kind == User ==> b.segment.QuestionKey?
    ensures FirstQuestion(blocks, turn).Some? <==> HasBlock(blocks, turn, true)
    ensures FirstQuestion(blocks, turn).Some? ==> FirstQuestion(blocks, turn).value.QuestionKey?
  {
    if blocks != [] {
      var front, last := blocks[..|blocks| - 1], blocks[|blocks| - 1];
      assert blocks == front + [last];
      OpeningShape(front, turn);
    }
  }

  /** A block filed under its turn is filed there again exactly when the turn shows no user message. */
  lemma {:induction false} TurnAgain(items: seq<Projection>, blocks: seq<Block>, j: nat)
    requires forall b :: b in blocks ==> BlockFits(items, b)
    requires j < |blocks| && blocks[j].segment == TurnKey(blocks[j].turn)
    ensures if HasBlock(blocks, blocks[j].turn, true) then Assigned(blocks, j).QuestionKey?
      else Assigned(blocks, j) == TurnKey(blocks[j].turn)
  {
    assert blocks[j] in blocks;
    OpeningShape(blocks, blocks[j].turn);
    if j > 0 && blocks[j - 1].turn == blocks[j].turn {
      assert blocks[j - 1] in blocks && BlockFits(items, blocks[j - 1]);
      if blocks[j - 1].kind != User {
        TurnAgain(items, blocks, j - 1);
      }
    }
  }

  lemma {:induction false} PublicAgain(items: seq<Projection>, blocks: seq<Block>)
    requires forall b :: b in blocks ==> BlockFits(items, b)
    ensures PublicBlocks(blocks) == blocks
  {
    if blocks != [] {
      var last := blocks[|blocks| - 1];
      assert last in blocks && blocks == blocks[..|blocks| - 1] + [last];
      PublicAgain(items, blocks[..|blocks| - 1]);
      StripTrims(last.text);
    }
  }

  /**
   * Segmenting the live actor's blocks again gives each block the segment key the actor gave
   * it, in any interleaving of turns and dropped items, exactly when no turn without a
   * projected question shows both a user message and something else.
   */
  lemma SegmentsAgree(labels: Labels, activities: Activities, items: seq<Projection>)
    ensures var blocks := Blocks(labels, activities, items, |items|);
      PublicBlocks(blocks) == blocks && (Rekeyed(blocks, |blocks|) == blocks <==> forall turn :: !Mixed(labels, items, turn))
  {
    var blocks := Blocks(labels, activities, items, |items|);
    BlocksFit(labels, activities, items, |items|);
    PublicAgain(items, blocks);
    hide Blocks, BlockFits, Mixed, PublicBlocks;
    if turn :| Mixed(labels, items, turn) {
      MixedDisagrees(labels, activities, items, turn);
    } else {
      forall j | 0 <= j < |blocks| ensures Assigned(blocks, j) == blocks[j].segment {
        UnmixedAgrees(labels, activities, items, j);
      }
    }
  }

  lemma MixedBlocks(labels: Labels, activities: Activities, items: seq<Projection>, turn: string)
    requires NoQuestions(items, turn)
    ensures var blocks := Blocks(labels, activities, items, |items|);
      Mixed(labels, items, turn) <==> HasBlock(blocks, turn, true) && HasBlock(blocks, turn, false)
  {
    assert items[..|items|] == items;
    BlocksShow(labels, activities, items, |items|, turn, true);
    BlocksShow(labels, activities, items, |items|, turn, false);
    hide Blocks, Shown, KindOf, HasBlock;
  }

  lemma MixedDisagrees(labels: Labels, activities: Activities, items: seq<Projection>, turn: string)
    requires Mixed(labels, items, turn)
    ensures var blocks := Blocks(labels, activities, items, |items|); Rekeyed(blocks, |blocks|) != blocks
  {
    var blocks := Blocks(labels, activities, items, |items|);
    BlocksFit(labels, activities, items, |items|);
    MixedBlocks(labels, activities, items, turn);
    assert NoQuestions(items, turn);
    hide Blocks, Shown, KindOf, Mixed, NoQuestions;
    var b :| b in blocks && b.turn == turn && b.kind != User;
    var j :| 0 <= j < |blocks| && blocks[j] == b;
    TurnAgain(items, blocks, j);
    assert Rekeyed(blocks, |blocks|)[j] != blocks[j];
  }

  lemma UnmixedAgrees(labels: Labels, activities: Activities, items: seq<Projection>, j: nat)
    requires forall turn :: !Mixed(labels, items, turn)
    requires j < |Blocks(labels, activities, items, |items|)|
    ensures var blocks := Blocks(labels, activities, items, |items|); Assigned(blocks, j) == blocks[j].segment
  {
    var blocks := Blocks(labels, activities, items, |items|);
    BlocksFit(labels, activities, items, |items|);
    hide Blocks, Shown, KindOf, NoQuestions;
    assert blocks[j] in blocks && BlockFits(items, blocks[j]);
    if !blocks[j].segment.QuestionKey? {
      MixedBlocks(labels, activities, items, blocks[j].turn);
      assert HasBlock(blocks, blocks[j].turn, false);
      TurnAgain(items, blocks, j);
    }
  }

  // ---------------------------------------------------------------- over runs

  ghost predicate Typed(st: ActorState) {
    forall id :: id in st.items && KindOf(st.items[id].raw) == User ==> IsQuestion(st.items[id])
  }

  /** The move does not restart an item of another kind as a user message. */
  predicate KeepsType(st: ActorState, move: Move) {
    move.Told? && move.note.ItemStarted? && KindOf(move.note.item) == User && move.note.id in st.items ==>
      IsQuestion(st.items[move.note.id])
  }

  lemma {:induction false} CompleteItemsTyped(labels: Labels, st: ActorState, turn: string, items: seq<(string, Raw)>)
    requires Ordered(st) && Typed(st)
    ensures Typed(CompleteItems(labels, st, turn, items).state)
  {
    hide ItemText;
    if items != [] {
      CompleteItemsTyped(labels, st, turn, items[..|items| - 1]);
      CompleteItemsOrdered(labels, st, turn, items[..|items| - 1]);
    }
  }

  lemma {:induction false} HydrateTyped(labels: Labels, st: ActorState, turns: seq<Turn>)
    requires Ordered(st) && Typed(st)
    ensures Typed(HydrateItems(labels, st, turns))
  {
    hide CompleteItems;
    if turns != [] {
      var front, last := turns[..|turns| - 1], turns[|turns| - 1];
      HydrateTyped(labels, st, front);
      HydrateOrdered(labels, st, front);
      CompleteItemsTyped(labels, HydrateItems(labels, st, front), last.id, last.items);
    }
  }

  /** Types stay in agreement exactly as long as no item is restarted as a user message. */
  lemma TypedExactly(labels: Labels, st: ActorState, move: Move)
    requires Ordered(st) && Typed(st)
    ensures Typed(Step(labels, st, move)) <==> KeepsType(st, move)
  {
    hide ItemText, CompleteItems, HydrateItems, Apply;
    match move
    case Recovered(_, turns) => HydrateTyped(labels, st, turns);
    case Told(note) => NoteTyped(labels, st, note);
  }

  lemma NoteTyped(labels: Labels, st: ActorState, note: Note)
    requires Ordered(st) && Typed(st)
    ensures Typed(Apply(labels, st, note).state) <==> KeepsType(st, Told(note))
  {
    hide ItemText, CompleteItems, LastChars, KindOf;
    match note
    case ItemStarted(turn, id, item) => StartTyped(labels, st, turn, id, item);
    case ActivityDelta(_, id, field, _) =>
      assert field.Name() != "type";
      assert id in st.items ==>
        Field(Apply(labels, st, note).state.items[id].raw, "type") == Field(st.items[id].raw, "type");
      TypeDecides();
    case ItemCompleted(turn, id, item) =>
      CompleteOneTyped(labels, st, turn, id, item);
    case TurnEnds(turn) => CompleteItemsTyped(labels, st, turn.id, turn.items);
    case AgentDelta(_, _, _) => TypeDecides();
    case PlanDelta(_, _, _) => TypeDecides();
    case _ =>
  }

  lemma StartTyped(labels: Labels, st: ActorState, turn: string, id: string, item: Raw)
    requires Ordered(st) && Typed(st)
    ensures Typed(StartItem(labels, st, turn, id, item).state) <==> KeepsType(st, Told(ItemStarted(turn, id, item)))
  {
    hide ItemText, KindOf;
    TypeDecides();
    assert id in StartItem(labels, st, turn, id, item).state.items;
  }

  lemma TypeDecides()
    ensures forall a: Raw, b: Raw :: Field(a, "type") == Field(b, "type") ==> KindOf(a) == KindOf(b)
    ensures KindOf(map[]) != User && forall raw: Raw :: KindOf(raw) == User <==> Field(raw, "type") == "userMessage"
  {
  }

  lemma CompleteOneTyped(labels: Labels, st: ActorState, turn: string, id: string, item: Raw)
    requires Ordered(st) && Typed(st)
    ensures Typed(CompleteItem(labels, st, turn, id, item).state)
  {
    hide ItemText;
  }

  /**
   * Over every run of notifications and recoveries the history shows the actor's own segments
   * exactly when no turn is mixed; a run that keeps types mixes none.
   */
  lemma {:induction false} RunSegmentsAgree(labels: Labels, activities: Activities, moves: seq<Move>)
    ensures Ordered(Run(labels, EMPTY, moves))
    ensures var items := Items(Run(labels, EMPTY, moves)); var blocks := Blocks(labels, activities, items, |items|);
      && PublicBlocks(blocks) == blocks
      && (Rekeyed(blocks, |blocks|) == blocks <==> forall turn :: !Mixed(labels, items, turn))
      && ((forall k :: 0 <= k < |moves| ==> KeepsType(Run(labels, EMPTY, moves[..k]), moves[k])) ==>
        Rekeyed(blocks, |blocks|) == blocks)
  {
    hide Step, Blocks, PublicBlocks, Run;
    RunOrdered(labels, moves);
    var st := Run(labels, EMPTY, moves);
    SegmentsAgree(labels, activities, Items(st));
    if forall k :: 0 <= k < |moves| ==> KeepsType(Run(labels, EMPTY, moves[..k]), moves[k]) {
      RunTyped(labels, moves);
      forall turn ensures !Mixed(labels, Items(st), turn) {
        TypedIsUnmixed(labels, st, turn);
      }
    }
  }

  lemma TypedIsUnmixed(labels: Labels, st: ActorState, turn: string)
    requires Ordered(st) && Typed(st)
    ensures !Mixed(labels, Items(st), turn)
  {
    var items := Items(st);
    forall p | p in items && KindOf(p.raw) == User ensures IsQuestion(p) {
      var i :| 0 <= i < |items| && items[i] == p;
      assert st.order[i] in st.order;
    }
  }

  lemma {:induction false} RunTyped(labels: Labels, moves: seq<Move>)
    requires forall k :: 0 <= k < |moves| ==> KeepsType(Run(labels, EMPTY, moves[..k]), moves[k])
    ensures Typed(Run(labels, EMPTY, moves))
  {
    hide Step;
    if moves != [] {
      var front := moves[..|moves| - 1];
      forall k | 0 <= k < |front| ensures KeepsType(Run(labels, EMPTY, front[..k]), front[k]) {
        assert front[..k] == moves[..k];
      }
      RunTyped(labels, front);
      RunOrdered(labels, front);
      TypedExactly(labels, Run(labels, EMPTY, front), moves[|moves| - 1]);
    }
  }

  /** Two items of a turn, one of them a user message that is not projected as one, disagree. */
  lemma UnprojectedQuestionDisagrees(labels: Labels, activities: Activities, items: seq<Projection>, p: Projection,
                                     q: Projection)
    requires items == [p, q] && p.turn == q.turn && !IsQuestion(p) && !IsQuestion(q)
    requires Shown(labels, p) && KindOf(p.raw) == User && Shown(labels, q) && KindOf(q.raw) != User
    ensures var blocks := Blocks(labels, activities, items, |items|); Rekeyed(blocks, |blocks|) != blocks
  {
    assert p in items && q in items;
    assert Mixed(labels, items, p.turn);
    SegmentsAgree(labels, activities, items);
  }

  lemma {:induction false} StripKeeps(s: string, i: nat)
    requires i < |s| && !IsSpace(s[i])
    ensures Strip(s) != ""
  {
    var left := LeftKeeps(s, i);
    RightKeeps(StripLeft(s), left);
  }

  lemma {:induction false} LeftKeeps(s: string, i: nat) returns (j: nat)
    requires i < |s| && !IsSpace(s[i])
    ensures j < |StripLeft(s)| && !IsSpace(StripLeft(s)[j])
  {
    j := i;
    if IsSpace(s[0]) {
      j := LeftKeeps(s[1..], i - 1);
    }
  }

  lemma {:induction false} RightKeeps(s: string, i: nat)
    requires i < |s| && !IsSpace(s[i])
    ensures StripRight(s) != ""
  {
    if IsSpace(s[|s| - 1]) {
      RightKeeps(s[..|s| - 1], i);
    }
  }

  /**
   * An item streamed first and then restarted as a user message: after this run the history
   * files the answer of the turn under another key than the actor did.
   */
  lemma RetypedItemDisagrees(labels: Labels, activities: Activities) returns (st: ActorState)
    ensures var user: Raw := map["type" := "userMessage"];
      var answer: Raw := map["type" := "agentMessage", "text" := "y"];
      st == Run(labels, EMPTY, [Told(AgentDelta("t", "q", "x")), Told(ItemStarted("t", "q", user)), Told(ItemCompleted("t", "a", answer))])
    ensures Ordered(st)
    ensures var items := Items(st); var blocks := Blocks(labels, activities, items, |items|);
      Rekeyed(blocks, |blocks|) != blocks
  {
    var user: Raw := map["type" := "userMessage"];
    var answer: Raw := map["type" := "agentMessage", "text" := "y"];
    var a, b, c := Told(AgentDelta("t", "q", "x")), Told(ItemStarted("t", "q", user)), Told(ItemCompleted("t", "a", answer));
    RunOrdered(labels, [a, b, c]);
    st := RetypingRun(labels, user, answer, a, b, c);
    var items := Items(st);
    var p, q := st.items["q"], st.items["a"];
    assert items == [p, q];
    assert p.text[0] == 'C' && q.text[0] == 'y';
    StripKeeps(p.text, 0);
    StripKeeps(q.text, 0);
    UnprojectedQuestionDisagrees(labels, activities, items, p, q);
  }

  lemma RetypingRun(labels: Labels, user: Raw, answer: Raw, a: Move, b: Move, c: Move) returns (st: ActorState)
    requires user == map["type" := "userMessage"] && answer == map["type" := "agentMessage", "text" := "y"]
    requires a == Told(AgentDelta("t", "q", "x")) && b == Told(ItemStarted("t", "q", user))
    requires c == Told(ItemCompleted("t", "a", answer))
    ensures st == Run(labels, EMPTY, [a, b, c]) && st.order == ["q", "a"] && st.items.Keys == {"q", "a"}
    ensures var p := st.items["q"];
      p.id == "q" && p.turn == "t" && p.kind == "agentMessage" && p.raw == user && "C" <= p.text
    ensures var q := st.items["a"];
      q.id == "a" && q.turn == "t" && q.kind == "agentMessage" && q.raw == answer && q.text == "y"
  {
    assert [a, b, c] == [a, b] + [c] && [a, b] == [a] + [b] && [a] == [] + [a];
    RunSnoc(labels, [a, b], c);
    RunSnoc(labels, [a], b);
    RunSnoc(labels, [], a);
    var streamed := Projection("q", "t", "agentMessage", "x", 1, false, map[]);
    assert Run(labels, EMPTY, []) == EMPTY;
    hide Run;
    var first, second := Run(labels, EMPTY, [a]), Run(labels, EMPTY, [a, b]);
    assert "" + "x" == "x";
    assert first.items == map["q" := streamed] && first.order == ["q"];
    var retyped := streamed.(raw := user, text := ItemText(labels, user, false));
    Restart(labels, first, streamed, user);
    assert second.items == map["q" := retyped] && second.order == ["q"];
    st := Run(labels, EMPTY, [a, b, c]);
    Answer(labels, second, retyped, answer);
    UserText(labels, user);
  }

  lemma UserText(labels: Labels, user: Raw)
    requires user == map["type" := "userMessage"]
    ensures "C" <= ItemText(labels, user, false)
  {
    assert ItemText(labels, user, false) == "Codex activity · " + labels(user, false);
  }

  lemma Restart(labels: Labels, st: ActorState, p: Projection, user: Raw)
    requires p.id == "q" && st.items == map["q" := p] && st.order == ["q"]
    ensures var after := Step(labels, st, Told(ItemStarted("t", "q", user)));
      after.items == map["q" := p.(raw := user, text := ItemText(labels, user, false))] && after.order == ["q"]
  {
    hide ItemText;
  }

  lemma Answer(labels: Labels, st: ActorState, p: Projection, answer: Raw)
    requires p.id == "q" && st.items == map["q" := p] && st.order == ["q"]
    requires answer == map["type" := "agentMessage", "text" := "y"]
    ensures var after := Step(labels, st, Told(ItemCompleted("t", "a", answer)));
      && after.order == ["q", "a"] && after.items.Keys == {"q", "a"} && after.items["q"] == p
      && after.items["a"].id == "a" && after.items["a"].turn == "t" && after.items["a"].kind == "agentMessage"
      && after.items["a"].raw == answer && after.items["a"].text == "y"
  {
    assert ItemText(labels, answer, true) == "y";
    hide ItemText;
  }

  // ---------------------------------------------------------------- distinct ids

  lemma {:induction false} BlocksDistinct(labels: Labels, activities: Activities, items: seq<Projection>, n: nat)
    requires n <= |items| && forall i, j :: 0 <= i < j < |items| ==> items[i].id != items[j].id
    ensures DistinctIds(Blocks(labels, activities, items, n))
    ensures forall b :: b in Blocks(labels, activities, items, n) ==> exists i :: 0 <= i < n && items[i].id == b.id
  {
    if n > 0 {
      BlocksDistinct(labels, activities, items, n - 1);
      LastShows(labels, activities, items[n - 1], SegmentAt(items, n - 1));
      hide MakeBlock, SegmentAt;
      forall b | b in Blocks(labels, activities, items, n - 1) ensures b.id != items[n - 1].id {
        var i :| 0 <= i < n - 1 && items[i].id == b.id;
      }
    }
  }

  /** The blocks of an actor as its history files them, before durable activity is merged in. */
  function Filing(labels: Labels, activities: Activities, st: ActorState): seq<Block>
    requires forall id :: id in st.order ==> id in st.items
  {
    var items := Items(st);
    var blocks := PublicBlocks(Blocks(labels, activities, items, |items|));
    Rekeyed(blocks, |blocks|)
  }

  /** The blocks of an actor keep distinct ids up to the merge. */
  lemma ActorIdsAreDistinct(labels: Labels, activities: Activities, st: ActorState)
    requires Ordered(st)
    ensures DistinctIds(Filing(labels, activities, st))
  {
    var items := Items(st);
    forall i, j | 0 <= i < j < |items| ensures items[i].id != items[j].id {
      assert st.order[i] in st.order && st.order[j] in st.order;
    }
    BlocksDistinct(labels, activities, items, |items|);
    PublicDistinctIds(Blocks(labels, activities, items, |items|));
  }

  /**
   * No history of an actor loses a message or unsettled activity, in every state a run can
   * reach, whatever durable activity is merged into it.
   */
  lemma ActorHistoryShows(labels: Labels, activities: Activities, st: ActorState, durable: seq<Durable>,
                          refs: map<Reference, Key>,
                          segments: seq<Segment>, b: Block)
    requires Ordered(st) && b in Filing(labels, activities, st) && (b.kind == Process ==> ProcessStatus(b) in UNSETTLED)
    requires Projects(segments, Filing(labels, activities, st), Placed(durable, refs, Filing(labels, activities, st)))
    ensures exists i :: 0 <= i < |segments| && segments[i].key == b.segment && b in segments[i].blocks
  {
    ActorIdsAreDistinct(labels, activities, st);
    var keyed := Filing(labels, activities, st);
    PlacedIsShown(durable, refs, keyed);
    hide Projects, Filing, ProcessStatus, DistinctIds;
    HistoryShows(segments, keyed, Placed(durable, refs, keyed), b);
  }

  /** The block says of the item who it is, what kind, its text and its state. */
  ghost predicate BlockOf(labels: Labels, activities: Activities, b: Block, p: Projection) {
    && b.id == p.id && b.turn == p.turn && b.kind == KindOf(p.raw) && b.text == Strip(BlockText(labels, p))
    && b.final == p.final && b.activity == if KindOf(p.raw) == Process then activities(p.raw, p.final) else None
  }

  lemma {:induction false} BlocksHave(labels: Labels, activities: Activities, items: seq<Projection>, n: nat, i: nat)
    requires i < n <= |items| && Shown(labels, items[i])
    ensures exists b :: b in Blocks(labels, activities, items, n) && BlockOf(labels, activities, b, items[i])
  {
    hide BlockText, KindOf;
    if i < n - 1 {
      BlocksHave(labels, activities, items, n - 1, i);
    } else {
      var b := MakeBlock(labels, activities, items[i], SegmentAt(items, i)).value;
      assert BlockOf(labels, activities, b, items[i]);
    }
  }

  /** A message, a plan, or activity that runs, waits, failed or was declined. */
  predicate MustShow(activities: Activities, p: Projection) {
    || Field(p.raw, "type") in {"userMessage", "agentMessage", "plan", "todoList"}
    || match activities(p.raw, p.final)
       case None => !p.final
       case Some(activity) => activity.status in {"running", "waiting", "failed", "declined"}
  }

  lemma MustShowMeans(labels: Labels, activities: Activities, b: Block, p: Projection)
    requires BlockOf(labels, activities, b, p) && MustShow(activities, p) && b.kind == Process
    ensures ProcessStatus(b) in UNSETTLED
  {
    hide BlockText;
  }

  /**
   * The history of an actor shows each of its messages and plans and all its unsettled activity,
   * if there is any text to show, whatever durable activity is merged into it.
   */
  lemma ItemsAreShown(labels: Labels, activities: Activities, st: ActorState, durable: seq<Durable>,
                      refs: map<Reference, Key>, segments: seq<Segment>, id: string)
    requires Ordered(st) && id in st.items && Shown(labels, st.items[id]) && MustShow(activities, st.items[id])
    requires Projects(segments, Filing(labels, activities, st), Placed(durable, refs, Filing(labels, activities, st)))
    ensures exists i, b :: 0 <= i < |segments| && b in segments[i].blocks && b.id == id && BlockOf(labels, activities, b, st.items[id])
  {
    hide Shown, MustShow, Projects, Placed, Filing, BlockOf;
    var c := FilingHas(labels, activities, st, id);
    if c.kind == Process {
      MustShowMeans(labels, activities, c, st.items[id]);
    }
    ActorHistoryShows(labels, activities, st, durable, refs, segments, c);
    assert c.id == id by { SameId(labels, activities, c, st.items[id]); }
  }

  lemma SameId(labels: Labels, activities: Activities, b: Block, p: Projection)
    requires BlockOf(labels, activities, b, p)
    ensures b.id == p.id
  {
  }

  lemma FilingHas(labels: Labels, activities: Activities, st: ActorState, id: string) returns (c: Block)
    requires Ordered(st) && id in st.items && Shown(labels, st.items[id])
    ensures c in Filing(labels, activities, st) && BlockOf(labels, activities, c, st.items[id])
  {
    var items, p := Items(st), st.items[id];
    var k :| 0 <= k < |st.order| && st.order[k] == id;
    hide Shown, BlockText, KindOf, Assigned;
    BlocksHave(labels, activities, items, |items|, k);
    SegmentsAgree(labels, activities, items);
    var blocks := Blocks(labels, activities, items, |items|);
    var b :| b in blocks && BlockOf(labels, activities, b, p);
    var j :| 0 <= j < |blocks| && blocks[j] == b;
    hide Blocks, PublicBlocks;
    c := Rekeyed(blocks, |blocks|)[j];
  }

  // ---------------------------------------------------------------- a history without an actor's blocks

  /** A recorded item of a thread snapshot, read by itself. */
  function RecordedItem(labels: Labels, turn: string, id: string, raw: Raw): Projection {
    Projection(id, turn, Field(raw, "type"), RawText(labels, raw, true), 0, true, raw)
  }

  function RecordedItems(labels: Labels, turn: Turn): seq<Projection> {
    RecordedFrom(labels, turn.id, turn.items)
  }

  /** The items that have an id; the others are never shown. */
  function RecordedFrom(labels: Labels, turn: string, items: seq<(string, Raw)>): seq<Projection> {
    if items == [] then []
    else (if items[0].0 == "" then [] else [RecordedItem(labels, turn, items[0].0, items[0].1)]) + RecordedFrom(labels, turn, items[1..])
  }

  /** The blocks of one turn of a thread snapshot, for an actor that shows nothing. */
  function TurnBlocks(labels: Labels, activities: Activities, turn: Turn): seq<Block> {
    var items := RecordedItems(labels, turn); Blocks(labels, activities, items, |items|)
  }

  /** Such a snapshot can list an item twice; then the record of a failed command is lost. */
  lemma SnapshotCanRepeatIds(labels: Labels, activities: Activities, failed: Raw, completed: Raw)
    requires Field(failed, "type") == Field(completed, "type") == "commandExecution"
    requires Strip(ProcessText(labels, failed, true)) != "" && Strip(ProcessText(labels, completed, true)) != ""
    requires activities(failed, true) == Some(Activity("command", "c", "failed"))
    requires activities(completed, true) == Some(Activity("command", "c", "completed"))
    ensures var blocks := TurnBlocks(labels, activities, Turn("t", "completed", [("i", failed), ("i", completed)]));
      && |blocks| == 2 && blocks[0].kind == Process && blocks[1].kind == Process && ProcessStatus(blocks[0]) == "failed"
      && MergedProcess([blocks[1]], blocks, [blocks[1]]) && blocks[0] !in [blocks[1]]
  {
    var turn := Turn("t", "completed", [("i", failed), ("i", completed)]);
    var first, second := RecordedItem(labels, "t", "i", failed), RecordedItem(labels, "t", "i", completed);
    var items := RecordedItems(labels, turn);
    assert items == [first, second] by {
      assert turn.items[1..] == [("i", completed)] && turn.items[1..][1..] == [];
      assert RecordedFrom(labels, "t", []) == [];
      assert RecordedFrom(labels, "t", [("i", completed)]) == [second];
    }
    assert Shown(labels, first) && Shown(labels, second);
    var a, b := MakeBlock(labels, activities, first, SegmentAt(items, 0)).value,
      MakeBlock(labels, activities, second, SegmentAt(items, 1)).value;
    assert Blocks(labels, activities, items, 0) == [] && Blocks(labels, activities, items, 1) == [a];
    assert Blocks(labels, activities, items, 2) == [a, b];
    DuplicateIdsLose(a, b);
  }
}
