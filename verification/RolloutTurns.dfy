// Which lines of a rollout belong to a turn, an item and a question, from the events alone.
module RolloutTurns {
  import opened Common
  import opened Numerals
  import opened RolloutEvents
  import opened Rollout
  import opened RolloutMeaning

  predicate TaskEvent(e: Option<Event>, kinds: set<string>) {
    e.Some? && e.value.payload.Some? && e.value.outer == "event_msg" && e.value.payload.value.kind in kinds
  }

  /** A turn with a name starts. */
  predicate Starts(e: Option<Event>, turn: string) {
    turn != "" && TaskEvent(e, {"task_started"}) && Strip(e.value.payload.value.turnId) == turn
  }

  /** A turn ends, by name or because whatever is active ends. */
  predicate Ends(e: Option<Event>, turn: string) {
    TaskEvent(e, {"task_complete", "turn_aborted"}) && Strip(e.value.payload.value.turnId) in {"", turn}
  }

  /** The turn started at line k, and since then it has not ended and no turn has started. */
  ghost predicate ActiveSince(ls: seq<Line>, turn: string, k: int) {
    && 0 <= k < |ls| && Starts(ls[k].event, turn)
    && forall j :: k < j < |ls| ==> !Ends(ls[j].event, turn) && forall other :: !Starts(ls[j].event, other)
  }

  ghost predicate IsActiveTurn(ls: seq<Line>, turn: string) {
    exists k :: ActiveSince(ls, turn, k)
  }

  lemma ActiveSinceSnoc(ls: seq<Line>, turn: string)
    requires ls != []
    ensures var e := ls[|ls| - 1].event;
      IsActiveTurn(ls, turn) <==>
        Starts(e, turn) || (IsActiveTurn(Front(ls), turn) && !Ends(e, turn) && forall other :: !Starts(e, other))
  {
    hide Starts, Ends;
    var e, front := ls[|ls| - 1].event, Front(ls);
    if Starts(e, turn) {
      assert ActiveSince(ls, turn, |ls| - 1);
    }
    if k :| ActiveSince(front, turn, k) && !Ends(e, turn) && forall other :: !Starts(e, other) {
      assert ActiveSince(ls, turn, k);
    }
    if k :| ActiveSince(ls, turn, k) && k < |front| {
      assert ActiveSince(front, turn, k);
    }
  }

  /** The active turn is the one last started, unless it has ended since. */
  lemma {:induction false} ActiveExactly(ls: seq<Line>, turn: string)
    requires turn != ""
    ensures ActiveAfter(ls) == turn <==> IsActiveTurn(ls, turn)
  {
    hide Strip;
    if ls != [] {
      ActiveExactly(Front(ls), turn);
      ActiveSinceSnoc(ls, turn);
      var e := ls[|ls| - 1].event;
      if TaskEvent(e, {"task_started"}) && Strip(e.value.payload.value.turnId) != "" {
        assert Starts(e, Strip(e.value.payload.value.turnId));
      }
    }
  }

  /** The last line opens a call with this id; it is the call's own id, else that of its item. */
  ghost predicate CallsOut(ls: seq<Line>, call: string)
    requires ls != []
  {
    && LastEvent(ls).Some? && IsCall(LastEvent(ls).value) && call != ""
    && Strip(Or(LastEvent(ls).value.payload.value.callId, LastEvent(ls).value.payload.value.id)) == call
    && exists turn :: CallTurn(ls, turn)
  }

  /** The turn a tool call names, else the active one. */
  ghost predicate CallTurn(ls: seq<Line>, turn: string)
    requires ls != [] && LastEvent(ls).Some? && LastEvent(ls).value.payload.Some?
  {
    var named := Strip(LastEvent(ls).value.payload.value.metadataTurnId);
    turn != "" && (named == turn || (named == "" && IsActiveTurn(ls, turn)))
  }

  /** The turn the last line belongs to: named by it, else the active one; for tool output, that of its call. */
  ghost predicate BelongsTo(ls: seq<Line>, turn: string)
    requires ls != []
  {
    turn != "" && LastEvent(ls).Some? &&
    var e := LastEvent(ls).value;
    if IsCall(e) then CallTurn(ls, turn)
    else if IsPatch(e) || IsWebSearch(e) then
      if e.payload.value.turnId != "" then Strip(e.payload.value.turnId) == turn else IsActiveTurn(ls, turn)
    else IsCallOutput(e) && exists k :: LatestCall(Front(ls), Strip(e.payload.value.callId), k) && CallTurn(ls[..k], turn)
  }

  lemma CallTurnExactly(ls: seq<Line>, turn: string)
    requires turn != "" && ls != [] && LastEvent(ls).Some? && IsCall(LastEvent(ls).value)
    ensures CallTurn(ls, turn) <==> ActivityTurn(LastEvent(ls).value, ActiveAfter(ls)) == turn
  {
    ActiveExactly(ls, turn);
    hide Strip, ActiveAfter;
  }

  lemma CallsOutExactly(ls: seq<Line>, call: string)
    requires ls != []
    ensures CallsOut(ls, call) <==> OpensCall(ls, call)
  {
    if LastEvent(ls).Some? && IsCall(LastEvent(ls).value) {
      forall turn | turn != "" ensures CallTurn(ls, turn) <==> ActivityTurn(LastEvent(ls).value, ActiveAfter(ls)) == turn {
        CallTurnExactly(ls, turn);
      }
      hide Strip, ActiveAfter, ActivityTurn;
      if OpensCall(ls, call) {
        assert CallTurn(ls, ActivityTurn(LastEvent(ls).value, ActiveAfter(ls)));
      }
    }
  }

  /** The first k lines end with the latest call of this id. */
  ghost predicate LatestCall(ls: seq<Line>, call: string, k: int) {
    0 < k <= |ls| && CallsOut(ls[..k], call) && forall j :: k < j <= |ls| ==> !CallsOut(ls[..j], call)
  }

  lemma LatestCallSnoc(ls: seq<Line>, call: string, k: int)
    requires ls != []
    ensures LatestCall(ls, call, k) <==>
      if CallsOut(ls, call) then k == |ls| else LatestCall(Front(ls), call, k)
  {
    hide CallsOut;
    var front := Front(ls);
    assert ls[..|ls|] == ls;
    assert forall j :: 0 <= j <= |front| ==> front[..j] == ls[..j];
  }

  lemma {:induction false} CallSiteExactly(ls: seq<Line>, call: string, k: int)
    ensures CallSite(ls, call) == Some(k) <==> LatestCall(ls, call, k)
  {
    if ls != [] {
      CallSiteExactly(Front(ls), call, k);
      CallsOutExactly(ls, call);
      LatestCallSnoc(ls, call, k);
      hide CallsOut, OpensCall, LatestCall;
    }
  }

  /** Each line is filed under exactly the turn it belongs to. */
  lemma FiledExactly(ls: seq<Line>, turn: string)
    requires ls != [] && turn != ""
    ensures FilingOf(ls).turn == turn <==> BelongsTo(ls, turn)
  {
    if LastEvent(ls).Some? {
      var e := LastEvent(ls).value;
      if IsCall(e) {
        CallTurnExactly(ls, turn);
      } else if IsPatch(e) || IsWebSearch(e) {
        ActiveExactly(ls, turn);
        ActiveIsTrimmed(ls);
        StripTrims(ActiveAfter(ls));
      } else if IsCallOutput(e) {
        OutputFiledExactly(ls, turn);
      }
    }
  }

  lemma OutputFiledExactly(ls: seq<Line>, turn: string)
    requires ls != [] && turn != "" && LastEvent(ls).Some? && IsCallOutput(LastEvent(ls).value)
    ensures FilingOf(ls).turn == turn <==> BelongsTo(ls, turn)
  {
    var call := Strip(LastEvent(ls).value.payload.value.callId);
    var front := Front(ls);
    assert forall j :: 0 <= j <= |front| ==> front[..j] == ls[..j];
    var site := CallSite(front, call);
    forall k ensures LatestCall(front, call, k) <==> site == Some(k) {
      CallSiteExactly(front, call, k);
      hide CallsOut, CallSite, LatestCall;
    }
    if site.Some? {
      CallTurnExactly(ls[..site.value], turn);
    }
    hide CallsOut, CallSite, Strip, ActiveAfter, ActivityTurn, CallTurn, LatestCall;
  }

  /** Line k belongs to the turn, and r is its record. */
  ghost predicate RecordOf(ls: seq<Line>, turn: string, r: Record, k: int) {
    && 0 <= k < |ls| && BelongsTo(ls[..k + 1], turn)
    && r == Record(ls[k].start, ls[k].end, FilingOf(ls[..k + 1]).question)
  }

  lemma RecordOfSnoc(ls: seq<Line>, turn: string, r: Record, k: int)
    requires ls != []
    ensures RecordOf(ls, turn, r, k) <==>
      if k == |ls| - 1 then BelongsTo(ls, turn) && r == Record(ls[k].start, ls[k].end, FilingOf(ls).question)
      else RecordOf(Front(ls), turn, r, k)
  {
    hide BelongsTo, FilingOf;
    assert ls[..|ls|] == ls;
    if 0 <= k < |ls| - 1 {
      assert Front(ls)[..k + 1] == ls[..k + 1];
    }
  }

  /** The records of a turn are those of exactly the lines that belong to it. */
  lemma {:induction false} FiledAreTheTurns(ls: seq<Line>, turn: string, r: Record)
    requires turn != ""
    ensures r in Filed(ls, turn) <==> exists k :: RecordOf(ls, turn, r, k)
  {
    if ls != [] {
      FiledAreTheTurns(Front(ls), turn, r);
      FiledExactly(ls, turn);
      hide BelongsTo, FilingOf, RecordOf;
      forall k ensures RecordOf(ls, turn, r, k) <==>
        if k == |ls| - 1 then BelongsTo(ls, turn) && r == Record(ls[k].start, ls[k].end, FilingOf(ls).question)
        else RecordOf(Front(ls), turn, r, k)
      {
        RecordOfSnoc(ls, turn, r, k);
      }
      RecordOfFront(ls, turn, r);
    }
  }

  lemma RecordOfFront(ls: seq<Line>, turn: string, r: Record)
    requires ls != []
    ensures forall k :: RecordOf(Front(ls), turn, r, k) ==> k != |ls| - 1
    ensures RecordOf(ls, turn, r, |ls| - 1) || !RecordOf(ls, turn, r, |ls| - 1)
  {
    hide BelongsTo, FilingOf;
  }

  /** The last line asks this, as a user message of the turn. */
  ghost predicate AsksIn(ls: seq<Line>, turn: string, text: string)
    requires ls != []
  {
    && LastEvent(ls).Some? && IsUserMessage(LastEvent(ls).value) && CallTurn(ls, turn)
    && text != "" && Strip(LastEvent(ls).value.payload.value.text) == text
  }

  lemma AskedExactly(ls: seq<Line>, turn: string, text: string)
    requires ls != [] && turn != "" && text != ""
    ensures Asked(ls) == Some((turn, text)) <==> AsksIn(ls, turn, text)
  {
    ActiveExactly(ls, turn);
    hide Strip, ActiveAfter;
  }

  /** Line k asked this in the turn, and no line since asked anything in it. */
  ghost predicate LatestQuestion(ls: seq<Line>, turn: string, text: string, k: int) {
    && 0 < k <= |ls| && AsksIn(ls[..k], turn, text)
    && forall j :: k < j <= |ls| ==> forall other :: !AsksIn(ls[..j], turn, other)
  }

  lemma LatestQuestionSnoc(ls: seq<Line>, turn: string, text: string, k: int)
    requires ls != []
    ensures LatestQuestion(ls, turn, text, k) <==>
      if k == |ls| then AsksIn(ls, turn, text)
      else LatestQuestion(Front(ls), turn, text, k) && forall other :: !AsksIn(ls, turn, other)
  {
    hide AsksIn;
    var front := Front(ls);
    assert ls[..|ls|] == ls;
    assert forall j :: 0 <= j <= |front| ==> front[..j] == ls[..j];
  }

  /** The question is the latest of its turn, and its number counts how often it was asked there. */
  ghost predicate InForceSince(ls: seq<Line>, q: Question, k: int) {
    LatestQuestion(ls, q.turn, q.text, k) && 0 <= k <= |ls| && q.occurrence == Occurrences(ls[..k], q.turn, q.text)
  }

  /** The question in force is the latest of its turn, with the number of times it was asked there. */
  lemma {:induction false} InForceExactly(ls: seq<Line>, turn: string)
    requires turn != ""
    ensures var q := InForce(ls, turn);
      && (q.Some? ==> q.value.turn == turn && exists k :: InForceSince(ls, q.value, k))
      && (q.None? ==> forall text, k :: !LatestQuestion(ls, turn, text, k))
  {
    if ls != [] {
      var front := Front(ls);
      InForceExactly(front, turn);
      forall text | text != "" ensures Asked(ls) == Some((turn, text)) <==> AsksIn(ls, turn, text) {
        AskedExactly(ls, turn, text);
      }
      assert ls[..|ls|] == ls;
      assert forall j :: 0 <= j <= |front| ==> front[..j] == ls[..j];
      hide AsksIn, LatestQuestion, Occurrences;
      forall text, k ensures LatestQuestion(ls, turn, text, k) <==>
        if k == |ls| then AsksIn(ls, turn, text)
        else LatestQuestion(front, turn, text, k) && forall other :: !AsksIn(ls, turn, other)
      {
        LatestQuestionSnoc(ls, turn, text, k);
      }
      NotEmpty(ls, turn);
      var q := InForce(ls, turn);
      if q.Some? {
        if Asked(ls).Some? && Asked(ls).value.0 == turn {
          assert InForceSince(ls, q.value, |ls|);
        } else {
          var k :| InForceSince(front, q.value, k);
          assert InForceSince(ls, q.value, k);
        }
      }
    }
  }

  lemma NotEmpty(ls: seq<Line>, turn: string)
    requires ls != []
    ensures forall text :: AsksIn(ls, turn, text) ==> text != ""
    ensures Asked(ls).Some? ==> Asked(ls).value.1 != ""
    ensures forall text, k :: LatestQuestion(Front(ls), turn, text, k) ==> 0 < k < |ls|
  {
  }

  /** A question as it stood after some lines: the latest of the turn, or none was asked in it. */
  ghost predicate StoodAt(ls: seq<Line>, turn: string, q: Option<Question>) {
    && (q.Some? ==> q.value.turn == turn && exists k :: InForceSince(ls, q.value, k))
    && (q.None? ==> forall text, k :: !LatestQuestion(ls, turn, text, k))
  }

  /** The question a line was filed with: the one then in force; for tool output, the one its call was made for, if any. */
  ghost predicate Answers(ls: seq<Line>, turn: string, q: Option<Question>)
    requires ls != [] && LastEvent(ls).Some?
  {
    var e := LastEvent(ls).value;
    if IsCallOutput(e) then
      exists k, called :: LatestCall(Front(ls), Strip(e.payload.value.callId), k) && StoodAt(ls[..k], turn, called)
        && if called.Some? then q == called else StoodAt(ls, turn, q)
    else StoodAt(ls, turn, q)
  }

  lemma QuestionFiledExactly(ls: seq<Line>, turn: string)
    requires ls != [] && BelongsTo(ls, turn)
    ensures LastEvent(ls).Some? && Answers(ls, turn, FilingOf(ls).question)
  {
    FiledExactly(ls, turn);
    InForceExactly(ls, turn);
    var e := LastEvent(ls).value;
    if IsCallOutput(e) {
      var call, front := Strip(e.payload.value.callId), Front(ls);
      var site := CallSite(front, call);
      CallSiteExactly(front, call, site.value);
      assert front[..site.value] == ls[..site.value];
      InForceExactly(ls[..site.value], turn);
      var called := InForce(ls[..site.value], turn);
      hide CallsOut, LatestCall, CallSite, Strip, ActiveAfter, ActivityTurn, CallTurn, InForceSince, LatestQuestion, InForce;
      assert StoodAt(ls[..site.value], turn, called);
    }
  }

  /** The item of the last line: a call's own id before its call id; output goes with the item of its call. */
  ghost predicate ItemIs(ls: seq<Line>, item: string)
    requires ls != []
  {
    LastEvent(ls).Some? && LastEvent(ls).value.payload.Some? &&
    var p := LastEvent(ls).value.payload.value;
    if IsCall(LastEvent(ls).value) then Strip(if p.id != "" then p.id else p.callId) == item
    else if IsCallOutput(LastEvent(ls).value) then
      exists k, own :: LatestCall(Front(ls), Strip(p.callId), k) && ItemIs(ls[..k], own) && item == Or(own, Strip(p.callId))
    else Strip(p.callId) == item
  }

  lemma ItemFiledExactly(ls: seq<Line>, turn: string)
    requires ls != [] && BelongsTo(ls, turn)
    ensures ItemIs(ls, FilingOf(ls).item)
  {
    FiledExactly(ls, turn);
    var e := LastEvent(ls).value;
    if IsCallOutput(e) {
      var call, front := Strip(e.payload.value.callId), Front(ls);
      var site := CallSite(front, call);
      CallSiteExactly(front, call, site.value);
      assert front[..site.value] == ls[..site.value];
      var own := CallItem(LastEvent(ls[..site.value]).value.payload.value);
      assert ItemIs(ls[..site.value], own);
      hide CallsOut, LatestCall, CallSite, Strip, ActiveAfter, ActivityTurn, CallTurn;
    }
  }

  /** Line k belongs to the turn of r and has this item, and r is its range. */
  ghost predicate ItemRangeOf(ls: seq<Line>, item: string, r: ItemRange, k: int) {
    && 0 <= k < |ls| && r.turn != "" && BelongsTo(ls[..k + 1], r.turn) && FilingOf(ls[..k + 1]).item == item
    && r == ItemRange(r.turn, ls[k].start, ls[k].end)
  }

  lemma ItemRangeOfSnoc(ls: seq<Line>, item: string, r: ItemRange, k: int)
    requires ls != []
    ensures ItemRangeOf(ls, item, r, k) <==>
      if k == |ls| - 1
      then r.turn != "" && BelongsTo(ls, r.turn) && FilingOf(ls).item == item && r == ItemRange(r.turn, ls[k].start, ls[k].end)
      else ItemRangeOf(Front(ls), item, r, k)
  {
    hide BelongsTo, FilingOf;
    assert ls[..|ls|] == ls;
    if 0 <= k < |ls| - 1 {
      assert Front(ls)[..k + 1] == ls[..k + 1];
    }
  }

  /** The ranges of an item are those of exactly the lines filed with it, each under the turn it belongs to. */
  lemma {:induction false} FiledItemsAreTheItems(ls: seq<Line>, item: string, r: ItemRange)
    requires item != ""
    ensures r in FiledItem(ls, item) <==> exists k :: ItemRangeOf(ls, item, r, k)
  {
    if ls != [] {
      FiledItemsAreTheItems(Front(ls), item, r);
      if r.turn != "" {
        FiledExactly(ls, r.turn);
      }
      hide BelongsTo, FilingOf, ItemRangeOf;
      forall k ensures ItemRangeOf(ls, item, r, k) <==>
        if k == |ls| - 1
        then r.turn != "" && BelongsTo(ls, r.turn) && FilingOf(ls).item == item && r == ItemRange(r.turn, ls[k].start, ls[k].end)
        else ItemRangeOf(Front(ls), item, r, k)
      {
        ItemRangeOfSnoc(ls, item, r, k);
      }
      ItemRangeInside(ls, item, r);
    }
  }

  lemma ItemRangeInside(ls: seq<Line>, item: string, r: ItemRange)
    requires ls != []
    ensures forall k :: ItemRangeOf(Front(ls), item, r, k) ==> k != |ls| - 1
    ensures ItemRangeOf(ls, item, r, |ls| - 1) || !ItemRangeOf(ls, item, r, |ls| - 1)
  {
    hide BelongsTo, FilingOf;
  }

  /** The lines that ask this in the turn. */
  ghost function AskingLines(ls: seq<Line>, turn: string, text: string): set<int> {
    set k | 0 < k <= |ls| && AsksIn(ls[..k], turn, text)
  }

  /** The number of a question is how many lines asked it in its turn. */
  lemma {:induction false} OccurrencesCount(ls: seq<Line>, turn: string, text: string)
    requires turn != "" && text != ""
    ensures Occurrences(ls, turn, text) == |AskingLines(ls, turn, text)|
  {
    if ls == [] {
      assert AskingLines(ls, turn, text) == {};
    } else {
      OccurrencesCount(Front(ls), turn, text);
      AskedExactly(ls, turn, text);
      AskingSnoc(ls, turn, text);
      hide AsksIn, Asked, AskingLines;
      assert |ls| !in AskingLines(Front(ls), turn, text);
    }
  }

  lemma AskingSnoc(ls: seq<Line>, turn: string, text: string)
    requires ls != []
    ensures AskingLines(ls, turn, text) == AskingLines(Front(ls), turn, text) + if AsksIn(ls, turn, text) then {|ls|} else {}
    ensures |ls| !in AskingLines(Front(ls), turn, text)
  {
    hide AsksIn;
    assert ls[..|ls|] == ls;
    assert forall j :: 0 <= j <= |Front(ls)| ==> Front(ls)[..j] == ls[..j];
  }

  /** The index of a file by its events alone: under each turn, the records of exactly the lines that belong to it. */
  lemma IndexIsByTurn(decode: Decoder, file: File, turn: string, r: Record)
    requires turn != ""
    ensures var ls := LinesFrom(decode, file.bytes, 0);
      r in GetOr(FullScan(decode, file).records, turn, []) <==>
        exists k :: RecordOf(ls, turn, r, k)
  {
    IndexMeansFile(decode, file);
    hide FullScan, LinesFrom, BelongsTo, FilingOf, ReadsBack, RecordOf;
    FiledAreTheTurns(LinesFrom(decode, file.bytes, 0), turn, r);
  }

  /** A call, its output without a turn, and a search without one: all are restored under the turn that started. */
  lemma RestoredByTurn(ls: seq<Line>)
    requires |ls| == 4
    requires ls[0].event == Some(Event("event_msg", Some(Payload("task_started", "turn_a", "", "", "", "", ""))))
    requires ls[1].event == Some(Event("response_item", Some(Payload("custom_tool_call", "", "turn_a", "call_a", "command_a", "", ""))))
    requires ls[2].event == Some(Event("response_item", Some(Payload("custom_tool_call_output", "", "", "call_a", "", "", ""))))
    requires ls[3].event == Some(Event("event_msg", Some(Payload("web_search_end", "", "", "search_a", "", "", ""))))
    ensures !BelongsTo(ls[..1], "turn_a")
    ensures BelongsTo(ls[..2], "turn_a") && BelongsTo(ls[..3], "turn_a") && BelongsTo(ls, "turn_a")
  {
    assert Trimmed("turn_a") && Trimmed("call_a") && Trimmed("");
    StripTrims("turn_a");
    StripTrims("call_a");
    StripTrims("");
    hide Strip, Trimmed;
    assert CallTurn(ls[..2], "turn_a");
    assert ls[..3][..2] == ls[..2] == Front(ls[..3]) && ls[..2][..2] == ls[..2];
    assert CallsOut(ls[..2], "call_a");
    assert LatestCall(ls[..2], "call_a", 2);
    assert ActiveSince(ls, "turn_a", 0);
    assert IsActiveTurn(ls, "turn_a");
  }
}
