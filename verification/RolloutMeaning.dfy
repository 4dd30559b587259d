// What a rollout index means, stated over the list of lines without any of the
// dictionaries the incremental scan carries along.
module RolloutMeaning {
  import opened Common
  import opened Numerals
  import opened RolloutEvents
  import opened Rollout

  function Front(ls: seq<Line>): seq<Line>
    requires ls != []
  {
    ls[..|ls| - 1]
  }

  function LastEvent(ls: seq<Line>): Option<Event>
    requires ls != []
  {
    ls[|ls| - 1].event
  }

  function ActiveAfter(ls: seq<Line>): string {
    if ls == [] then ""
    else if LastEvent(ls).None? then ActiveAfter(Front(ls))
    else NextActiveTurn(LastEvent(ls).value, ActiveAfter(Front(ls)))
  }

  /** The turn and text of the question the last line asks, if it asks one. */
  function Asked(ls: seq<Line>): Option<(string, string)>
    requires ls != []
  {
    if LastEvent(ls).None? || !IsUserMessage(LastEvent(ls).value) then None
    else
      var p := LastEvent(ls).value.payload.value;
      var turn, text := CustomTurn(p, ActiveAfter(ls)), Strip(p.text);
      if turn == "" || text == "" then None else Some((turn, text))
  }

  /** How often a question was asked in a turn. */
  function Occurrences(ls: seq<Line>, turn: string, text: string): nat {
    if ls == [] then 0
    else Occurrences(Front(ls), turn, text) + if Asked(ls) == Some((turn, text)) then 1 else 0
  }

  /** The last question asked in a turn. */
  function InForce(ls: seq<Line>, turn: string): Option<Question> {
    if ls == [] then None
    else if Asked(ls).Some? && Asked(ls).value.0 == turn then
      Some(Question(turn, Asked(ls).value.1, Occurrences(ls, turn, Asked(ls).value.1)))
    else InForce(Front(ls), turn)
  }

  /** The last line is a tool call that later output can be matched to. */
  predicate OpensCall(ls: seq<Line>, call: string)
    requires ls != []
  {
    && LastEvent(ls).Some? && IsCall(LastEvent(ls).value)
    && call != "" && CallId(LastEvent(ls).value.payload.value) == call
    && ActivityTurn(LastEvent(ls).value, ActiveAfter(ls)) != ""
  }

  /** The length of the prefix that ends with the most recent opening of a call. */
  function CallSite(ls: seq<Line>, call: string): (r: Option<nat>)
    ensures r.Some? ==> 0 < r.value <= |ls| && OpensCall(ls[..r.value], call)
  {
    if ls == [] then None
    else if OpensCall(ls, call) then
      assert ls[..|ls|] == ls;
      Some(|ls|)
    else
      var r := CallSite(Front(ls), call);
      assert r.Some? ==> ls[..r.value] == Front(ls)[..r.value];
      r
  }

  /** The turn, item and question the last line is filed under; no turn, no filing. */
  datatype Filing = Filing(turn: string, item: string, question: Option<Question>)

  function CallFiling(ls: seq<Line>): Filing
    requires ls != [] && LastEvent(ls).Some? && IsCall(LastEvent(ls).value)
  {
    var e := LastEvent(ls).value;
    var turn := ActivityTurn(e, ActiveAfter(ls));
    Filing(turn, CallItem(e.payload.value), InForce(ls, turn))
  }

  function OutputFiling(ls: seq<Line>): Filing
    requires ls != [] && LastEvent(ls).Some? && IsCallOutput(LastEvent(ls).value)
  {
    var call := Strip(LastEvent(ls).value.payload.value.callId);
    var site := CallSite(Front(ls), call);
    if site.None? then Filing("", call, None)
    else
      var f := CallFiling(Front(ls)[..site.value]);
      Filing(f.turn, Or(f.item, call), if f.question.Some? then f.question else InForce(ls, f.turn))
  }

  function FilingOf(ls: seq<Line>): Filing
    requires ls != []
  {
    if LastEvent(ls).None? then Filing("", "", None)
    else
      var e := LastEvent(ls).value;
      if IsCall(e) then CallFiling(ls)
      else if IsCallOutput(e) then OutputFiling(ls)
      else if IsPatch(e) || IsWebSearch(e) then
        var turn := ActivityTurn(e, ActiveAfter(ls));
        Filing(turn, Strip(e.payload.value.callId), InForce(ls, turn))
      else Filing("", "", None)
  }

  /** The records of a turn: every line filed under it, in file order. */
  function Filed(ls: seq<Line>, turn: string): seq<Record> {
    if ls == [] then []
    else if turn == "" || FilingOf(ls).turn != turn then Filed(Front(ls), turn)
    else Filed(Front(ls), turn) + [Record(ls[|ls| - 1].start, ls[|ls| - 1].end, FilingOf(ls).question)]
  }

  function FiledItem(ls: seq<Line>, item: string): seq<ItemRange> {
    if ls == [] then []
    else if item == "" || FilingOf(ls).item != item || FilingOf(ls).turn == "" then FiledItem(Front(ls), item)
    else FiledItem(Front(ls), item) + [ItemRange(FilingOf(ls).turn, ls[|ls| - 1].start, ls[|ls| - 1].end)]
  }

  // ---------------------------------------------------------------- agreement

  ghost predicate QuestionMaps(active: map<string, Question>, counts: map<(string, string), nat>, ls: seq<Line>) {
    && (forall turn :: Get(active, turn) == InForce(ls, turn))
    && (forall turn, text :: GetOr(counts, (turn, text), 0) == Occurrences(ls, turn, text))
  }

  ghost predicate Questions(st: IndexState, ls: seq<Line>) {
    st.active == ActiveAfter(ls) && QuestionMaps(st.activeQuestions, st.questionCounts, ls)
  }

  ghost predicate CallAgrees(st: IndexState, ls: seq<Line>, call: string) {
    var site := CallSite(ls, call);
    if site.None? then call !in st.callTurns && call !in st.callItems && call !in st.callQuestions
    else
      var f := CallFiling(ls[..site.value]);
      && Get(st.callTurns, call) == Some(f.turn)
      && Get(st.callItems, call) == Some(f.item)
      && Get(st.callQuestions, call) == Some(f.question)
  }

  ghost predicate Calls(st: IndexState, ls: seq<Line>) {
    forall call :: CallAgrees(st, ls, call)
  }

  ghost predicate RecordMap(records: map<string, seq<Record>>, ls: seq<Line>) {
    forall turn :: GetOr(records, turn, []) == Filed(ls, turn)
  }

  ghost predicate ItemMap(records: map<ItemKey, seq<ItemRange>>, ls: seq<Line>) {
    forall item :: GetOr(records, ItemKey(item), []) == FiledItem(ls, item)
  }

  ghost predicate Records(st: IndexState, ls: seq<Line>) {
    RecordMap(st.records, ls) && ItemMap(st.itemRecords, ls)
  }

  lemma AskedAgrees(active: map<string, Question>, counts: map<(string, string), nat>, ls: seq<Line>,
                    turn: string, text: string)
    requires ls != [] && Asked(ls) == Some((turn, text)) && QuestionMaps(active, counts, Front(ls))
    ensures var n := GetOr(counts, (turn, text), 0) + 1;
      QuestionMaps(active[turn := Question(turn, text, n)], counts[(turn, text) := n], ls)
  {
    hide Asked;
    assert GetOr(counts, (turn, text), 0) == Occurrences(Front(ls), turn, text);
    var n := GetOr(counts, (turn, text), 0) + 1;
    forall t ensures Get(active[turn := Question(turn, text, n)], t) == InForce(ls, t) {
      assert Get(active, t) == InForce(Front(ls), t);
    }
    forall t, x ensures GetOr(counts[(turn, text) := n], (t, x), 0) == Occurrences(ls, t, x) {
      assert GetOr(counts, (t, x), 0) == Occurrences(Front(ls), t, x);
    }
  }

  lemma NotAskedAgrees(active: map<string, Question>, counts: map<(string, string), nat>, ls: seq<Line>)
    requires ls != [] && Asked(ls).None? && QuestionMaps(active, counts, Front(ls))
    ensures QuestionMaps(active, counts, ls)
  {
    hide Asked;
    forall t ensures Get(active, t) == InForce(ls, t) {
      assert Get(active, t) == InForce(Front(ls), t);
    }
    forall t, x ensures GetOr(counts, (t, x), 0) == Occurrences(ls, t, x) {
      assert GetOr(counts, (t, x), 0) == Occurrences(Front(ls), t, x);
    }
  }

  lemma NoteQuestionAgrees(st: IndexState, ls: seq<Line>, e: Event)
    requires ls != [] && LastEvent(ls) == Some(e)
    requires Questions(st, Front(ls))
    ensures var r := NoteQuestion(st.(offset := ls[|ls| - 1].end, active := NextActiveTurn(e, st.active)), e);
      Questions(r, ls) && r.records == st.records && r.itemRecords == st.itemRecords &&
      r.callTurns == st.callTurns && r.callItems == st.callItems && r.callQuestions == st.callQuestions
  {
    hide NextActiveTurn, CustomTurn, Strip;
    hide QuestionMaps;
    if Asked(ls).Some? {
      AskedAgrees(st.activeQuestions, st.questionCounts, ls, Asked(ls).value.0, Asked(ls).value.1);
    } else {
      NotAskedAgrees(st.activeQuestions, st.questionCounts, ls);
    }
  }

  lemma CallsAgree(st: IndexState, ls: seq<Line>, turn: string, item: string, question: Option<Question>)
    requires ls != [] && Calls(st, Front(ls))
    requires LastEvent(ls).Some? && IsCall(LastEvent(ls).value)
    requires CallFiling(ls) == Filing(turn, item, question)
    ensures Calls(NoteCall(st, CallId(LastEvent(ls).value.payload.value), turn, item, question), ls)
  {
    hide Strip, ActiveAfter, InForce, CallItem;
    var noted := CallId(LastEvent(ls).value.payload.value);
    var r := NoteCall(st, noted, turn, item, question);
    assert ls[..|ls|] == ls;
    forall call ensures CallAgrees(r, ls, call) {
      assert CallAgrees(st, Front(ls), call);
      CallSiteStep(ls, call);
      hide CallId, CallSite, ActiveAfter, InForce;
    }
  }

  lemma CallSiteStep(ls: seq<Line>, call: string)
    requires ls != []
    ensures OpensCall(ls, call) ==> CallSite(ls, call) == Some(|ls|)
    ensures !OpensCall(ls, call) ==> CallSite(ls, call) == CallSite(Front(ls), call)
    ensures CallSite(Front(ls), call).Some? ==>
      ls[..CallSite(Front(ls), call).value] == Front(ls)[..CallSite(Front(ls), call).value]
  {
  }

  lemma OtherLinesKeepCalls(st: IndexState, ls: seq<Line>)
    requires ls != [] && Calls(st, Front(ls))
    requires LastEvent(ls).None? || !IsCall(LastEvent(ls).value)
    ensures Calls(st, ls)
  {
    forall call ensures CallAgrees(st, ls, call) {
      assert CallAgrees(st, Front(ls), call);
      CallSiteStep(ls, call);
    }
  }

  lemma RecordMapStep(records: map<string, seq<Record>>, ls: seq<Line>, f: Filing)
    requires ls != [] && RecordMap(records, Front(ls)) && f == FilingOf(ls)
    ensures var l := ls[|ls| - 1]; RecordMap(
      if f.turn == "" then records else records[f.turn := GetOr(records, f.turn, []) + [Record(l.start, l.end, f.question)]], ls)
  {
    hide FilingOf;
    forall turn ensures Filed(ls, turn) == GetOr(records, turn, []) +
      if turn != "" && f.turn == turn then [Record(ls[|ls| - 1].start, ls[|ls| - 1].end, f.question)] else []
    {
      assert GetOr(records, turn, []) == Filed(Front(ls), turn);
    }
  }

  lemma ItemMapStep(records: map<ItemKey, seq<ItemRange>>, ls: seq<Line>, f: Filing)
    requires ls != [] && ItemMap(records, Front(ls)) && f == FilingOf(ls)
    ensures var l, key := ls[|ls| - 1], ItemKey(f.item); ItemMap(
      if f.turn == "" || f.item == "" then records
      else records[key := GetOr(records, key, []) + [ItemRange(f.turn, l.start, l.end)]], ls)
  {
    hide FilingOf;
    forall item ensures FiledItem(ls, item) == GetOr(records, ItemKey(item), []) +
      if item != "" && f.item == item && f.turn != "" then [ItemRange(f.turn, ls[|ls| - 1].start, ls[|ls| - 1].end)] else []
    {
      assert GetOr(records, ItemKey(item), []) == FiledItem(Front(ls), item);
    }
  }

  lemma FileRangeAgrees(st: IndexState, ls: seq<Line>, f: Filing)
    requires ls != [] && Records(st, Front(ls)) && f == FilingOf(ls)
    ensures var r := FileRange(st, f.turn, f.item, f.question, ls[|ls| - 1]);
      Records(r, ls) && r.activeQuestions == st.activeQuestions && r.questionCounts == st.questionCounts &&
      r.callTurns == st.callTurns && r.callItems == st.callItems && r.callQuestions == st.callQuestions
  {
    hide RecordMap, ItemMap;
    RecordMapStep(st.records, ls, f);
    ItemMapStep(st.itemRecords, ls, f);
  }

  lemma CallEventAgrees(st: IndexState, ls: seq<Line>, e: Event)
    requires ls != [] && LastEvent(ls) == Some(e) && IsCall(e)
    requires Questions(st, ls) && Calls(st, Front(ls)) && Records(st, Front(ls))
    ensures var r := FileEvent(st, e, ls[|ls| - 1]); Questions(r, ls) && Calls(r, ls) && Records(r, ls)
  {
    hide Filed, FiledItem, CallSite, ActiveAfter, InForce, Occurrences, FileRange, Strip, ActivityTurn;
    var f := FilingOf(ls);
    assert Get(st.activeQuestions, f.turn) == InForce(ls, f.turn);
    var noted := NoteCall(st, CallId(e.payload.value), f.turn, f.item, f.question);
    CallsAgree(st, ls, f.turn, f.item, f.question);
    FileRangeAgrees(noted, ls, f);
    var r := FileRange(noted, f.turn, f.item, f.question, ls[|ls| - 1]);
    SameCalls(noted, r, ls);
  }

  lemma OutputEventAgrees(st: IndexState, ls: seq<Line>, e: Event)
    requires ls != [] && LastEvent(ls) == Some(e) && IsCallOutput(e)
    requires Questions(st, ls) && Calls(st, Front(ls)) && Records(st, Front(ls))
    ensures var r := FileEvent(st, e, ls[|ls| - 1]); Questions(r, ls) && Calls(r, ls) && Records(r, ls)
  {
    hide Filed, FiledItem, CallSite, ActiveAfter, InForce, Occurrences, FileRange, Strip, ActivityTurn;
    var f, call := FilingOf(ls), Strip(e.payload.value.callId);
    assert CallAgrees(st, Front(ls), call);
    assert Get(st.activeQuestions, f.turn) == InForce(ls, f.turn);
    FileRangeAgrees(st, ls, f);
    OtherLinesKeepCalls(st, ls);
    var r := FileRange(st, f.turn, f.item, f.question, ls[|ls| - 1]);
    SameCalls(st, r, ls);
  }

  lemma OtherEventAgrees(st: IndexState, ls: seq<Line>)
    requires ls != [] && (LastEvent(ls).Some? ==> !IsCall(LastEvent(ls).value) && !IsCallOutput(LastEvent(ls).value))
    requires Questions(st, ls) && Calls(st, Front(ls)) && Records(st, Front(ls))
    ensures var r := if LastEvent(ls).None? then st else FileEvent(st, LastEvent(ls).value, ls[|ls| - 1]);
      Questions(r, ls) && Calls(r, ls) && Records(r, ls)
  {
    hide Filed, FiledItem, CallSite, ActiveAfter, InForce, Occurrences, Strip, ActivityTurn;
    var f := FilingOf(ls);
    assert Get(st.activeQuestions, f.turn) == InForce(ls, f.turn);
    FileRangeAgrees(st, ls, f);
    OtherLinesKeepCalls(st, ls);
    SameCalls(st, FileRange(st, f.turn, f.item, f.question, ls[|ls| - 1]), ls);
  }

  lemma SameCalls(st: IndexState, r: IndexState, ls: seq<Line>)
    requires Calls(st, ls)
    requires r.callTurns == st.callTurns && r.callItems == st.callItems && r.callQuestions == st.callQuestions
    ensures Calls(r, ls)
  {
    forall call ensures CallAgrees(r, ls, call) {
      assert CallAgrees(st, ls, call);
    }
  }

  lemma StepAgrees(st: IndexState, ls: seq<Line>)
    requires ls != []
    requires Questions(st, Front(ls)) && Calls(st, Front(ls)) && Records(st, Front(ls))
    ensures var r := Step(st, ls[|ls| - 1]); Questions(r, ls) && Calls(r, ls) && Records(r, ls)
  {
    hide Filed, FiledItem, CallSite, FileEvent, NoteQuestion, NextActiveTurn;
    var l := ls[|ls| - 1];
    if l.event.None? {
      QuietLine(st, ls);
      OtherEventAgrees(st.(offset := l.end), ls);
    } else {
      var e := l.event.value;
      NoteQuestionAgrees(st, ls, e);
      var noted := NoteQuestion(st.(offset := l.end, active := NextActiveTurn(e, st.active)), e);
      SameCalls(st, noted, Front(ls));
      if IsCall(e) {
        CallEventAgrees(noted, ls, e);
      } else if IsCallOutput(e) {
        OutputEventAgrees(noted, ls, e);
      } else {
        OtherEventAgrees(noted, ls);
      }
    }
  }

  lemma QuietLine(st: IndexState, ls: seq<Line>)
    requires ls != [] && LastEvent(ls).None?
    requires Questions(st, Front(ls)) && Calls(st, Front(ls))
    ensures var r := st.(offset := ls[|ls| - 1].end); Questions(r, ls) && Calls(r, Front(ls))
  {
    var r := st.(offset := ls[|ls| - 1].end);
    SameCalls(st, r, Front(ls));
    NotAskedAgrees(st.activeQuestions, st.questionCounts, ls);
  }

  /** The incremental dictionaries say exactly what the list of lines says. */
  lemma {:induction false} ScanAgrees(identity: Identity, ls: seq<Line>)
    ensures var st := Scan(Empty(identity), ls); Questions(st, ls) && Calls(st, ls) && Records(st, ls)
  {
    if ls == [] {
      forall call ensures CallAgrees(Empty(identity), ls, call) {
        assert CallSite(ls, call).None?;
      }
    } else {
      ScanAgrees(identity, Front(ls));
      StepAgrees(Scan(Empty(identity), Front(ls)), ls);
    }
  }

  // ---------------------------------------------------------------- reading back

  lemma {:induction false} ActiveIsTrimmed(ls: seq<Line>)
    ensures Trimmed(ActiveAfter(ls))
  {
    if ls != [] {
      ActiveIsTrimmed(Front(ls));
      if LastEvent(ls).Some? {
        TurnsAreTrimmed(LastEvent(ls).value, ActiveAfter(Front(ls)));
      }
    }
  }

  /** A filed line, read back for its turn, either projects to that turn or is tool output. */
  ghost predicate ReadsBack(decode: Decoder, bytes: Bytes, turn: string, r: Record) {
    && r.start < r.end <= |bytes| && IsOneLine(bytes, Line(r.start, r.end, None))
    && var event := decode(StripNewlines(bytes[r.start..r.end]));
       event.Some? && (IsCallOutput(event.value) || ProjectedTurn(event.value, turn) == Some(turn))
  }

  lemma LastReadsBack(decode: Decoder, bytes: Bytes, ls: seq<Line>)
    requires ls != [] && FilingOf(ls).turn != ""
    requires var l := ls[|ls| - 1];
      l.start < l.end <= |bytes| && IsOneLine(bytes, l) && l.event == decode(StripNewlines(bytes[l.start..l.end]))
    ensures var l, f := ls[|ls| - 1], FilingOf(ls); ReadsBack(decode, bytes, f.turn, Record(l.start, l.end, f.question))
  {
    hide StripNewlines, InForce, CallSite, ActiveAfter, ActivityTurn, ProjectedTurn;
    var e := LastEvent(ls).value;
    if !IsCallOutput(e) {
      ActiveIsTrimmed(ls);
      ProjectionKeepsTurn(e, ActiveAfter(ls));
    }
  }

  lemma {:induction false} FiledReadsBack(decode: Decoder, bytes: Bytes, ls: seq<Line>, turn: string)
    requires forall l :: l in ls ==>
      l.start < l.end <= |bytes| && IsOneLine(bytes, l) && l.event == decode(StripNewlines(bytes[l.start..l.end]))
    ensures forall r :: r in Filed(ls, turn) ==> ReadsBack(decode, bytes, turn, r)
  {
    hide IsOneLine, StripNewlines, FilingOf, ReadsBack;
    if ls != [] {
      FiledReadsBack(decode, bytes, Front(ls), turn);
      assert ls[|ls| - 1] in ls;
      if turn != "" && FilingOf(ls).turn == turn {
        LastReadsBack(decode, bytes, ls);
      }
    }
  }

  /**
   * The index of a file: each turn holds exactly the complete lines filed under it,
   * in file order, and no turn guard drops a record when its bytes are read back.
   */
  lemma IndexMeansFile(decode: Decoder, file: File)
    ensures var st, ls := FullScan(decode, file), LinesFrom(decode, file.bytes, 0);
      && st.active == ActiveAfter(ls)
      && (forall turn :: GetOr(st.records, turn, []) == Filed(ls, turn))
      && (forall item :: GetOr(st.itemRecords, ItemKey(item), []) == FiledItem(ls, item))
      && (forall turn, r :: r in GetOr(st.records, turn, []) ==> ReadsBack(decode, file.bytes, turn, r))
  {
    var ls := LinesFrom(decode, file.bytes, 0);
    ScanAgrees(file.identity, ls);
    LinesAreLines(decode, file.bytes, 0);
    forall turn, r | r in Filed(ls, turn) ensures ReadsBack(decode, file.bytes, turn, r) {
      FiledReadsBack(decode, file.bytes, ls, turn);
    }
  }
}
