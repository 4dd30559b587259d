// The incremental byte-offset index over an append-only rollout file.
module Rollout {
  import opened Common
  import opened Numerals
  import opened RolloutEvents

  const NEWLINE: bv8 := 10

  type Bytes = seq<bv8>
  type Decoder = Bytes -> Option<Event>

  // ---------------------------------------------------------------- lines

  /** Where a readline starting at pos stops: after the next newline, or at the end. */
  function ReadlineEnd(bytes: Bytes, pos: nat): (end: nat)
    requires pos <= |bytes|
    ensures pos <= end <= |bytes|
    ensures forall i :: pos <= i < end - 1 ==> bytes[i] != NEWLINE
    ensures end < |bytes| ==> pos < end && bytes[end - 1] == NEWLINE
    decreases |bytes| - pos
  {
    if pos == |bytes| then pos
    else if bytes[pos] == NEWLINE then pos + 1
    else ReadlineEnd(bytes, pos + 1)
  }

  predicate CompleteAt(bytes: Bytes, pos: nat, end: nat)
    requires pos <= end <= |bytes|
  {
    pos < end && bytes[end - 1] == NEWLINE
  }

  function StripNewlines(raw: Bytes): Bytes {
    if raw != [] && raw[|raw| - 1] == NEWLINE then StripNewlines(raw[..|raw| - 1]) else raw
  }

  /** A complete line and the event it decodes to; None when it is not a JSON object. */
  datatype Line = Line(start: nat, end: nat, event: Option<Event>)

  function LinesFrom(decode: Decoder, bytes: Bytes, pos: nat): seq<Line>
    requires pos <= |bytes|
    decreases |bytes| - pos
  {
    var end := ReadlineEnd(bytes, pos);
    if CompleteAt(bytes, pos, end) then
      [Line(pos, end, decode(StripNewlines(bytes[pos..end])))] + LinesFrom(decode, bytes, end)
    else []
  }

  /** The end of the last complete line at or after pos. */
  function CompleteEnd(bytes: Bytes, pos: nat): (end: nat)
    requires pos <= |bytes|
    ensures pos <= end <= |bytes|
    ensures end == pos || bytes[end - 1] == NEWLINE
    decreases |bytes| - pos
  {
    var end := ReadlineEnd(bytes, pos);
    if CompleteAt(bytes, pos, end) then CompleteEnd(bytes, end) else pos
  }

  lemma {:induction false} ReadlineSamePrefix(a: Bytes, b: Bytes, pos: nat)
    requires pos < |a| && |a| <= |b| && a == b[..|a|] && a[|a| - 1] == NEWLINE
    ensures ReadlineEnd(a, pos) == ReadlineEnd(b, pos) && CompleteAt(a, pos, ReadlineEnd(a, pos))
    decreases |a| - pos
  {
    if a[pos] != NEWLINE {
      ReadlineSamePrefix(a, b, pos + 1);
    }
  }

  lemma ScanStep(decode: Decoder, bytes: Bytes, pos: nat)
    requires pos <= |bytes|
    ensures var end := ReadlineEnd(bytes, pos);
      if CompleteAt(bytes, pos, end)
      then LinesFrom(decode, bytes, pos) == [Line(pos, end, decode(StripNewlines(bytes[pos..end])))] + LinesFrom(decode, bytes, end)
           && CompleteEnd(bytes, pos) == CompleteEnd(bytes, end)
      else LinesFrom(decode, bytes, pos) == [] && CompleteEnd(bytes, pos) == pos
  {
  }

  /** After a newline-terminated prefix, scanning can resume where it stopped. */
  lemma {:induction false} LinesResume(decode: Decoder, a: Bytes, b: Bytes, pos: nat)
    requires pos <= |a| <= |b| && a == b[..|a|] && (pos == |a| || a[|a| - 1] == NEWLINE)
    ensures LinesFrom(decode, b, pos) == LinesFrom(decode, a, pos) + LinesFrom(decode, b, |a|)
    ensures CompleteEnd(b, pos) == CompleteEnd(b, |a|) && CompleteEnd(a, pos) == |a|
    decreases |a| - pos
  {
    hide LinesFrom, CompleteEnd, StripNewlines, ReadlineEnd;
    ScanStep(decode, a, pos);
    if pos < |a| {
      ReadlineSamePrefix(a, b, pos);
      ScanStep(decode, b, pos);
      var end := ReadlineEnd(a, pos);
      assert a[pos..end] == b[pos..end];
      LinesResume(decode, a, b, end);
    }
  }

  /** Only the complete lines count: dropping a partial last line changes nothing. */
  lemma PartialLineHeldBack(decode: Decoder, bytes: Bytes)
    ensures LinesFrom(decode, bytes[..CompleteEnd(bytes, 0)], 0) == LinesFrom(decode, bytes, 0)
    ensures LinesFrom(decode, bytes, CompleteEnd(bytes, 0)) == []
    ensures CompleteEnd(bytes, CompleteEnd(bytes, 0)) == CompleteEnd(bytes, 0)
  {
    var c := CompleteEnd(bytes, 0);
    LinesResume(decode, bytes[..c], bytes, 0);
    EndIsFixed(bytes, 0);
  }

  lemma {:induction false} EndIsFixed(bytes: Bytes, pos: nat)
    requires pos <= |bytes|
    ensures var c := CompleteEnd(bytes, pos); !CompleteAt(bytes, c, ReadlineEnd(bytes, c))
    decreases |bytes| - pos
  {
    var end := ReadlineEnd(bytes, pos);
    if CompleteAt(bytes, pos, end) {
      EndIsFixed(bytes, end);
    }
  }

  /** Every range of a scan reads back exactly one line of the file. */
  ghost predicate IsOneLine(bytes: Bytes, l: Line) {
    && l.start < l.end <= |bytes|
    && bytes[l.end - 1] == NEWLINE
    && (l.start == 0 || bytes[l.start - 1] == NEWLINE)
    && forall i :: l.start <= i < l.end - 1 ==> bytes[i] != NEWLINE
  }

  ghost predicate InOrder(ls: seq<Line>) {
    forall i, j :: 0 <= i < j < |ls| ==> ls[i].end <= ls[j].start
  }

  lemma {:induction false} LinesInOrder(decode: Decoder, bytes: Bytes, pos: nat)
    requires pos <= |bytes|
    ensures forall l :: l in LinesFrom(decode, bytes, pos) ==> pos <= l.start < l.end <= |bytes|
    ensures InOrder(LinesFrom(decode, bytes, pos))
    decreases |bytes| - pos
  {
    var end := ReadlineEnd(bytes, pos);
    if CompleteAt(bytes, pos, end) {
      LinesInOrder(decode, bytes, end);
      var ls, rest := LinesFrom(decode, bytes, pos), LinesFrom(decode, bytes, end);
      assert ls == [ls[0]] + rest && ls[0].end == end;
      forall i, j | 0 <= i < j < |ls| ensures ls[i].end <= ls[j].start {
        assert ls[j] == rest[j - 1] && rest[j - 1] in rest;
        if i > 0 {
          assert ls[i] == rest[i - 1];
        }
      }
    }
  }

  lemma {:induction false} LinesAreLines(decode: Decoder, bytes: Bytes, pos: nat)
    requires pos <= |bytes| && (pos == 0 || bytes[pos - 1] == NEWLINE)
    ensures forall l :: l in LinesFrom(decode, bytes, pos) ==>
      l.start < l.end <= |bytes| && IsOneLine(bytes, l) && l.event == decode(StripNewlines(bytes[l.start..l.end]))
    decreases |bytes| - pos
  {
    var end := ReadlineEnd(bytes, pos);
    if CompleteAt(bytes, pos, end) {
      LinesAreLines(decode, bytes, end);
      var first := Line(pos, end, decode(StripNewlines(bytes[pos..end])));
      assert LinesFrom(decode, bytes, pos) == [first] + LinesFrom(decode, bytes, end);
      assert IsOneLine(bytes, first);
    }
  }

  // ---------------------------------------------------------------- index state

  /** The server-internal reference to one occurrence of a question in a turn. */
  datatype Question = Question(turn: string, text: string, occurrence: nat)
  datatype Record = Record(start: nat, end: nat, question: Option<Question>)
  /** The hashed browser key of an item. */
  datatype ItemKey = ItemKey(id: string)
  datatype ItemRange = ItemRange(turn: string, start: nat, end: nat)
  datatype Identity = Identity(device: int, inode: int)

  datatype IndexState = IndexState(
    identity: Identity, offset: nat, active: string,
    records: map<string, seq<Record>>,
    callTurns: map<string, string>, callItems: map<string, string>, callQuestions: map<string, Option<Question>>,
    activeQuestions: map<string, Question>, questionCounts: map<(string, string), nat>,
    itemRecords: map<ItemKey, seq<ItemRange>>)

  function Empty(identity: Identity): IndexState {
    IndexState(identity, 0, "", map[], map[], map[], map[], map[], map[], map[])
  }

  function Get<K, V>(m: map<K, V>, k: K): Option<V> {
    if k in m then Some(m[k]) else None
  }

  function GetOr<K, V>(m: map<K, V>, k: K, default: V): V {
    if k in m then m[k] else default
  }

  /** Count a question and make it the one in force for its turn. */
  function NoteQuestion(st: IndexState, e: Event): (r: IndexState)
    ensures r.identity == st.identity && r.offset == st.offset && r.active == st.active
  {
    if !IsUserMessage(e) then st
    else
      var turn, text := CustomTurn(e.payload.value, st.active), Strip(e.payload.value.text);
      if turn == "" || text == "" then st
      else
        var occurrence := GetOr(st.questionCounts, (turn, text), 0) + 1;
        st.(questionCounts := st.questionCounts[(turn, text) := occurrence],
            activeQuestions := st.activeQuestions[turn := Question(turn, text, occurrence)])
  }

  /** Append a range to the records of a turn and, when there is an item, to those of the item. */
  function FileRange(st: IndexState, turn: string, item: string, question: Option<Question>, l: Line): (r: IndexState)
    ensures r.identity == st.identity && r.offset == st.offset && r.active == st.active
    ensures turn == "" ==> r == st
  {
    if turn == "" then st
    else
      var filed := st.(records := st.records[turn := GetOr(st.records, turn, []) + [Record(l.start, l.end, question)]]);
      if item == "" then filed
      else filed.(itemRecords :=
        st.itemRecords[ItemKey(item) := GetOr(st.itemRecords, ItemKey(item), []) + [ItemRange(turn, l.start, l.end)]])
  }

  /** Remember the turn, item and question of a tool call for its later output. */
  function NoteCall(st: IndexState, call: string, turn: string, item: string,
                    question: Option<Question>): (r: IndexState)
    ensures r.identity == st.identity && r.offset == st.offset && r.active == st.active
  {
    if call == "" || turn == "" then st
    else st.(callTurns := st.callTurns[call := turn], callItems := st.callItems[call := item],
             callQuestions := st.callQuestions[call := question])
  }

  /** File one event, given the state with its active turn and question noted. */
  function FileEvent(st: IndexState, e: Event, l: Line): (r: IndexState)
    ensures r.identity == st.identity && r.offset == st.offset && r.active == st.active
  {
    var turn := ActivityTurn(e, st.active);
    if IsCall(e) then
      var item, question := CallItem(e.payload.value), Get(st.activeQuestions, turn);
      FileRange(NoteCall(st, CallId(e.payload.value), turn, item, question), turn, item, question, l)
    else if IsCallOutput(e) then
      var call := Strip(e.payload.value.callId);
      var callTurn, callQuestion := GetOr(st.callTurns, call, ""), GetOr(st.callQuestions, call, None);
      var question := if callQuestion.Some? then callQuestion else Get(st.activeQuestions, callTurn);
      FileRange(st, callTurn, Or(GetOr(st.callItems, call, ""), call), question, l)
    else if IsPatch(e) || IsWebSearch(e) then
      FileRange(st, turn, Strip(e.payload.value.callId), Get(st.activeQuestions, turn), l)
    else st
  }

  function Step(st: IndexState, l: Line): (r: IndexState)
    ensures r.identity == st.identity && r.offset == l.end
  {
    if l.event.None? then st.(offset := l.end)
    else
      var e := l.event.value;
      FileEvent(NoteQuestion(st.(offset := l.end, active := NextActiveTurn(e, st.active)), e), e, l)
  }

  function Scan(st: IndexState, ls: seq<Line>): IndexState {
    if ls == [] then st else Step(Scan(st, ls[..|ls| - 1]), ls[|ls| - 1])
  }

  lemma {:induction false} ScanAppend(st: IndexState, a: seq<Line>, b: seq<Line>)
    ensures Scan(st, a + b) == Scan(Scan(st, a), b)
  {
    if b == [] {
      assert a + b == a;
    } else {
      assert (a + b)[..|a + b| - 1] == a + b[..|b| - 1];
      ScanAppend(st, a, b[..|b| - 1]);
    }
  }

  datatype File = File(identity: Identity, bytes: Bytes)

  /** One scan of all complete lines of a file, from scratch. */
  function FullScan(decode: Decoder, file: File): IndexState {
    Scan(Empty(file.identity), LinesFrom(decode, file.bytes, 0)).(offset := CompleteEnd(file.bytes, 0))
  }

  lemma {:induction false} ScanOffset(st: IndexState, ls: seq<Line>)
    ensures Scan(st, ls).identity == st.identity
    ensures Scan(st, ls).offset == if ls == [] then st.offset else ls[|ls| - 1].end
  {
    if ls != [] {
      ScanOffset(st, ls[..|ls| - 1]);
    }
  }

  lemma {:induction false} LastLineEnd(decode: Decoder, bytes: Bytes, pos: nat)
    requires pos <= |bytes|
    ensures var ls := LinesFrom(decode, bytes, pos);
      CompleteEnd(bytes, pos) == if ls == [] then pos else ls[|ls| - 1].end
    decreases |bytes| - pos
  {
    var end := ReadlineEnd(bytes, pos);
    if CompleteAt(bytes, pos, end) {
      LastLineEnd(decode, bytes, end);
    }
  }

  /** The scan itself leaves the offset at the end of the last complete line. */
  lemma FullScanIsScan(decode: Decoder, file: File)
    ensures FullScan(decode, file) == Scan(Empty(file.identity), LinesFrom(decode, file.bytes, 0))
  {
    ScanOffset(Empty(file.identity), LinesFrom(decode, file.bytes, 0));
    LastLineEnd(decode, file.bytes, 0);
  }

  /** The prefix already indexed, continued with what the file now holds after it. */
  function Spliced(before: File, now: File): File
    requires CompleteEnd(before.bytes, 0) <= |now.bytes|
  {
    var c := CompleteEnd(before.bytes, 0);
    File(before.identity, before.bytes[..c] + now.bytes[c..])
  }

  /** Resuming a scan at its offset equals scanning the spliced file from scratch. */
  lemma ResumeIsFullScan(decode: Decoder, before: File, now: File)
    requires CompleteEnd(before.bytes, 0) <= |now.bytes|
    ensures FullScan(decode, Spliced(before, now)) ==
      Scan(FullScan(decode, before), LinesFrom(decode, now.bytes, CompleteEnd(before.bytes, 0)))
  {
    var c := CompleteEnd(before.bytes, 0);
    var done, whole := before.bytes[..c], Spliced(before, now).bytes;
    PartialLineHeldBack(decode, before.bytes);
    LinesResume(decode, done, whole, 0);
    SameTail(decode, whole, now.bytes, c);
    ScanAppend(Empty(before.identity), LinesFrom(decode, done, 0), LinesFrom(decode, now.bytes, c));
    FullScanIsScan(decode, before);
    FullScanIsScan(decode, Spliced(before, now));
  }

  lemma {:induction false} SameTail(decode: Decoder, a: Bytes, b: Bytes, pos: nat)
    requires |a| == |b| && pos <= |a| && a[pos..] == b[pos..]
    ensures LinesFrom(decode, a, pos) == LinesFrom(decode, b, pos)
    decreases |a| - pos
  {
    ReadlineSameTail(a, b, pos);
    var end := ReadlineEnd(a, pos);
    if CompleteAt(a, pos, end) {
      assert a[end - 1] == a[pos..][end - 1 - pos] && a[pos..end] == a[pos..][..end - pos] == b[pos..end];
      assert a[end..] == a[pos..][end - pos..] && b[end..] == b[pos..][end - pos..];
      SameTail(decode, a, b, end);
    } else if pos < end {
      assert a[end - 1] == a[pos..][end - 1 - pos] && b[end - 1] == b[pos..][end - 1 - pos];
    }
  }

  lemma {:induction false} ReadlineSameTail(a: Bytes, b: Bytes, pos: nat)
    requires |a| == |b| && pos <= |a| && a[pos..] == b[pos..]
    ensures ReadlineEnd(a, pos) == ReadlineEnd(b, pos)
    decreases |a| - pos
  {
    if pos < |a| {
      assert a[pos] == a[pos..][0] && b[pos] == b[pos..][0];
      assert a[pos + 1..] == a[pos..][1..] && b[pos + 1..] == b[pos..][1..];
      ReadlineSameTail(a, b, pos + 1);
    }
  }

  // ---------------------------------------------------------------- cached index

  const MAX_PATHS := 16

  datatype Entry = Entry(path: string, state: IndexState)

  function PathPredicate(path: string): Entry -> bool {
    (e: Entry) => e.path != path
  }

  /** An ordered dictionary without one key. */
  function Without(cache: seq<Entry>, path: string): seq<Entry> {
    Filter(cache, PathPredicate(path))
  }

  /** The ordered dictionary after a key moved to its newest end and the oldest left. */
  function Refreshed(cache: seq<Entry>, path: string, state: IndexState): seq<Entry> {
    var all := Without(cache, path) + [Entry(path, state)];
    if |all| > MAX_PATHS then all[|all| - MAX_PATHS..] else all
  }

  ghost predicate DistinctPaths(cache: seq<Entry>) {
    forall i, j :: 0 <= i < j < |cache| ==> cache[i].path != cache[j].path
  }

  lemma {:induction false} WithoutKeepsDistinct(cache: seq<Entry>, path: string)
    requires DistinctPaths(cache)
    ensures DistinctPaths(Without(cache, path)) && |Without(cache, path)| <= |cache|
    ensures forall e :: e in Without(cache, path) <==> e in cache && e.path != path
  {
    FilterMembers(cache, PathPredicate(path));
    if cache != [] {
      var front := cache[..|cache| - 1];
      WithoutKeepsDistinct(front, path);
      forall e | e in Without(front, path) ensures e.path != cache[|cache| - 1].path {
        assert e in front;
      }
    }
  }

  lemma RefreshedMembers(cache: seq<Entry>, path: string, state: IndexState)
    requires DistinctPaths(cache)
    ensures DistinctPaths(Refreshed(cache, path, state)) && |Refreshed(cache, path, state)| <= MAX_PATHS
    ensures forall e :: e in Refreshed(cache, path, state) ==> e == Entry(path, state) || (e in cache && e.path != path)
  {
    WithoutKeepsDistinct(cache, path);
    var others := Without(cache, path);
    hide Without;
    forall e | e in Refreshed(cache, path, state) ensures e == Entry(path, state) || e in others {
    }
    forall i | 0 <= i < |others| ensures others[i].path != path {
      assert others[i] in others;
    }
  }

  function Find(cache: seq<Entry>, path: string): (r: Option<IndexState>)
    ensures r.Some? ==> Entry(path, r.value) in cache
    ensures r.None? ==> forall e :: e in cache ==> e.path != path
  {
    if cache == [] then None
    else if cache[|cache| - 1].path == path then Some(cache[|cache| - 1].state)
    else Find(cache[..|cache| - 1], path)
  }

  class ActivityIndex {
    const decode: Decoder
    var cache: seq<Entry>
    ghost var seen: map<string, File>  // the content each cached index stands for

    ghost predicate Valid()
      reads this
    {
      && DistinctPaths(cache) && |cache| <= MAX_PATHS
      && forall e :: e in cache ==> e.path in seen && e.state == FullScan(decode, seen[e.path])
    }

    constructor (decode: Decoder)
      ensures Valid() && cache == [] && this.decode == decode
    {
      this.decode, cache, seen := decode, [], map[];
    }

    /** A changed inode or a size below the indexed offset starts over. */
    static predicate MustReset(state: Option<IndexState>, file: File) {
      state.None? || state.value.identity != file.identity || |file.bytes| < state.value.offset
    }

    /**
     * A change is noticed when it resets the index, or only adds bytes after the
     * complete lines seen before.
     */
    ghost predicate Detectable(path: string, file: File)
      requires Valid()
      reads this
    {
      MustReset(Find(cache, path), file) ||
      (var c := CompleteEnd(seen[path].bytes, 0); seen[path].bytes[..c] == file.bytes[..c])
    }

    method Store(path: string, state: IndexState)
      modifies `cache
      ensures cache == Refreshed(old(cache), path, state)
    {
      hide Without;
      cache := Without(cache, path) + [Entry(path, state)];
      ghost var all := cache;
      while |cache| > MAX_PATHS
        invariant |cache| >= MAX_PATHS || cache == all
        invariant |cache| <= |all| && cache == all[|all| - |cache|..]
      {
        cache := cache[1..];
      }
    }

    /**
     * Index one file: None models a failed stat.  Whatever happened between calls,
     * the answer is the full scan of the indexed prefix spliced with the current
     * bytes; for a detectable change that is the full scan of the file itself.
     */
    method UpdateIndex(path: string, file: Option<File>) returns (r: Option<IndexState>)
      requires Valid()
      modifies this
      ensures Valid()
      ensures file.None? ==> r == Find(old(cache), path) && forall e :: e in cache <==> e in old(cache)
      ensures file.Some? ==> r.Some? && cache == Refreshed(old(cache), path, r.value)
      ensures file.Some? && old(Detectable(path, file.value)) ==> r.value == FullScan(decode, file.value)
      ensures file.Some? && !old(Detectable(path, file.value)) ==>
        path in old(seen) && CompleteEnd(old(seen[path]).bytes, 0) <= |file.value.bytes| &&
        r.value == FullScan(decode, Spliced(old(seen[path]), file.value))
      ensures file.Some? && old(Detectable(path, file.value)) ==> seen == old(seen)[path := file.value]
    {
      r := Lookup(path);
      if file.Some? {
        var state := IndexFile(path, file.value, r);
        r := Some(state);
      }
    }

    method IndexFile(path: string, file: File, cached: Option<IndexState>) returns (state: IndexState)
      requires Valid() && cached == Find(cache, path)
      modifies this
      ensures Valid()
      ensures cache == Refreshed(old(cache), path, state)
      ensures old(Detectable(path, file)) ==> state == FullScan(decode, file)
      ensures !old(Detectable(path, file)) ==>
        path in old(seen) && CompleteEnd(old(seen[path]).bytes, 0) <= |file.bytes| &&
        state == FullScan(decode, Spliced(old(seen[path]), file))
      ensures old(Detectable(path, file)) ==> seen == old(seen)[path := file]
    {
      hide FullScan, Scan, LinesFrom, Spliced, CompleteEnd, Find, Refreshed, Without, Filter;
      ghost var target := file;
      if MustReset(cached, file) {
        state := Empty(file.identity);
        FullScanIsScan(decode, file);
      } else {
        state := cached.value;
        FullScanHeader(decode, seen[path]);
        target := Spliced(seen[path], file);
        ResumeIsFullScan(decode, seen[path], file);
        SplicedIsFile(decode, seen[path], file);
      }
      state := ScanTail(file.bytes, state);
      Adopt(path, state, target);
    }

    /** Cache a state that stands for the full scan of target. */
    method Adopt(path: string, state: IndexState, ghost target: File)
      requires Valid() && state == FullScan(decode, target)
      modifies this
      ensures Valid() && cache == Refreshed(old(cache), path, state) && seen == old(seen)[path := target]
    {
      hide FullScan, Find, Refreshed;
      seen := seen[path := target];
      RefreshedMembers(cache, path, state);
      Store(path, state);
    }

    /** Look a path up and move it to the newest end. */
    method Lookup(path: string) returns (r: Option<IndexState>)
      requires Valid()
      modifies `cache
      ensures Valid() && r == Find(old(cache), path) == Find(cache, path)
      ensures forall e :: e in cache <==> e in old(cache)
      ensures Without(cache, path) == Without(old(cache), path)
    {
      r := Find(cache, path);
      if r.Some? {
        var entry := Entry(path, r.value);
        WithoutKeepsDistinct(cache, path);
        WithoutTwice(cache, path, r.value);
        RemovalShrinks(cache, entry);
        cache := Without(cache, path) + [entry];
        forall e | e in old(cache) ensures e in cache {
          if e.path == path {
            assert e == entry;
          }
        }
      }
    }

    /** Read the complete lines after the state's offset and index them in order. */
    method ScanTail(bytes: Bytes, start: IndexState) returns (state: IndexState)
      requires start.offset <= |bytes|
      ensures state == Scan(start, LinesFrom(decode, bytes, start.offset))
    {
      hide Step, LinesFrom, CompleteEnd, StripNewlines, ReadlineEnd;
      state := start;
      ghost var done: seq<Line> := [];
      var pos := start.offset;
      while pos < |bytes|
        invariant start.offset <= pos <= |bytes|
        invariant LinesFrom(decode, bytes, start.offset) == done + LinesFrom(decode, bytes, pos)
        invariant state == Scan(start, done)
      {
        var end := ReadlineEnd(bytes, pos);
        ScanStep(decode, bytes, pos);
        if !CompleteAt(bytes, pos, end) {
          break;
        }
        var line := Line(pos, end, decode(StripNewlines(bytes[pos..end])));
        ghost var before := done;
        done := done + [line];
        assert done[..|done| - 1] == before;
        state := Step(state, line);
        pos := end;
      }
      ScanStep(decode, bytes, pos);
      assert done + [] == done;
    }
  }

  /** Only bytes after the indexed lines changed: the spliced file is the file. */
  lemma SplicedIsFile(decode: Decoder, before: File, now: File)
    requires CompleteEnd(before.bytes, 0) <= |now.bytes|
    ensures before.identity == now.identity
      && before.bytes[..CompleteEnd(before.bytes, 0)] == now.bytes[..CompleteEnd(before.bytes, 0)]
      ==> Spliced(before, now) == now
  {
    var c := CompleteEnd(before.bytes, 0);
    assert now.bytes == now.bytes[..c] + now.bytes[c..];
  }

  lemma FullScanHeader(decode: Decoder, file: File)
    ensures FullScan(decode, file).offset == CompleteEnd(file.bytes, 0)
    ensures FullScan(decode, file).identity == file.identity
  {
    ScanOffset(Empty(file.identity), LinesFrom(decode, file.bytes, 0));
  }

  lemma {:induction false} RemovalShrinks(cache: seq<Entry>, e: Entry)
    requires e in cache
    ensures |Without(cache, e.path)| < |cache|
  {
    var front := cache[..|cache| - 1];
    if cache[|cache| - 1].path == e.path {
      WithoutLength(front, e.path);
    } else {
      RemovalShrinks(front, e);
    }
  }

  lemma {:induction false} WithoutLength(cache: seq<Entry>, path: string)
    ensures |Without(cache, path)| <= |cache|
  {
    if cache != [] {
      WithoutLength(cache[..|cache| - 1], path);
    }
  }

  lemma {:induction false} WithoutIdempotent(cache: seq<Entry>, path: string)
    ensures Without(Without(cache, path), path) == Without(cache, path)
  {
    if cache != [] {
      var front := cache[..|cache| - 1];
      WithoutIdempotent(front, path);
      if cache[|cache| - 1].path != path {
        FilterAppend(Without(front, path), [cache[|cache| - 1]], PathPredicate(path));
      }
    }
  }

  lemma WithoutTwice(cache: seq<Entry>, path: string, state: IndexState)
    ensures Without(Without(cache, path) + [Entry(path, state)], path) == Without(cache, path)
  {
    FilterAppend(Without(cache, path), [Entry(path, state)], PathPredicate(path));
    WithoutIdempotent(cache, path);
  }
}
