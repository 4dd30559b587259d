// Browser history blocks, and the merge of live with durable activity in one segment.
module HistoryMerge {
  import opened Common

  /** Hashed browser keys; a question key is recognisable as such. */
  datatype Key = NoKey | QuestionKey(id: string) | TurnKey(turn: string)

  datatype Kind = User | Output | Process | Plan
  datatype Activity = Activity(kind: string, title: string, status: string)

  /** A public block; normalized is its text with white space, exit code and tense normalised away. */
  datatype Block = Block(id: string, turn: string, kind: Kind, text: string, segment: Key, final: bool,
                         activity: Option<Activity>, normalized: string)

  function ProcessBlock(): Block -> bool {
    (b: Block) => b.kind == Process
  }

  function OtherBlock(): Block -> bool {
    (b: Block) => b.kind != Process
  }

  // ---------------------------------------------------------------- matching

  datatype Fingerprint = Typed(kind: string, title: string) | Looks(normalized: string)

  function FingerprintOf(b: Block): Fingerprint {
    if b.activity.Some? then Typed(b.activity.value.kind, b.activity.value.title) else Looks(b.normalized)
  }

  predicate StartsWith(s: string, prefix: string) {
    prefix <= s
  }

  function ProcessType(b: Block): string {
    if b.activity.Some? then b.activity.value.kind
    else if StartsWith(b.text, "Ran ") || StartsWith(b.text, "Running ") then "command"
    else if StartsWith(b.text, "Edited ") || StartsWith(b.text, "Editing ") then "file_change"
    else if StartsWith(b.text, "Searched ") || StartsWith(b.text, "Searching the web ") then "search"
    else if StartsWith(b.text, "Called ") || StartsWith(b.text, "Calling ") then "tool"
    else "unknown"
  }

  /** Two blocks look alike if both have public activity of one kind and title, or neither has and their texts agree. */
  lemma LookAlikeExactly(a: Block, b: Block)
    ensures FingerprintOf(a) == FingerprintOf(b) <==>
      match (a.activity, b.activity)
      case (Some(x), Some(y)) => x.kind == y.kind && x.title == y.title
      case (None, None) => a.normalized == b.normalized
      case _ => false
  {
  }

  /** Without public activity the first words of the text tell the type, whether the activity runs or has ended. */
  lemma TypeByWords(b: Block, words: string, rest: string)
    requires b.activity.None? && b.text == words + rest
    ensures words in {"Ran ", "Running "} ==> ProcessType(b) == "command"
    ensures words in {"Edited ", "Editing "} ==> ProcessType(b) == "file_change"
    ensures words in {"Searched ", "Searching the web "} ==> ProcessType(b) == "search"
    ensures words in {"Called ", "Calling "} ==> ProcessType(b) == "tool"
  {
    assert words <= b.text;
    assert |words| > 3 ==> b.text[..3] == words[..3] && b.text[3] == words[3];
  }

  function ProcessStatus(b: Block): string {
    if b.activity.Some? then b.activity.value.status else if b.final then "completed" else "running"
  }

  /** The position of the last block with an id. */
  function PositionOf(live: seq<Block>, id: string): (r: Option<nat>)
    ensures r.Some? ==> r.value < |live| && live[r.value].id == id
    ensures r.None? <==> id !in Ids(live)
  {
    if live == [] then None
    else if live[|live| - 1].id == id then
      assert live[|live| - 1] in live;
      Some(|live| - 1)
    else
      var r := PositionOf(live[..|live| - 1], id);
      assert live == live[..|live| - 1] + [live[|live| - 1]];
      r
  }

  function Ids(blocks: seq<Block>): set<string> {
    set b | b in blocks :: b.id
  }

  /** The first live block that looks the same and has not been used. */
  function Candidate(live: seq<Block>, look: Fingerprint, used: set<string>): (r: Option<nat>)
    ensures r.Some? ==> r.value < |live| && FingerprintOf(live[r.value]) == look && live[r.value].id !in used
    ensures r.Some? ==> forall j :: 0 <= j < r.value ==> FingerprintOf(live[j]) != look || live[j].id in used
    ensures r.None? ==> forall j :: 0 <= j < |live| ==> FingerprintOf(live[j]) != look || live[j].id in used
  {
    if live == [] then None
    else if FingerprintOf(live[0]) == look && live[0].id !in used then Some(0)
    else match Candidate(live[1..], look, used)
      case None => None
      case Some(j) => Some(j + 1)
  }

  /**
   * The block that stands for a durable entry: its live version by id, else the first
   * unused live look-alike, else the durable block itself.
   */
  ghost predicate Represents(m: Block, d: Block, live: seq<Block>, before: seq<Block>) {
    if d.id in Ids(live) then m == live[PositionOf(live, d.id).value]
    else
      var c := Candidate(live, FingerprintOf(d), Ids(before));
      m == if c.Some? then live[c.value] else d
  }

  const DURABLE_TYPES := {"command", "file_change", "search", "mcp", "tool"}
  const UNSETTLED := {"running", "waiting", "failed", "declined"}

  /** Live activity that the durable record is not expected to hold survives beside it. */
  predicate Survives(b: Block, index: int, durableTypes: set<string>, lastMatched: int) {
    || ProcessType(b) !in DURABLE_TYPES
    || ProcessType(b) !in durableTypes
    || ProcessStatus(b) in UNSETTLED
    || (lastMatched >= 0 && index > lastMatched)
  }

  function Leftover(live: seq<Block>, n: nat, used: set<string>, durableTypes: set<string>,
                    lastMatched: int): seq<Block>
    requires n <= |live|
  {
    if n == 0 then []
    else if live[n - 1].id !in used && Survives(live[n - 1], n - 1, durableTypes, lastMatched) then
      Leftover(live, n - 1, used, durableTypes, lastMatched) + [live[n - 1]]
    else Leftover(live, n - 1, used, durableTypes, lastMatched)
  }

  /** The highest live position among the chosen blocks; -1 if no live block was chosen. */
  function LastMatched(live: seq<Block>, chosen: seq<Block>): (r: int)
    ensures -1 <= r < |live|
  {
    if chosen == [] then -1
    else
      var front, p := LastMatched(live, chosen[..|chosen| - 1]), PositionOf(live, chosen[|chosen| - 1].id);
      if p.Some? && p.value > front then p.value else front
  }

  function Types(blocks: seq<Block>): set<string> {
    set b | b in blocks :: ProcessType(b)
  }

  /** The merged process blocks: one per durable entry in durable order, then the surviving rest. */
  ghost predicate MergedProcess(merged: seq<Block>, live: seq<Block>, durable: seq<Block>) {
    && |merged| >= |durable|
    && (forall i :: 0 <= i < |durable| ==> Represents(merged[i], durable[i], live, merged[..i]))
    && merged[|durable|..] ==
         Leftover(live, |live|, Ids(merged[..|durable|]), Types(durable), LastMatched(live, merged[..|durable|]))
  }

  /** Where the process blocks go: at the first of them, else at the first output, else at the end. */
  function Anchor(current: seq<Block>): (n: nat)
    ensures n <= |current|
    ensures forall b :: b in current[..n] ==> b.kind != Process
    ensures n < |current| ==> current[n].kind == Process || (current[n].kind == Output && forall b :: b in current ==> b.kind != Process)
    ensures (forall b :: b in current ==> b.kind != Process) ==> forall b :: b in current[..n] ==> b.kind != Output
  {
    var p := FirstOf(current, Process);
    if p < |current| then p else FirstOf(current, Output)
  }

  function FirstOf(s: seq<Block>, kind: Kind): (n: nat)
    ensures n <= |s| && (n < |s| ==> s[n].kind == kind)
    ensures forall i :: 0 <= i < n ==> s[i].kind != kind
  {
    if s == [] || s[0].kind == kind then 0 else 1 + FirstOf(s[1..], kind)
  }

  ghost predicate AllRepresented(chosen: seq<Block>, live: seq<Block>, durable: seq<Block>) {
    && |chosen| <= |durable|
    && forall i :: 0 <= i < |chosen| ==> Represents(chosen[i], durable[i], live, chosen[..i])
  }

  lemma ChooseSnoc(chosen: seq<Block>, live: seq<Block>, durable: seq<Block>, m: Block)
    requires AllRepresented(chosen, live, durable) && |chosen| < |durable|
    requires Represents(m, durable[|chosen|], live, chosen)
    ensures AllRepresented(chosen + [m], live, durable)
  {
    hide Represents;
    var all := chosen + [m];
    assert all[..|chosen|] == chosen;
    forall i | 0 <= i < |all| ensures Represents(all[i], durable[i], live, all[..i]) {
      if i < |chosen| {
        assert all[..i] == chosen[..i];
      }
    }
  }

  lemma CountSnoc(chosen: seq<Block>, live: seq<Block>, m: Block)
    ensures Ids(chosen + [m]) == Ids(chosen) + {m.id}
    ensures LastMatched(live, chosen + [m]) ==
      var p := PositionOf(live, m.id); if p.Some? then Max(p.value, LastMatched(live, chosen)) else LastMatched(live, chosen)
  {
    hide PositionOf;
    assert (chosen + [m])[..|chosen + [m]| - 1] == chosen;
  }

  /** Pick the block that stands for each durable entry, remembering which live ids are used. */
  method ChooseBlocks(live: seq<Block>, durable: seq<Block>)
    returns (chosen: seq<Block>, used: set<string>, lastMatched: int)
    ensures AllRepresented(chosen, live, durable) && |chosen| == |durable|
    ensures used == Ids(chosen) * Ids(live) && lastMatched == LastMatched(live, chosen)
  {
    hide LastMatched, Ids, AllRepresented;
    chosen, used, lastMatched := [], {}, -1;
    NothingChosen(live, durable);
    for i := 0 to |durable|
      invariant |chosen| == i && AllRepresented(chosen, live, durable)
      invariant used == Ids(chosen) * Ids(live) && lastMatched == LastMatched(live, chosen)
    {
      var position := PositionOf(live, durable[i].id);
      if position.None? {
        UsedIsEnough(live, FingerprintOf(durable[i]), chosen);
        position := Candidate(live, FingerprintOf(durable[i]), used);
      }
      var selected := if position.Some? then live[position.value] else durable[i];
      ChooseSnoc(chosen, live, durable, selected);
      CountSnoc(chosen, live, selected);
      if position.Some? {
        LiveHasPosition(live, position.value);
        used := used + {selected.id};
        lastMatched := Max(PositionOf(live, selected.id).value, lastMatched);
      }
      chosen := chosen + [selected];
    }
  }

  lemma NothingChosen(live: seq<Block>, durable: seq<Block>)
    ensures AllRepresented([], live, durable) && Ids([]) == {} && LastMatched(live, []) == -1
  {
  }

  lemma LiveHasPosition(live: seq<Block>, i: nat)
    requires i < |live|
    ensures live[i].id in Ids(live) && PositionOf(live, live[i].id).Some?
  {
    assert live[i] in live;
  }

  method MergeProcess(live: seq<Block>, durable: seq<Block>) returns (merged: seq<Block>)
    ensures MergedProcess(merged, live, durable)
  {
    hide Represents, Ids, LastMatched, Survives, Types;
    var chosen, used, lastMatched := ChooseBlocks(live, durable);
    var rest: seq<Block> := [];
    for n := 0 to |live|
      invariant rest == Leftover(live, n, Ids(chosen), Types(durable), lastMatched)
    {
      LiveHasPosition(live, n);
      if live[n].id !in used && Survives(live[n], n, Types(durable), lastMatched) {
        rest := rest + [live[n]];
      }
    }
    merged := chosen + rest;
    assert merged[..|durable|] == chosen && merged[|durable|..] == rest;
    assert forall i :: 0 <= i < |durable| ==> merged[..i] == chosen[..i];
  }

  /** Ids that are not live do not matter for the choice of a live candidate. */
  lemma {:induction false} UsedIsEnough(live: seq<Block>, look: Fingerprint, merged: seq<Block>)
    ensures Candidate(live, look, Ids(merged) * Ids(live)) == Candidate(live, look, Ids(merged))
  {
    var a, b := Candidate(live, look, Ids(merged) * Ids(live)), Candidate(live, look, Ids(merged));
    assert forall j :: 0 <= j < |live| ==> live[j].id in Ids(live) by {
      assert forall j :: 0 <= j < |live| ==> live[j] in live;
    }
  }

  /** The merged process blocks take the place of the live ones; every other block keeps its side of them. */
  method MergeTurnActivity(current: seq<Block>, durable: seq<Block>)
    returns (blocks: seq<Block>, ghost merged: seq<Block>)
    ensures durable == [] ==> blocks == current
    ensures durable != [] ==>
      && MergedProcess(merged, Filter(current, ProcessBlock()), durable)
      && blocks == Filter(current[..Anchor(current)], OtherBlock()) + merged + Filter(current[Anchor(current)..], OtherBlock())
  {
    merged := [];
    if durable == [] {
      return current, merged;
    }
    var process := MergeProcess(Filter(current, ProcessBlock()), durable);
    merged := process;
    var at := Anchor(current);
    blocks := Filter(current[..at], OtherBlock()) + process + Filter(current[at..], OtherBlock());
  }

  // ---------------------------------------------------------------- consequences

  ghost predicate DistinctIds(s: seq<Block>) {
    forall i, j :: 0 <= i < j < |s| ==> s[i].id != s[j].id
  }

  lemma {:induction false} LeftoverIsLive(live: seq<Block>, n: nat, used: set<string>, durableTypes: set<string>,
                                          lastMatched: int)
    requires n <= |live|
    ensures forall b :: b in Leftover(live, n, used, durableTypes, lastMatched) ==> b in live
  {
    hide Survives;
    if n > 0 {
      LeftoverIsLive(live, n - 1, used, durableTypes, lastMatched);
    }
  }

  lemma {:induction false} LeftoverHas(live: seq<Block>, n: nat, used: set<string>, durableTypes: set<string>,
                                       lastMatched: int, i: nat)
    requires i < n <= |live| && live[i].id !in used && Survives(live[i], i, durableTypes, lastMatched)
    ensures live[i] in Leftover(live, n, used, durableTypes, lastMatched)
  {
    hide Survives;
    if i < n - 1 {
      LeftoverHas(live, n - 1, used, durableTypes, lastMatched, i);
    }
  }

  /** Nothing is invented. */
  lemma NothingInvented(merged: seq<Block>, live: seq<Block>, durable: seq<Block>)
    requires MergedProcess(merged, live, durable)
    ensures forall b :: b in merged ==> b in live || b in durable
  {
    hide Candidate, PositionOf, Leftover, LastMatched, Survives, Ids, Types;
    var chosen := merged[..|durable|];
    assert merged == chosen + merged[|durable|..];
    LeftoverIsLive(live, |live|, Ids(chosen), Types(durable), LastMatched(live, chosen));
    forall b | b in chosen ensures b in live || b in durable {
      var i :| 0 <= i < |durable| && merged[i] == b;
      assert Represents(merged[i], durable[i], live, merged[..i]);
    }
  }

  lemma MustSurvive(b: Block, index: int, durableTypes: set<string>, lastMatched: int)
    ensures ProcessStatus(b) in UNSETTLED || 0 <= lastMatched < index ==> Survives(b, index, durableTypes, lastMatched)
  {
    hide ProcessStatus, ProcessType;
  }

  /** A live block that must survive does, as long as no durable entry takes its id. */
  lemma UntakenSurvives(merged: seq<Block>, live: seq<Block>, durable: seq<Block>, i: nat)
    requires MergedProcess(merged, live, durable) && i < |live|
    requires ProcessStatus(live[i]) in UNSETTLED || 0 <= LastMatched(live, merged[..|durable|]) < i
    requires live[i].id !in Ids(merged[..|durable|])
    ensures live[i] in merged
  {
    hide Candidate, PositionOf, Leftover, LastMatched, ProcessStatus, Represents, Ids, Types, Survives;
    var chosen := merged[..|durable|];
    assert merged == chosen + merged[|durable|..];
    MustSurvive(live[i], i, Types(durable), LastMatched(live, chosen));
    LeftoverHas(live, |live|, Ids(chosen), Types(durable), LastMatched(live, chosen), i);
  }

  lemma {:induction false} LeftoverUnused(live: seq<Block>, n: nat, used: set<string>, durableTypes: set<string>,
                                          lastMatched: int)
    requires n <= |live|
    ensures forall b :: b in Leftover(live, n, used, durableTypes, lastMatched) ==> b.id !in used
  {
    hide Survives;
    if n > 0 {
      LeftoverUnused(live, n - 1, used, durableTypes, lastMatched);
    }
  }

  lemma {:induction false} LastMatchedCovers(live: seq<Block>, chosen: seq<Block>, c: Block)
    requires c in chosen && PositionOf(live, c.id).Some?
    ensures PositionOf(live, c.id).value <= LastMatched(live, chosen)
  {
    hide PositionOf;
    if c != chosen[|chosen| - 1] {
      assert chosen == chosen[..|chosen| - 1] + [chosen[|chosen| - 1]];
      LastMatchedCovers(live, chosen[..|chosen| - 1], c);
    }
  }

  lemma {:induction false} LastPosition(live: seq<Block>, i: nat)
    requires i < |live|
    ensures PositionOf(live, live[i].id).Some? && PositionOf(live, live[i].id).value >= i
    ensures forall j :: PositionOf(live, live[i].id).value < j < |live| ==> live[j].id != live[i].id
  {
    assert live[i] in live;
    if i < |live| - 1 && live[|live| - 1].id != live[i].id {
      LastPosition(live[..|live| - 1], i);
    }
  }

  /** The last matched position is that of a chosen block, and no chosen block is later. */
  lemma {:induction false} LastMatchedExactly(live: seq<Block>, chosen: seq<Block>)
    ensures var last := LastMatched(live, chosen);
      && (last >= 0 <==> exists c :: c in chosen && PositionOf(live, c.id).Some?)
      && (last >= 0 ==> exists c :: c in chosen && PositionOf(live, c.id) == Some(last))
      && (forall c :: c in chosen && PositionOf(live, c.id).Some? ==> PositionOf(live, c.id).value <= last)
  {
    hide PositionOf;
    if chosen != [] {
      LastMatchedExactly(live, chosen[..|chosen| - 1]);
      assert chosen == chosen[..|chosen| - 1] + [chosen[|chosen| - 1]];
    }
  }

  lemma {:induction false} LeftoverOnly(live: seq<Block>, n: nat, used: set<string>, durableTypes: set<string>,
                                        lastMatched: int, b: Block)
    requires n <= |live| && b in Leftover(live, n, used, durableTypes, lastMatched)
    ensures exists i :: 0 <= i < n && live[i] == b && b.id !in used && Survives(b, i, durableTypes, lastMatched)
  {
    hide Survives;
    if b !in Leftover(live, n - 1, used, durableTypes, lastMatched) {
      assert live[n - 1] == b;
    } else {
      LeftoverOnly(live, n - 1, used, durableTypes, lastMatched, b);
    }
  }

  /**
   * With distinct ids, a live block that stands for no durable entry is kept exactly if durable
   * records do not cover its type, or it is unsettled, or later than the last live block they match.
   */
  lemma LeftoverExactly(merged: seq<Block>, live: seq<Block>, durable: seq<Block>, i: nat)
    requires MergedProcess(merged, live, durable) && DistinctIds(live) && i < |live|
    requires live[i].id !in Ids(merged[..|durable|])
    ensures var b := live[i]; var last := LastMatched(live, merged[..|durable|]);
      b in merged <==>
        ProcessType(b) !in DURABLE_TYPES || !Covered(durable, ProcessType(b)) || ProcessStatus(b) in UNSETTLED || 0 <= last < i
  {
    assert |merged| >= |durable|;
    hide ProcessType, ProcessStatus, LastMatched, MergedProcess, DistinctIds, Ids, Survives, Types, Covered, DURABLE_TYPES, UNSETTLED;
    KeptExactly(merged, live, durable, i);
    SurvivesMeans(live[i], i, durable, LastMatched(live, merged[..|durable|]));
  }

  /** Some durable record is of this type. */
  ghost predicate Covered(durable: seq<Block>, kind: string) {
    exists d :: d in durable && ProcessType(d) == kind
  }

  lemma SurvivesMeans(b: Block, i: int, durable: seq<Block>, last: int)
    ensures Survives(b, i, Types(durable), last) <==>
      ProcessType(b) !in DURABLE_TYPES || !Covered(durable, ProcessType(b)) || ProcessStatus(b) in UNSETTLED || 0 <= last < i
  {
    hide ProcessType, ProcessStatus, DURABLE_TYPES, UNSETTLED;
    assert ProcessType(b) in Types(durable) <==> Covered(durable, ProcessType(b));
  }

  lemma KeptExactly(merged: seq<Block>, live: seq<Block>, durable: seq<Block>, i: nat)
    requires MergedProcess(merged, live, durable) && DistinctIds(live) && i < |live|
    requires live[i].id !in Ids(merged[..|durable|])
    ensures live[i] in merged <==> Survives(live[i], i, Types(durable), LastMatched(live, merged[..|durable|]))
  {
    hide Survives, LastMatched, Represents, Leftover, Types;
    var b, chosen := live[i], merged[..|durable|];
    var types, last := Types(durable), LastMatched(live, chosen);
    assert merged == chosen + merged[|durable|..];
    assert b !in chosen;
    hide Ids;
    if Survives(b, i, types, last) {
      LeftoverHas(live, |live|, Ids(chosen), types, last, i);
    } else if b in merged {
      LeftoverOnly(live, |live|, Ids(chosen), types, last, b);
      assert false;
    }
  }

  /** Whatever the ids, live activity after the last matched block is kept. */
  lemma LaterSurvives(merged: seq<Block>, live: seq<Block>, durable: seq<Block>, i: nat)
    requires MergedProcess(merged, live, durable) && i < |live|
    requires 0 <= LastMatched(live, merged[..|durable|]) < i
    ensures live[i] in merged
  {
    var chosen := merged[..|durable|];
    hide MergedProcess, PositionOf, LastMatched;
    LastPosition(live, i);
    if live[i].id in Ids(chosen) {
      var c :| c in chosen && c.id == live[i].id;
      LastMatchedCovers(live, chosen, c);
      assert false;
    }
    UntakenSurvives(merged, live, durable, i);
  }

  // ---------------------------------------------------------------- exactly which unsettled blocks are safe

  /** Every live block with the id looks like block i, and the first and the last of them equal it. */
  ghost predicate Stands(live: seq<Block>, i: nat)
    requires i < |live|
  {
    && (forall j :: 0 <= j < |live| && live[j].id == live[i].id ==> FingerprintOf(live[j]) == FingerprintOf(live[i]))
    && (forall j :: IsFirst(live, j, live[i].id, FingerprintOf(live[i])) ==> live[j] == live[i])
    && (forall j :: IsLast(live, j, live[i].id) ==> live[j] == live[i])
  }

  ghost predicate IsFirst(live: seq<Block>, j: int, id: string, look: Fingerprint) {
    && 0 <= j < |live| && live[j].id == id && FingerprintOf(live[j]) == look
    && forall k :: 0 <= k < j && live[k].id == id ==> FingerprintOf(live[k]) != look
  }

  ghost predicate IsLast(live: seq<Block>, j: int, id: string) {
    0 <= j < |live| && live[j].id == id && forall k :: j < k < |live| ==> live[k].id != id
  }

  /** The block is in the merge with every durable activity. */
  ghost predicate AlwaysSurvives(live: seq<Block>, b: Block) {
    forall durable, merged ::
      AllProcess(durable) && MergedProcess(merged, live, durable) ==> b in merged
  }

  ghost predicate AllProcess(durable: seq<Block>) {
    forall d :: d in durable ==> d.kind == Process
  }

  /** A block chosen when its id was still free is the last live one with it, or the first of its look. */
  lemma ChosenFirst(merged: seq<Block>, live: seq<Block>, durable: seq<Block>, k: nat, i: nat)
    requires k < |durable| <= |merged| && i < |live| && Represents(merged[k], durable[k], live, merged[..k])
    requires merged[k].id == live[i].id && live[i].id !in Ids(merged[..k]) && Stands(live, i)
    ensures merged[k] == live[i]
  {
    hide LastMatched, Leftover, FingerprintOf;
    LastPosition(live, i);
    assert live[i].id in Ids(live) by { assert live[i] in live; }
    var p := PositionOf(live, live[i].id).value;
    if durable[k].id in Ids(live) {
      assert IsLast(live, p, live[i].id);
    } else {
      var c := Candidate(live, FingerprintOf(durable[k]), Ids(merged[..k]));
      assert c.Some?;
      assert IsFirst(live, c.value, live[i].id, FingerprintOf(live[i]));
    }
  }

  /** The first chosen block with an id. */
  lemma {:induction false} FirstWithId(chosen: seq<Block>, id: string) returns (k: nat)
    requires id in Ids(chosen)
    ensures k < |chosen| && chosen[k].id == id && id !in Ids(chosen[..k])
  {
    var front := chosen[..|chosen| - 1];
    if id in Ids(front) {
      k := FirstWithId(front, id);
      assert front[..k] == chosen[..k];
    } else {
      k := |chosen| - 1;
      assert chosen == front + [chosen[k]];
    }
  }

  lemma StandingSurvives(merged: seq<Block>, live: seq<Block>, durable: seq<Block>, i: nat)
    requires MergedProcess(merged, live, durable) && i < |live| && ProcessStatus(live[i]) in UNSETTLED
    requires Stands(live, i)
    ensures live[i] in merged
  {
    hide Candidate, PositionOf, Leftover, LastMatched, ProcessStatus, Represents, Ids, Types, Survives, Stands;
    var chosen := merged[..|durable|];
    if live[i].id in Ids(chosen) {
      var k := FirstWithId(chosen, live[i].id);
      assert chosen[..k] == merged[..k] && chosen[k] == merged[k];
      ChosenFirst(merged, live, durable, k, i);
    } else {
      UntakenSurvives(merged, live, durable, i);
    }
  }

  /** A choice that uses the id of a block but not the block loses it. */
  lemma TakenIsLost(live: seq<Block>, durable: seq<Block>, chosen: seq<Block>, b: Block)
    requires AllRepresented(chosen, live, durable) && |chosen| == |durable| && AllProcess(durable)
    requires b.id in Ids(chosen) && b !in chosen
    ensures !AlwaysSurvives(live, b)
  {
    hide Candidate, PositionOf, Represents, Survives, LastMatched;
    var rest := Leftover(live, |live|, Ids(chosen), Types(durable), LastMatched(live, chosen));
    LeftoverUnused(live, |live|, Ids(chosen), Types(durable), LastMatched(live, chosen));
    hide Leftover, Types, Ids;
    var merged := chosen + rest;
    assert merged[..|durable|] == chosen && merged[|durable|..] == rest;
    assert forall k :: 0 <= k < |durable| ==> merged[..k] == chosen[..k];
    assert MergedProcess(merged, live, durable);
    assert b !in rest;
  }

  /** Repeating one durable look-alike uses up the live blocks of its look until it comes to the id. */
  lemma {:induction false} PickUntil(live: seq<Block>, d: Block, x: nat, b: Block, chosen: seq<Block>,
                                     durable: seq<Block>)
    requires x < |live| && live[x].id == b.id && FingerprintOf(live[x]) == FingerprintOf(d) && d.id !in Ids(live)
    requires forall j :: IsFirst(live, j, b.id, FingerprintOf(d)) ==> live[j] != b
    requires AllRepresented(chosen, live, durable) && |chosen| == |durable| && AllProcess(durable) && d.kind == Process
    requires b.id !in Ids(chosen)
    ensures !AlwaysSurvives(live, b)
    decreases |Ids(live) - Ids(chosen)|
  {
    hide PositionOf, FingerprintOf, AlwaysSurvives, Candidate, LastMatched, AllRepresented, Represents;
    var c := PickNext(live, d, x, b.id, chosen);
    var picked, more := live[c], durable + [d];
    ChosenStays(chosen, live, durable, d);
    ChooseSnoc(chosen, live, more, picked);
    var after := chosen + [picked];
    CountIds(chosen, picked);
    LiveHasPosition(live, c);
    if picked.id == b.id {
      NotChosen(chosen, b);
      TakenIsLost(live, more, after, b);
    } else {
      SmallerSet(Ids(live) - Ids(after), Ids(live) - Ids(chosen), picked.id);
      PickUntil(live, d, x, b, after, more);
    }
  }

  lemma CountIds(chosen: seq<Block>, m: Block)
    ensures Ids(chosen + [m]) == Ids(chosen) + {m.id}
  {
  }

  /** The block a durable look-alike with an id of its own is matched to. */
  lemma PickNext(live: seq<Block>, d: Block, x: nat, id: string, chosen: seq<Block>) returns (c: nat)
    requires x < |live| && live[x].id == id && FingerprintOf(live[x]) == FingerprintOf(d) && d.id !in Ids(live)
    requires id !in Ids(chosen)
    ensures c < |live| && Represents(live[c], d, live, chosen) && live[c].id !in Ids(chosen)
    ensures live[c].id == id ==> IsFirst(live, c, id, FingerprintOf(d))
  {
    hide FingerprintOf;
    c := Candidate(live, FingerprintOf(d), Ids(chosen)).value;
  }

  lemma NotChosen(chosen: seq<Block>, b: Block)
    requires b.id !in Ids(chosen)
    ensures b !in chosen
  {
  }

  lemma SmallerSet(a: set<string>, b: set<string>, x: string)
    requires a == b - {x} && x in b
    ensures |a| < |b|
  {
  }

  /** More durable entries leave the choices made so far as they are. */
  lemma ChosenStays(chosen: seq<Block>, live: seq<Block>, durable: seq<Block>, d: Block)
    requires AllRepresented(chosen, live, durable)
    ensures AllRepresented(chosen, live, durable + [d])
  {
    hide Represents;
  }

  lemma {:induction false} LongerThanAll(ids: set<string>) returns (n: nat)
    ensures forall id :: id in ids ==> |id| < n
  {
    n := 0;
    if ids != {} {
      var id :| id in ids;
      var m := LongerThanAll(ids - {id});
      n := Max(m, |id| + 1);
    }
  }

  /** Where a block does not stand, some durable activity makes the merge lose it. */
  lemma FallenIsLost(live: seq<Block>, i: nat)
    requires i < |live| && !Stands(live, i)
    ensures !AlwaysSurvives(live, live[i])
  {
    hide AlwaysSurvives, FingerprintOf, Candidate, LastMatched, Leftover;
    var b := live[i];
    if j :| IsLast(live, j, b.id) && live[j] != b {
      LastPosition(live, j);
      var d := live[j].(kind := Process);
      assert live[j] in live && d.id in Ids(live) && PositionOf(live, d.id).value == j;
      assert [live[j]][..0] == [] && live[j] in [live[j]];
      assert Represents(live[j], d, live, []);
      TakenIsLost(live, [d], [live[j]], b);
    } else {
      var x := OffendingLook(live, i);
      var n := LongerThanAll(Ids(live));
      var id := seq(n, _ => 'x');
      assert |id| == n && id !in Ids(live);
      var d := live[x].(id := id, kind := Process);
      SameLook(live[x], d);
      NothingChosen(live, []);
      PickUntil(live, d, x, b, [], []);
    }
  }

  lemma SameLook(a: Block, b: Block)
    requires a.activity == b.activity && a.normalized == b.normalized
    ensures FingerprintOf(a) == FingerprintOf(b)
  {
  }

  lemma FirstIsOne(live: seq<Block>, j: int, k: int, id: string, look: Fingerprint)
    requires IsFirst(live, j, id, look) && IsFirst(live, k, id, look)
    ensures j == k
  {
    hide FingerprintOf;
    assert j < k || k < j || j == k;
  }

  /** A live block with the id whose look would bring another block than i into the merge. */
  lemma OffendingLook(live: seq<Block>, i: nat) returns (x: nat)
    requires i < |live| && !Stands(live, i) && forall j :: IsLast(live, j, live[i].id) ==> live[j] == live[i]
    ensures x < |live| && live[x].id == live[i].id
    ensures forall j :: IsFirst(live, j, live[i].id, FingerprintOf(live[x])) ==> live[j] != live[i]
  {
    hide FingerprintOf;
    if j :| 0 <= j < |live| && live[j].id == live[i].id && FingerprintOf(live[j]) != FingerprintOf(live[i]) {
      x := j;
    } else {
      x :| IsFirst(live, x, live[i].id, FingerprintOf(live[i])) && live[x] != live[i];
      forall j | IsFirst(live, j, live[i].id, FingerprintOf(live[x])) ensures j == x {
        FirstIsOne(live, j, x, live[i].id, FingerprintOf(live[x]));
      }
    }
  }

  /**
   * An unsettled live block survives the merge with every durable activity exactly if it
   * stands: every live block with its id looks like it, and the first and last are equal to it.
   */
  lemma SurvivesExactly(live: seq<Block>, i: nat)
    requires i < |live| && ProcessStatus(live[i]) in UNSETTLED
    ensures AlwaysSurvives(live, live[i]) <==> Stands(live, i)
  {
    hide MergedProcess, ProcessStatus, Stands;
    if Stands(live, i) {
      forall durable, merged | AllProcess(durable) && MergedProcess(merged, live, durable) ensures live[i] in merged {
        StandingSurvives(merged, live, durable, i);
      }
    } else {
      FallenIsLost(live, i);
    }
  }

  lemma DistinctStands(live: seq<Block>, i: nat)
    requires DistinctIds(live) && i < |live|
    ensures Stands(live, i)
  {
    hide FingerprintOf;
  }

  /**
   * Nothing unsettled is lost, and live activity after the last matched block is kept,
   * when no two live blocks share an id.
   */
  lemma UnsettledSurvives(merged: seq<Block>, live: seq<Block>, durable: seq<Block>, i: nat)
    requires MergedProcess(merged, live, durable) && DistinctIds(live) && i < |live|
    requires ProcessStatus(live[i]) in UNSETTLED || 0 <= LastMatched(live, merged[..|durable|]) < i
    ensures live[i] in merged
  {
    hide MergedProcess, LastMatched, ProcessStatus, DistinctIds, Stands;
    if ProcessStatus(live[i]) in UNSETTLED {
      DistinctStands(live, i);
      StandingSurvives(merged, live, durable, i);
    } else {
      LaterSurvives(merged, live, durable, i);
    }
  }

  /** Two live blocks with one id: only the later can be matched, and an unsettled earlier one is lost. */
  lemma DuplicateIdsLose(a: Block, b: Block)
    requires a.id == b.id && a != b && ProcessStatus(a) in UNSETTLED
    ensures MergedProcess([b], [a, b], [b]) && a !in [b]
  {
    var live := [a, b];
    assert b in live && b.id in Ids(live) && b in [b] && b.id in Ids([b]);
    assert [b][..1] == [b] && [b][1..] == [];
    assert Leftover(live, 2, Ids([b]), Types([b]), LastMatched(live, [b])) == [] by {
      assert a.id in Ids([b]) && b.id in Ids([b]);
      assert Leftover(live, 0, Ids([b]), Types([b]), LastMatched(live, [b])) == [];
      assert Leftover(live, 1, Ids([b]), Types([b]), LastMatched(live, [b])) == [];
    }
  }

  lemma {:induction false} FilterDistinctIds(s: seq<Block>, p: Block -> bool)
    requires DistinctIds(s)
    ensures DistinctIds(Filter(s, p))
  {
    if s != [] {
      var front := s[..|s| - 1];
      FilterDistinctIds(front, p);
      FilterMembers(front, p);
      forall b | b in Filter(front, p) ensures b.id != s[|s| - 1].id {
        assert b in front;
      }
    }
  }

  /** The other blocks are kept exactly and in order, and the process blocks are the merged ones. */
  lemma MergeKeepsConversation(current: seq<Block>, durable: seq<Block>, merged: seq<Block>, blocks: seq<Block>)
    requires MergedProcess(merged, Filter(current, ProcessBlock()), durable)
    requires forall d :: d in durable ==> d.kind == Process
    requires blocks == Filter(current[..Anchor(current)], OtherBlock()) + merged + Filter(current[Anchor(current)..], OtherBlock())
    ensures Filter(blocks, OtherBlock()) == Filter(current, OtherBlock())
    ensures Filter(blocks, ProcessBlock()) == merged
  {
    hide Filter, Anchor, MergedProcess;
    var n, other, process := Anchor(current), OtherBlock(), ProcessBlock();
    NothingInvented(merged, Filter(current, process), durable);
    FilterMembers(current, process);
    assert forall b :: b in merged ==> b.kind == Process;
    assert current == current[..n] + current[n..];
    FilterAppend(current[..n], current[n..], other);
    Sandwich(current[..n], merged, current[n..]);
  }

  lemma Sandwich(front: seq<Block>, merged: seq<Block>, back: seq<Block>)
    requires forall b :: b in merged ==> b.kind == Process
    ensures var blocks := Filter(front, OtherBlock()) + merged + Filter(back, OtherBlock());
      && Filter(blocks, OtherBlock()) == Filter(front, OtherBlock()) + Filter(back, OtherBlock())
      && Filter(blocks, ProcessBlock()) == merged
  {
    var other, process := OtherBlock(), ProcessBlock();
    var before, after := Filter(front, other), Filter(back, other);
    FilterMembers(front, other);
    FilterMembers(back, other);
    hide Filter;
    FilterAll(merged, process);
    FilterNone(merged, other);
    FilterNone(before, process);
    FilterNone(after, process);
    FilterAll(before, other);
    FilterAll(after, other);
    FilterAppend(before + merged, after, other);
    FilterAppend(before, merged, other);
    FilterAppend(before + merged, after, process);
    FilterAppend(before, merged, process);
  }
}
