// Projection of message blocks into question segments, with durable activity placed in them.
module HistorySegments {
  import opened Common
  import opened Numerals
  import opened HistoryMerge

  /** One occurrence of a question text in a turn. */
  datatype Reference = Reference(turn: string, text: string, occurrence: nat)
  datatype Durable = Durable(block: Block, question: Option<Reference>)
  datatype Segment = Segment(key: Key, text: string, blocks: seq<Block>)

  /** The public form of a message value; None when it has no identity or no text. */
  function PublicBlock(v: Block): Option<Block> {
    if v.id == "" || v.turn == "" || Strip(v.text) == "" then None
    else Some(v.(text := Strip(v.text),
                 segment := if v.segment.QuestionKey? then v.segment
                            else if v.kind == User then QuestionKey(v.id) else TurnKey(v.turn)))
  }

  function PublicBlocks(values: seq<Block>): (r: seq<Block>)
    ensures forall b :: b in r ==> IsPublic(b)
  {
    if values == [] then []
    else
      var front, last := PublicBlocks(values[..|values| - 1]), PublicBlock(values[|values| - 1]);
      if last.None? then front else front + [last.value]
  }

  /** b is v with the white space around its text removed, under a segment of its own choice. */
  ghost predicate PublicOf(b: Block, v: Block) {
    && b == v.(text := b.text, segment := b.segment) && Trimmed(b.text)
    && exists left, right :: AllSpace(left) && AllSpace(right) && v.text == left + b.text + right
  }

  lemma PublicBlockExactly(v: Block)
    ensures PublicBlock(v).Some? <==> v.id != "" && v.turn != "" && !AllSpace(v.text)
    ensures PublicBlock(v).Some? ==> PublicOf(PublicBlock(v).value, v)
  {
    BlankExactly(v.text);
    var left, right := StripExactly(v.text);
  }

  /** Every value with an identity and a text that is not blank is shown, trimmed, and nothing else is. */
  lemma PublicExactly(values: seq<Block>)
    ensures forall v :: v in values && v.id != "" && v.turn != "" && !AllSpace(v.text) ==>
      exists b :: b in PublicBlocks(values) && PublicOf(b, v)
    ensures forall b :: b in PublicBlocks(values) ==>
      exists v :: v in values && v.id != "" && v.turn != "" && !AllSpace(v.text) && PublicOf(b, v)
  {
    hide PublicBlock, PublicOf, AllSpace, PublicBlocks;
    forall v | v in values && v.id != "" && v.turn != "" && !AllSpace(v.text)
      ensures exists b :: b in PublicBlocks(values) && PublicOf(b, v) {
      PublicBlockExactly(v);
      PublicMembers(values, PublicBlock(v).value);
    }
    forall b | b in PublicBlocks(values)
      ensures exists v :: v in values && v.id != "" && v.turn != "" && !AllSpace(v.text) && PublicOf(b, v) {
      PublicMembers(values, b);
      var v :| v in values && PublicBlock(v) == Some(b);
      PublicBlockExactly(v);
    }
  }

  lemma {:induction false} PublicMembers(values: seq<Block>, b: Block)
    ensures b in PublicBlocks(values) <==> exists v :: v in values && PublicBlock(v) == Some(b)
  {
    hide PublicBlock;
    if values != [] {
      PublicMembers(values[..|values| - 1], b);
      assert values == values[..|values| - 1] + [values[|values| - 1]];
    }
  }

  predicate IsPublic(b: Block) {
    b.segment != NoKey && (b.kind == User ==> b.segment.QuestionKey?)
  }

  // ---------------------------------------------------------------- segment keys

  /** The first question of its turn stands at i. */
  ghost predicate AsksFirst(blocks: seq<Block>, i: int, turn: string) {
    && 0 <= i < |blocks| && blocks[i].kind == User && blocks[i].turn == turn
    && forall j :: 0 <= j < i ==> !(blocks[j].kind == User && blocks[j].turn == turn)
  }

  function FirstQuestion(blocks: seq<Block>, turn: string): Option<Key> {
    if blocks == [] then None
    else
      var front, last := FirstQuestion(blocks[..|blocks| - 1], turn), blocks[|blocks| - 1];
      if front.Some? then front
      else if last.kind == User && last.turn == turn then Some(last.segment) else None
  }

  lemma {:induction false} FirstQuestionExactly(blocks: seq<Block>, turn: string)
    ensures var q := FirstQuestion(blocks, turn);
      if q.Some? then exists i :: AsksFirst(blocks, i, turn) && q.value == blocks[i].segment
      else forall i :: 0 <= i < |blocks| ==> !(blocks[i].kind == User && blocks[i].turn == turn)
  {
    if blocks != [] {
      var n := |blocks| - 1;
      var front := blocks[..n];
      FirstQuestionExactly(front, turn);
      if FirstQuestion(front, turn).Some? {
        var i :| AsksFirst(front, i, turn) && FirstQuestion(front, turn).value == front[i].segment;
        assert AsksFirst(blocks, i, turn);
      } else {
        assert forall i :: 0 <= i < n ==> blocks[i] == front[i];
        assert blocks[n].kind == User && blocks[n].turn == turn ==> AsksFirst(blocks, n, turn);
      }
    }
  }

  function OpeningKey(blocks: seq<Block>, turn: string): Key {
    var q := FirstQuestion(blocks, turn);
    if q.Some? then q.value else TurnKey(turn)
  }

  /**
   * The segment of a block: the question it names, else that of the block before it in
   * the same turn, else the first question of its turn, else the turn itself.
   */
  function Assigned(blocks: seq<Block>, i: nat): Key
    requires i < |blocks|
  {
    if blocks[i].kind == User || blocks[i].segment.QuestionKey? then blocks[i].segment
    else if i > 0 && blocks[i - 1].turn == blocks[i].turn then Assigned(blocks, i - 1)
    else OpeningKey(blocks, blocks[i].turn)
  }

  /** A block that names its question itself. */
  predicate NamesQuestion(b: Block) {
    b.kind == User || b.segment.QuestionKey?
  }

  /** Blocks j to i are all of one turn. */
  ghost predicate OneTurn(blocks: seq<Block>, j: nat, i: nat)
    requires j <= i < |blocks|
  {
    forall k :: j <= k <= i ==> blocks[k].turn == blocks[i].turn
  }

  /** Within a run of one turn a block belongs to the question last named before it. */
  lemma {:induction false} LastNamedDecides(blocks: seq<Block>, j: nat, i: nat)
    requires j <= i < |blocks| && OneTurn(blocks, j, i) && NamesQuestion(blocks[j])
    requires forall k :: j < k <= i ==> !NamesQuestion(blocks[k])
    ensures Assigned(blocks, i) == blocks[j].segment
  {
    if j < i {
      LastNamedDecides(blocks, j, i - 1);
    }
  }

  lemma FirstIsUnique(blocks: seq<Block>, p: int, q: int, turn: string)
    requires AsksFirst(blocks, p, turn) && AsksFirst(blocks, q, turn)
    ensures p == q
  {
    assert !(p < q) && !(q < p);
  }

  /** With none named before it in the run, it belongs to the first question of its turn, and without any to the turn. */
  lemma {:induction false} ElseTurnDecides(blocks: seq<Block>, i: nat)
    requires i < |blocks|
    requires forall j :: 0 <= j <= i && OneTurn(blocks, j, i) ==> !NamesQuestion(blocks[j])
    ensures forall q :: AsksFirst(blocks, q, blocks[i].turn) ==> Assigned(blocks, i) == blocks[q].segment
    ensures (forall b :: b in blocks ==> !(b.kind == User && b.turn == blocks[i].turn)) ==> Assigned(blocks, i) == TurnKey(blocks[i].turn)
  {
    assert OneTurn(blocks, i, i);
    if i > 0 && blocks[i - 1].turn == blocks[i].turn {
      forall j | 0 <= j <= i - 1 && OneTurn(blocks, j, i - 1) ensures !NamesQuestion(blocks[j]) {
        assert OneTurn(blocks, j, i);
      }
      ElseTurnDecides(blocks, i - 1);
    } else {
      FirstQuestionExactly(blocks, blocks[i].turn);
      forall q | AsksFirst(blocks, q, blocks[i].turn) ensures OpeningKey(blocks, blocks[i].turn) == blocks[q].segment {
        var p :| AsksFirst(blocks, p, blocks[i].turn) && OpeningKey(blocks, blocks[i].turn) == blocks[p].segment;
        FirstIsUnique(blocks, p, q, blocks[i].turn);
      }
    }
  }

  /** The first n blocks, each under its assigned key. */
  function Rekeyed(blocks: seq<Block>, n: nat): (r: seq<Block>)
    requires n <= |blocks|
    ensures |r| == n && forall i :: 0 <= i < n ==> r[i] == blocks[i].(segment := Assigned(blocks, i))
  {
    if n == 0 then [] else Rekeyed(blocks, n - 1) + [blocks[n - 1].(segment := Assigned(blocks, n - 1))]
  }

  function HasKey(k: Key): Block -> bool {
    (b: Block) => b.segment == k
  }

  /** The distinct segment keys, in order of first appearance. */
  function KeysOf(blocks: seq<Block>): seq<Key> {
    if blocks == [] then []
    else
      var front, k := KeysOf(blocks[..|blocks| - 1]), blocks[|blocks| - 1].segment;
      if k in front then front else front + [k]
  }

  /** The segments a turn opened, in order. */
  function OpenedBy(blocks: seq<Block>, turn: string): seq<Key> {
    if blocks == [] then []
    else
      var front, last := blocks[..|blocks| - 1], blocks[|blocks| - 1];
      if last.turn == turn && last.segment !in KeysOf(front) then OpenedBy(front, turn) + [last.segment] else OpenedBy(front, turn)
  }

  lemma {:induction false} KeysAreDistinct(blocks: seq<Block>)
    ensures forall i, j :: 0 <= i < j < |KeysOf(blocks)| ==> KeysOf(blocks)[i] != KeysOf(blocks)[j]
    ensures forall k :: k in KeysOf(blocks) <==> exists b :: b in blocks && b.segment == k
  {
    if blocks != [] {
      var front := blocks[..|blocks| - 1];
      KeysAreDistinct(front);
      assert blocks == front + [blocks[|blocks| - 1]];
      forall k | k in KeysOf(blocks) ensures exists b :: b in blocks && b.segment == k {
        if k == blocks[|blocks| - 1].segment {
          assert blocks[|blocks| - 1] in blocks;
        } else {
          var b :| b in front && b.segment == k;
          assert b in blocks;
        }
      }
    }
  }

  // ---------------------------------------------------------------- question references

  predicate Asks(b: Block, turn: string, text: string) {
    b.kind == User && b.turn == turn && b.text == text
  }

  function TimesAsked(blocks: seq<Block>, turn: string, text: string): nat {
    if blocks == [] then 0
    else TimesAsked(blocks[..|blocks| - 1], turn, text) + if Asks(blocks[|blocks| - 1], turn, text) then 1 else 0
  }

  /** The reference of a user block: which occurrence of its text in its turn it is. */
  function ReferenceOf(blocks: seq<Block>, i: nat): Reference
    requires i < |blocks|
  {
    Reference(blocks[i].turn, blocks[i].text, TimesAsked(blocks[..i + 1], blocks[i].turn, blocks[i].text))
  }

  lemma {:induction false} TimesAskedGrows(blocks: seq<Block>, i: nat, j: nat, turn: string, text: string)
    requires i <= j <= |blocks|
    ensures TimesAsked(blocks[..i], turn, text) <= TimesAsked(blocks[..j], turn, text)
  {
    if i < j {
      assert blocks[..j][..j - 1] == blocks[..j - 1];
      TimesAskedGrows(blocks, i, j - 1, turn, text);
    }
  }

  /** No two questions share a reference. */
  lemma ReferencesAreDistinct(blocks: seq<Block>, i: nat, j: nat)
    requires i < j < |blocks| && blocks[i].kind == User && blocks[j].kind == User
    ensures ReferenceOf(blocks, i) != ReferenceOf(blocks, j)
  {
    var turn, text := blocks[j].turn, blocks[j].text;
    TimesAskedGrows(blocks, i + 1, j, turn, text);
    assert blocks[..j + 1][..j] == blocks[..j];
  }

  ghost predicate RefersRight(refs: map<Reference, Key>, blocks: seq<Block>, n: nat)
    requires n <= |blocks|
  {
    && (forall i :: 0 <= i < n && blocks[i].kind == User ==>
      ReferenceOf(blocks, i) in refs && refs[ReferenceOf(blocks, i)] == blocks[i].segment)
    && (forall r :: r in refs ==> exists i :: 0 <= i < n && blocks[i].kind == User && r == ReferenceOf(blocks, i))
  }

  method FindQuestions(blocks: seq<Block>) returns (first: map<string, Key>, refs: map<Reference, Key>)
    ensures forall turn :: (if turn in first then first[turn] else TurnKey(turn)) == OpeningKey(blocks, turn)
    ensures RefersRight(refs, blocks, |blocks|)
  {
    first, refs := map[], map[];
    var counts: map<(string, string), nat> := map[];
    for n := 0 to |blocks|
      invariant forall turn :: FirstQuestion(blocks[..n], turn) == if turn in first then Some(first[turn]) else None
      invariant forall turn, text :: TimesAsked(blocks[..n], turn, text) == if (turn, text) in counts then counts[(turn, text)] else 0
      invariant RefersRight(refs, blocks, n)
    {
      var b := blocks[n];
      assert blocks[..n + 1][..n] == blocks[..n] && blocks[..n + 1][n] == b;
      if b.kind == User {
        if b.turn !in first {
          first := first[b.turn := b.segment];
        }
        var occurrence := (if (b.turn, b.text) in counts then counts[(b.turn, b.text)] else 0) + 1;
        counts := counts[(b.turn, b.text) := occurrence];
        var r := Reference(b.turn, b.text, occurrence);
        assert r == ReferenceOf(blocks, n);
        forall i | 0 <= i < n && blocks[i].kind == User ensures ReferenceOf(blocks, i) != r {
          ReferencesAreDistinct(blocks, i, n);
        }
        refs := refs[r := b.segment];
      }
    }
    assert blocks[..|blocks|] == blocks;
  }

  // ---------------------------------------------------------------- grouping

  ghost predicate GroupOf(grouped: map<Key, seq<Block>>, blocks: seq<Block>, k: Key) {
    var group := Filter(blocks, HasKey(k));
    if k in grouped then grouped[k] == group && group != [] else group == []
  }

  ghost predicate GroupsAre(grouped: map<Key, seq<Block>>, blocks: seq<Block>) {
    forall k :: GroupOf(grouped, blocks, k)
  }

  function Group<K, V>(m: map<K, seq<V>>, k: K): seq<V> {
    if k in m then m[k] else []
  }

  ghost predicate TurnsAre(byTurn: map<string, seq<Key>>, blocks: seq<Block>) {
    forall turn :: Group(byTurn, turn) == OpenedBy(blocks, turn)
  }

  ghost predicate Grouped(grouped: map<Key, seq<Block>>, order: seq<Key>, byTurn: map<string, seq<Key>>,
                          blocks: seq<Block>) {
    && order == KeysOf(blocks)
    && (forall k :: k in grouped <==> k in order)
    && GroupsAre(grouped, blocks)
    && TurnsAre(byTurn, blocks)
  }

  /** Adding a block extends the group of its key and leaves the others. */
  lemma GroupsSnoc(grouped: map<Key, seq<Block>>, blocks: seq<Block>, b: Block)
    requires GroupsAre(grouped, blocks)
    ensures GroupsAre(grouped[b.segment := Group(grouped, b.segment) + [b]], blocks + [b])
  {
    var after, all := grouped[b.segment := Group(grouped, b.segment) + [b]], blocks + [b];
    assert all[..|all| - 1] == blocks;
    forall k ensures GroupOf(after, all, k) {
      assert GroupOf(grouped, blocks, k);
    }
  }

  lemma TurnsSnoc(byTurn: map<string, seq<Key>>, blocks: seq<Block>, b: Block)
    requires TurnsAre(byTurn, blocks)
    ensures TurnsAre(if b.segment in KeysOf(blocks) then byTurn else byTurn[b.turn := Group(byTurn, b.turn) + [b.segment]], blocks + [b])
  {
    var all := blocks + [b];
    assert all[..|all| - 1] == blocks;
    forall turn ensures OpenedBy(all, turn) ==
      if turn == b.turn && b.segment !in KeysOf(blocks) then OpenedBy(blocks, turn) + [b.segment] else OpenedBy(blocks, turn) {
    }
  }

  lemma GroupSnoc(grouped: map<Key, seq<Block>>, order: seq<Key>, byTurn: map<string, seq<Key>>, blocks: seq<Block>,
                  b: Block)
    requires Grouped(grouped, order, byTurn, blocks)
    ensures Grouped(grouped[b.segment := Group(grouped, b.segment) + [b]],
                    if b.segment in grouped then order else order + [b.segment],
                    if b.segment in grouped then byTurn else byTurn[b.turn := Group(byTurn, b.turn) + [b.segment]],
                    blocks + [b])
  {
    GroupsSnoc(grouped, blocks, b);
    TurnsSnoc(byTurn, blocks, b);
    hide GroupsAre, TurnsAre;
    assert (blocks + [b])[..|blocks + [b]| - 1] == blocks;
  }

  method GroupBlocks(blocks: seq<Block>, first: map<string, Key>)
    returns (grouped: map<Key, seq<Block>>, order: seq<Key>, byTurn: map<string, seq<Key>>)
    requires forall b :: b in blocks ==> IsPublic(b)
    requires forall turn :: (if turn in first then first[turn] else TurnKey(turn)) == OpeningKey(blocks, turn)
    ensures Grouped(grouped, order, byTurn, Rekeyed(blocks, |blocks|))
  {
    hide Grouped, OpeningKey;
    grouped, order, byTurn := map[], [], map[];
    NothingGrouped();
    var currentTurn: Option<string> := None;
    var current := NoKey;
    for n := 0 to |blocks|
      invariant Grouped(grouped, order, byTurn, Rekeyed(blocks, n))
      invariant n > 0 ==> currentTurn == Some(blocks[n - 1].turn) && current == Assigned(blocks, n - 1)
      invariant n == 0 ==> currentTurn == None
    {
      var b := blocks[n];
      assert b in blocks;
      if currentTurn != Some(b.turn) {
        currentTurn := Some(b.turn);
        current := if b.turn in first then first[b.turn] else TurnKey(b.turn);
      }
      if b.kind == User || b.segment.QuestionKey? {
        current := b.segment;
      }
      var placed := b.(segment := current);
      GroupSnoc(grouped, order, byTurn, Rekeyed(blocks, n), placed);
      if current !in grouped {
        order := order + [current];
        byTurn := byTurn[b.turn := Group(byTurn, b.turn) + [current]];
      }
      grouped := grouped[current := Group(grouped, current) + [placed]];
    }
  }

  lemma NothingGrouped()
    ensures Grouped(map[], [], map[], [])
  {
  }

  // ---------------------------------------------------------------- durable activity

  /**
   * The segment durable activity belongs to: the question it refers to, else the one it
   * names, and if that is not shown, the last segment its turn opened.
   */
  function Placement(d: Durable, b: Block, refs: map<Reference, Key>, order: seq<Key>, byTurn: seq<Key>): Option<Key> {
    var named := if d.question.Some? && d.question.value in refs then refs[d.question.value] else b.segment;
    if named in order then Some(named) else if byTurn != [] then Some(byTurn[|byTurn| - 1]) else None
  }

  function Place(d: Durable, refs: map<Reference, Key>, keyed: seq<Block>): Option<Block> {
    var b := PublicBlock(d.block);
    if b.None? || b.value.kind != Process then None
    else
      var k := Placement(d, b.value, refs, KeysOf(keyed), OpenedBy(keyed, b.value.turn));
      if k.None? then None else Some(b.value.(segment := k.value))
  }

  function Placed(durable: seq<Durable>, refs: map<Reference, Key>, keyed: seq<Block>): seq<Block> {
    if durable == [] then []
    else
      var front, last := Placed(durable[..|durable| - 1], refs, keyed), Place(durable[|durable| - 1], refs, keyed);
      if last.None? then front else front + [last.value]
  }

  lemma {:induction false} OpenedAreKeys(blocks: seq<Block>, turn: string)
    ensures forall k :: k in OpenedBy(blocks, turn) ==> k in KeysOf(blocks)
  {
    if blocks != [] {
      OpenedAreKeys(blocks[..|blocks| - 1], turn);
    }
  }

  /** Block i is the first of its segment, so its turn opened that segment. */
  ghost predicate OpensSegment(keyed: seq<Block>, i: int, turn: string) {
    0 <= i < |keyed| && keyed[i].turn == turn && forall j :: 0 <= j < i ==> keyed[j].segment != keyed[i].segment
  }

  /** The last segment a turn opened starts at block i. */
  ghost predicate OpensLast(keyed: seq<Block>, i: int, turn: string) {
    OpensSegment(keyed, i, turn) && forall j :: i < j < |keyed| ==> !OpensSegment(keyed, j, turn)
  }

  lemma {:induction false} OpenedExactly(keyed: seq<Block>, turn: string)
    ensures var opened' := OpenedBy(keyed, turn);
      if opened' == [] then forall i :: 0 <= i < |keyed| ==> !OpensSegment(keyed, i, turn)
      else exists i :: OpensLast(keyed, i, turn) && opened'[|opened'| - 1] == keyed[i].segment
  {
    if keyed != [] {
      var n := |keyed| - 1;
      var front := keyed[..n];
      OpenedExactly(front, turn);
      forall i ensures OpensSegment(keyed, i, turn) <==>
        OpensSegment(front, i, turn) || (i == n && keyed[n].turn == turn && keyed[n].segment !in KeysOf(front)) {
        OpensOneMore(keyed, i, turn);
      }
      assert forall i :: OpensSegment(front, i, turn) ==> 0 <= i < n && front[i] == keyed[i];
      hide OpensSegment, KeysOf;
      if OpensSegment(keyed, n, turn) {
        assert OpensLast(keyed, n, turn);
      } else if OpenedBy(front, turn) != [] {
        var i :| OpensLast(front, i, turn) && OpenedBy(front, turn)[|OpenedBy(front, turn)| - 1] == front[i].segment;
        assert OpensLast(keyed, i, turn);
      }
    }
  }

  lemma OpensOneMore(keyed: seq<Block>, i: int, turn: string)
    requires keyed != []
    ensures var n := |keyed| - 1; OpensSegment(keyed, i, turn) <==>
      OpensSegment(keyed[..n], i, turn) || (i == n && keyed[n].turn == turn && keyed[n].segment !in KeysOf(keyed[..n]))
  {
    var n := |keyed| - 1;
    var front := keyed[..n];
    KeysAreDistinct(front);
    hide KeysOf;
    if i == n {
      assert forall j :: 0 <= j < n ==> keyed[j] == front[j] && front[j] in front;
    }
  }

  /** Some block of the segment is shown. */
  ghost predicate IsShown(keyed: seq<Block>, k: Key) {
    exists b :: b in keyed && b.segment == k
  }

  /** Activity that refers to a question lands in the segment of that question. */
  lemma QuestionDecides(d: Durable, refs: map<Reference, Key>, blocks: seq<Block>, i: nat)
    requires RefersRight(refs, blocks, |blocks|) && i < |blocks| && blocks[i].kind == User
    requires d.question == Some(ReferenceOf(blocks, i)) && PublicBlock(d.block).Some? && PublicBlock(d.block).value.kind == Process
    ensures Place(d, refs, Rekeyed(blocks, |blocks|)) == Some(PublicBlock(d.block).value.(segment := blocks[i].segment))
  {
    hide PublicBlock, ReferenceOf, Place, KeysOf, OpenedBy;
    var keyed := Rekeyed(blocks, |blocks|);
    assert keyed[i] in keyed && keyed[i].segment == blocks[i].segment;
    KnownDecides(d, refs, keyed);
  }

  lemma KnownDecides(d: Durable, refs: map<Reference, Key>, keyed: seq<Block>)
    requires d.question.Some? && d.question.value in refs && IsShown(keyed, refs[d.question.value])
    requires PublicBlock(d.block).Some? && PublicBlock(d.block).value.kind == Process
    ensures Place(d, refs, keyed) == Some(PublicBlock(d.block).value.(segment := refs[d.question.value]))
  {
    KeysAreDistinct(keyed);
    hide PublicBlock, KeysOf, OpenedBy;
  }

  /**
   * Activity that refers to no known question lands in the segment it names, if shown, else
   * in the last segment its turn opened, and nowhere exactly if its turn opened none.
   */
  lemma ElseNameOrTurnDecides(d: Durable, refs: map<Reference, Key>, keyed: seq<Block>)
    requires d.question.None? || d.question.value !in refs
    requires PublicBlock(d.block).Some? && PublicBlock(d.block).value.kind == Process
    ensures var b := PublicBlock(d.block).value; var placed := Place(d, refs, keyed);
      && (IsShown(keyed, b.segment) ==> placed == Some(b))
      && (!IsShown(keyed, b.segment) ==>
        && (placed.None? <==> forall i :: 0 <= i < |keyed| ==> !OpensSegment(keyed, i, b.turn))
        && (placed.Some? ==> exists i :: OpensLast(keyed, i, b.turn) && placed == Some(b.(segment := keyed[i].segment))))
  {
    hide PublicBlock;
    var b := PublicBlock(d.block).value;
    KeysAreDistinct(keyed);
    OpenedExactly(keyed, b.turn);
    assert b.segment in KeysOf(keyed) <==> IsShown(keyed, b.segment);
    assert b.(segment := b.segment) == b;
  }

  /** What is placed is exactly what has a place. */
  lemma {:induction false} PlacedExactly(durable: seq<Durable>, refs: map<Reference, Key>, keyed: seq<Block>, b: Block)
    ensures b in Placed(durable, refs, keyed) <==> exists d :: d in durable && Place(d, refs, keyed) == Some(b)
  {
    hide Place;
    if durable != [] {
      PlacedExactly(durable[..|durable| - 1], refs, keyed, b);
      assert durable == durable[..|durable| - 1] + [durable[|durable| - 1]];
    }
  }

  /** Durable activity is only ever placed in a shown segment, as a process block. */
  lemma {:induction false} PlacedIsShown(durable: seq<Durable>, refs: map<Reference, Key>, keyed: seq<Block>)
    ensures forall b :: b in Placed(durable, refs, keyed) ==> b.kind == Process && b.segment in KeysOf(keyed)
  {
    hide PublicBlock;
    if durable != [] {
      var d := durable[|durable| - 1];
      PlacedIsShown(durable[..|durable| - 1], refs, keyed);
      if PublicBlock(d.block).Some? {
        OpenedAreKeys(keyed, PublicBlock(d.block).value.turn);
      }
    }
  }

  // ---------------------------------------------------------------- projection

  function TurnText(blocks: seq<Block>): string {
    if blocks == [] then ""
    else
      if |blocks| == 1 then Marked(blocks[0]) else Marked(blocks[0]) + "\n\n" + TurnText(blocks[1..])
  }

  function Marked(b: Block): string {
    (if b.kind == User then "› " else "• ") + b.text
  }

  /** Texts of blocks are joined by blank lines, each under the mark of who says it. */
  lemma {:induction false} TextsJoin(a: seq<Block>, b: seq<Block>)
    requires a != [] && b != []
    ensures TurnText(a + b) == TurnText(a) + "\n\n" + TurnText(b)
    ensures |b| == 1 ==> TurnText(b) == (if b[0].kind == User then "› " else "• ") + b[0].text
  {
    assert (a + b)[0] == a[0] && (a + b)[1..] == a[1..] + b;
    assert TurnText(a + b) == Marked(a[0]) + "\n\n" + TurnText(a[1..] + b);
    if |a| > 1 {
      TextsJoin(a[1..], b);
      assert TurnText(a) == Marked(a[0]) + "\n\n" + TurnText(a[1..]);
      hide TurnText, Marked;
      Regroup(Marked(a[0]), "\n\n", TurnText(a[1..]), TurnText(b));
    } else {
      assert a[1..] + b == b;
    }
  }

  lemma Regroup(a: string, sep: string, b: string, c: string)
    ensures a + sep + (b + sep + c) == (a + sep + b) + sep + c
  {
  }

  /** blocks is a merge of live and durable activity of one segment. */
  ghost predicate IsMergeOf(blocks: seq<Block>, current: seq<Block>, durable: seq<Block>) {
    if durable == [] then blocks == current
    else exists merged ::
      && MergedProcess(merged, Filter(current, ProcessBlock()), durable)
      && blocks == Filter(current[..Anchor(current)], OtherBlock()) + merged + Filter(current[Anchor(current)..], OtherBlock())
  }

  /** Each shown key once, in order of appearance, with exactly its blocks and its durable activity. */
  ghost predicate Projects(segments: seq<Segment>, keyed: seq<Block>, placed: seq<Block>) {
    var keys := KeysOf(keyed);
    && |segments| == |keys|
    && forall i :: 0 <= i < |keys| ==>
         && segments[i].key == keys[i] && segments[i].text == TurnText(segments[i].blocks)
         && IsMergeOf(segments[i].blocks, Filter(keyed, HasKey(keys[i])), Filter(placed, HasKey(keys[i])))
  }

  method ProjectMessageBlocks(values: seq<Block>, durable: seq<Durable>)
    returns (segments: seq<Segment>, ghost refs: map<Reference, Key>)
    ensures var blocks := PublicBlocks(values); var keyed := Rekeyed(blocks, |blocks|);
      RefersRight(refs, blocks, |blocks|) && Projects(segments, keyed, Placed(durable, refs, keyed))
    ensures durable == [] ==> Projects(segments, Rekeyed(PublicBlocks(values), |PublicBlocks(values)|), [])
  {
    hide Grouped, RefersRight, OpeningKey, Projects, Placed;
    var blocks := PublicBlocks(values);
    var first, questions := FindQuestions(blocks);
    refs := questions;
    var grouped, order, byTurn := GroupBlocks(blocks, first);
    ghost var keyed := Rekeyed(blocks, |blocks|);
    GroupedFacts(grouped, order, byTurn, keyed);
    var placed := PlaceDurable(durable, questions, order, byTurn, keyed);
    segments := MergeSegments(grouped, order, placed, keyed);
    NothingPlaced(questions, keyed);
  }

  lemma NothingPlaced(refs: map<Reference, Key>, keyed: seq<Block>)
    ensures Placed([], refs, keyed) == []
  {
  }

  method PlaceDurable(durable: seq<Durable>, refs: map<Reference, Key>, order: seq<Key>, byTurn: map<string, seq<Key>>,
                      ghost keyed: seq<Block>)
    returns (placed: seq<Block>)
    requires order == KeysOf(keyed)
    requires forall turn :: Group(byTurn, turn) == OpenedBy(keyed, turn)
    ensures placed == Placed(durable, refs, keyed)
  {
    hide KeysOf, OpenedBy, PublicBlock, Placement;
    placed := [];
    for n := 0 to |durable|
      invariant placed == Placed(durable[..n], refs, keyed)
    {
      assert durable[..n + 1][..n] == durable[..n] && durable[..n + 1][n] == durable[n];
      var b := PublicBlock(durable[n].block);
      if b.Some? && b.value.kind == Process {
        var k := Placement(durable[n], b.value, refs, order, Group(byTurn, b.value.turn));
        if k.Some? {
          placed := placed + [b.value.(segment := k.value)];
        }
      }
    }
    assert durable[..|durable|] == durable;
  }

  method MergeSegments(grouped: map<Key, seq<Block>>, order: seq<Key>, placed: seq<Block>, ghost keyed: seq<Block>)
    returns (segments: seq<Segment>)
    requires order == KeysOf(keyed)
    requires forall i :: 0 <= i < |order| ==>
      order[i] in grouped && grouped[order[i]] == Filter(keyed, HasKey(order[i])) && grouped[order[i]] != []
    ensures Projects(segments, keyed, placed)
  {
    hide IsMergeOf, KeysOf, TurnText, Filter;
    segments := [];
    for n := 0 to |order|
      invariant |segments| == n
      invariant forall i :: 0 <= i < n ==>
        && segments[i].key == order[i] && segments[i].text == TurnText(segments[i].blocks)
        && IsMergeOf(segments[i].blocks, Filter(keyed, HasKey(order[i])), Filter(placed, HasKey(order[i])))
    {
      var merged, _ := MergeSegment(grouped[order[n]], Filter(placed, HasKey(order[n])));
      var text := TurnText(merged);
      TextIsNotEmpty(merged);
      if text != "" {
        segments := segments + [Segment(order[n], text, merged)];
      }
    }
  }

  method MergeSegment(current: seq<Block>, durable: seq<Block>) returns (blocks: seq<Block>, ghost merged: seq<Block>)
    requires current != []
    ensures IsMergeOf(blocks, current, durable) && blocks != []
  {
    blocks, merged := MergeTurnActivity(current, durable);
  }

  // ---------------------------------------------------------------- nothing unsettled is lost

  lemma {:induction false} PublicDistinctIds(values: seq<Block>)
    requires DistinctIds(values)
    ensures DistinctIds(PublicBlocks(values))
    ensures forall b :: b in PublicBlocks(values) ==> exists v :: v in values && v.id == b.id
  {
    if values != [] {
      var front, last := values[..|values| - 1], values[|values| - 1];
      PublicDistinctIds(front);
      assert values == front + [last];
      forall b | b in PublicBlocks(front) ensures b.id != last.id {
        var v :| v in front && v.id == b.id;
      }
    }
  }

  /** What must be shown of one segment is in its merge. */
  lemma MergeShows(blocks: seq<Block>, current: seq<Block>, durable: seq<Block>, b: Block)
    requires IsMergeOf(blocks, current, durable) && DistinctIds(current)
    requires forall d :: d in durable ==> d.kind == Process
    requires b in current && (b.kind == Process ==> ProcessStatus(b) in UNSETTLED)
    ensures b in blocks
  {
    hide MergedProcess, DistinctIds, Anchor, Filter, ProcessStatus;
    if durable != [] {
      var merged :| MergedProcess(merged, Filter(current, ProcessBlock()), durable)
        && blocks == Filter(current[..Anchor(current)], OtherBlock()) + merged + Filter(current[Anchor(current)..], OtherBlock());
      FilterMembers(current, ProcessBlock());
      FilterMembers(current, OtherBlock());
      if b.kind == Process {
        var live := Filter(current, ProcessBlock());
        FilterDistinctIds(current, ProcessBlock());
        var i :| 0 <= i < |live| && live[i] == b;
        UnsettledSurvives(merged, live, durable, i);
      } else {
        MergeKeepsConversation(current, durable, merged, blocks);
        FilterMembers(blocks, OtherBlock());
      }
    }
  }

  /**
   * A whole history of blocks with distinct ids shows every block that is not a process
   * block, and every unsettled one that is, in the segment of its key.
   */
  lemma HistoryShows(segments: seq<Segment>, keyed: seq<Block>, placed: seq<Block>, b: Block)
    requires Projects(segments, keyed, placed) && DistinctIds(keyed) && forall d :: d in placed ==> d.kind == Process
    requires b in keyed && (b.kind == Process ==> ProcessStatus(b) in UNSETTLED)
    ensures exists i :: 0 <= i < |segments| && segments[i].key == b.segment && b in segments[i].blocks
  {
    hide KeysOf, TurnText, IsMergeOf, ProcessStatus, DistinctIds;
    KeysAreDistinct(keyed);
    var keys := KeysOf(keyed);
    assert b.segment in keys;
    var i :| 0 <= i < |keys| && keys[i] == b.segment;
    var has := HasKey(keys[i]);
    FilterMembers(keyed, has);
    FilterMembers(placed, has);
    FilterDistinctIds(keyed, has);
    MergeShows(segments[i].blocks, Filter(keyed, has), Filter(placed, has), b);
  }

  lemma TextIsNotEmpty(blocks: seq<Block>)
    requires blocks != []
    ensures TurnText(blocks) != ""
  {
  }

  lemma GroupedFacts(grouped: map<Key, seq<Block>>, order: seq<Key>, byTurn: map<string, seq<Key>>, keyed: seq<Block>)
    requires Grouped(grouped, order, byTurn, keyed)
    ensures order == KeysOf(keyed)
    ensures forall i :: 0 <= i < |order| ==>
      order[i] in grouped && grouped[order[i]] == Filter(keyed, HasKey(order[i])) && grouped[order[i]] != []
    ensures forall turn :: Group(byTurn, turn) == OpenedBy(keyed, turn)
  {
    forall i | 0 <= i < |order| ensures order[i] in grouped && grouped[order[i]] == Filter(keyed, HasKey(order[i]))
      && grouped[order[i]] != [] {
      assert GroupOf(grouped, keyed, order[i]);
    }
  }

  /**
   * Without durable activity the segments partition the public blocks: the keys are
   * distinct, no segment is empty, and every block is in the segment of its key, in order.
   */
  lemma SegmentsPartition(segments: seq<Segment>, keyed: seq<Block>)
    requires Projects(segments, keyed, [])
    ensures forall i, j :: 0 <= i < j < |segments| ==> segments[i].key != segments[j].key
    ensures forall i :: 0 <= i < |segments| ==>
      segments[i].blocks == Filter(keyed, HasKey(segments[i].key)) && segments[i].blocks != []
    ensures forall b :: b in keyed ==> exists i :: 0 <= i < |segments| && segments[i].key == b.segment && b in segments[i].blocks
  {
    hide KeysOf, TurnText;
    KeysAreDistinct(keyed);
    var keys := KeysOf(keyed);
    forall i | 0 <= i < |keys| ensures segments[i].blocks == Filter(keyed, HasKey(keys[i])) && segments[i].blocks != [] {
      FilterMembers(keyed, HasKey(keys[i]));
      assert keys[i] in keys;
    }
    forall b | b in keyed ensures exists i :: 0 <= i < |segments| && segments[i].key == b.segment && b in segments[i].blocks {
      assert b.segment in keys;
      var i :| 0 <= i < |keys| && keys[i] == b.segment;
      FilterMembers(keyed, HasKey(keys[i]));
    }
  }
}
