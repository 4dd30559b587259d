// Rollout files rewritten in place: when the incremental index is still right.
module RolloutRewrites {
  import opened Common
  import opened Numerals
  import opened RolloutEvents
  import opened Rollout
  import opened RolloutMeaning

  const PATCH := Event("event_msg", Some(Payload("patch_apply_end", "t", "", "", "", "", "")))

  /** A decoder that knows one line only, as a patch of turn t. */
  function Picks(text: Bytes): Decoder {
    (raw: Bytes) => if raw == text then Some(PATCH) else None
  }

  lemma {:induction false} LineAt(decode: Decoder, bytes: Bytes, pos: nat, i: nat)
    requires pos <= |bytes| && pos <= i < CompleteEnd(bytes, pos)
    ensures exists l :: l in LinesFrom(decode, bytes, pos) && l.start <= i < l.end
    decreases |bytes| - pos
  {
    hide LinesFrom, CompleteEnd, StripNewlines;
    ScanStep(decode, bytes, pos);
    var end := ReadlineEnd(bytes, pos);
    var first, rest := Line(pos, end, decode(StripNewlines(bytes[pos..end]))), LinesFrom(decode, bytes, end);
    if i < end {
      assert first in [first] + rest;
    } else {
      LineAt(decode, bytes, end, i);
      var l :| l in rest && l.start <= i < l.end;
      assert l in [first] + rest;
    }
  }

  lemma PatchIsFiled(ls: seq<Line>)
    requires ls != [] && LastEvent(ls) == Some(PATCH)
    ensures FilingOf(ls).turn == "t"
  {
    assert Strip("t") == "t" by { assert StripRight("t") == "t" && StripLeft("t") == "t"; }
  }

  lemma {:induction false} PatchesAreFiled(ls: seq<Line>, l: Line)
    requires l in ls && l.event == Some(PATCH)
    ensures exists r :: r in Filed(ls, "t") && r.start == l.start && r.end == l.end
  {
    var last := ls[|ls| - 1];
    assert ls == Front(ls) + [last];
    if l == last {
      PatchIsFiled(ls);
      assert Record(last.start, last.end, FilingOf(ls).question) in Filed(ls, "t");
    } else {
      hide FilingOf;
      PatchesAreFiled(Front(ls), l);
      var r :| r in Filed(Front(ls), "t") && r.start == l.start && r.end == l.end;
      assert r in Filed(ls, "t");
    }
  }

  lemma {:induction false} FiledAreLines(ls: seq<Line>, r: Record)
    requires r in Filed(ls, "t")
    ensures exists l :: l in ls && l.event.Some? && r.start == l.start && r.end == l.end
  {
    var last := ls[|ls| - 1];
    assert ls == Front(ls) + [last];
    if r in Filed(Front(ls), "t") {
      FiledAreLines(Front(ls), r);
      var l :| l in Front(ls) && l.event.Some? && r.start == l.start && r.end == l.end;
      assert l in ls;
    } else {
      assert last in ls && last.event.Some?;
    }
  }

  lemma StripOneLine(raw: Bytes)
    requires raw != [] && raw[|raw| - 1] == NEWLINE && forall i :: 0 <= i < |raw| - 1 ==> raw[i] != NEWLINE
    ensures raw == StripNewlines(raw) + [NEWLINE]
  {
    var front := raw[..|raw| - 1];
    assert StripNewlines(front) == front;
  }

  lemma PatchIsRecorded(decode: Decoder, file: File, l: Line)
    requires l in LinesFrom(decode, file.bytes, 0) && l.event == Some(PATCH)
    ensures exists r :: r in GetOr(FullScan(decode, file).records, "t", []) && r.start == l.start && r.end == l.end
  {
    hide LinesFrom, FullScan, Filed, ReadsBack, ActiveAfter, FiledItem;
    PatchesAreFiled(LinesFrom(decode, file.bytes, 0), l);
    IndexMeansFile(decode, file);
  }

  lemma RecordIsALine(text: Bytes, file: File, r: Record)
    requires r in GetOr(FullScan(Picks(text), file).records, "t", [])
    ensures r.start < r.end <= |file.bytes| && IsOneLine(file.bytes, Line(r.start, r.end, None))
    ensures StripNewlines(file.bytes[r.start..r.end]) == text
  {
    var ls := LinesFrom(Picks(text), file.bytes, 0);
    IndexMeansFile(Picks(text), file);
    LinesAreLines(Picks(text), file.bytes, 0);
    hide LinesFrom, FullScan, Filed, ReadsBack, ActiveAfter, FiledItem, StripNewlines;
    FiledAreLines(ls, r);
  }

  lemma SameText(a: Bytes, b: Bytes, start: nat, end: nat, i: nat)
    requires start <= i < end <= |a| == |b| && StripNewlines(a[start..end]) == StripNewlines(b[start..end])
    requires IsOneLine(a, Line(start, end, None)) && IsOneLine(b, Line(start, end, None))
    ensures a[i] == b[i]
  {
    hide StripNewlines;
    StripOneLine(a[start..end]);
    StripOneLine(b[start..end]);
    assert a[i] == a[start..end][i - start] && b[i] == b[start..end][i - start];
  }

  lemma PickedLine(bytes: Bytes, l: Line)
    requires l.start <= l.end <= |bytes| && l in LinesFrom(Picks(StripNewlines(bytes[l.start..l.end])), bytes, 0)
    ensures l.event == Some(PATCH)
  {
    LinesAreLines(Picks(StripNewlines(bytes[l.start..l.end])), bytes, 0);
    hide StripNewlines, LinesFrom, IsOneLine;
  }

  lemma SpanOnly(bytes: Bytes, l: Line)
    requires IsOneLine(bytes, l)
    ensures IsOneLine(bytes, Line(l.start, l.end, None))
  {
  }

  lemma PickedRecord(a: File, l: Line, text: Bytes) returns (r: Record)
    requires l.start <= l.end <= |a.bytes| && text == StripNewlines(a.bytes[l.start..l.end])
    requires l in LinesFrom(Picks(text), a.bytes, 0)
    ensures r in GetOr(FullScan(Picks(text), a).records, "t", []) && r.start == l.start && r.end == l.end
  {
    PickedLine(a.bytes, l);
    hide StripNewlines, LinesFrom, FullScan, Picks, IsOneLine, GetOr;
    PatchIsRecorded(Picks(text), a, l);
    r :| r in GetOr(FullScan(Picks(text), a).records, "t", []) && r.start == l.start && r.end == l.end;
  }

  /** Two indexes that agree for the decoder of a line of one file have that line in both. */
  lemma SameLine(a: File, b: File, l: Line, i: nat, text: Bytes)
    requires |a.bytes| == |b.bytes| && l.start <= i < l.end <= |a.bytes| && IsOneLine(a.bytes, l)
    requires text == StripNewlines(a.bytes[l.start..l.end])
    requires l in LinesFrom(Picks(text), a.bytes, 0) && FullScan(Picks(text), a) == FullScan(Picks(text), b)
    ensures a.bytes[i] == b.bytes[i]
  {
    SpanOnly(a.bytes, l);
    hide StripNewlines, LinesFrom, FullScan, Picks, IsOneLine, GetOr;
    var r := PickedRecord(a, l, text);
    RecordIsALine(text, b, r);
    SameText(a.bytes, b.bytes, l.start, l.end, i);
  }

  /**
   * A change that keeps the inode and the indexed length is answered rightly, whatever its
   * lines mean, exactly if the indexed bytes are still there.
   */
  lemma RightExactlyIfIntact(before: File, now: File)
    requires before.identity == now.identity && CompleteEnd(before.bytes, 0) <= |now.bytes|
    ensures (forall decode: Decoder :: FullScan(decode, Spliced(before, now)) == FullScan(decode, now))
        <==> before.bytes[..CompleteEnd(before.bytes, 0)] == now.bytes[..CompleteEnd(before.bytes, 0)]
  {
    hide FullScan, LinesFrom, IsOneLine, StripNewlines;
    var c, whole := CompleteEnd(before.bytes, 0), Spliced(before, now);
    SplicedIsFile(Picks([]), before, now);
    if forall decode: Decoder :: FullScan(decode, whole) == FullScan(decode, now) {
      forall i | 0 <= i < c ensures whole.bytes[i] == now.bytes[i] {
        EndOfSplice(before, now);
        LineAt(Picks([]), whole.bytes, 0, i);
        var any :| any in LinesFrom(Picks([]), whole.bytes, 0) && any.start <= i < any.end;
        LinesAreLines(Picks([]), whole.bytes, 0);
        var decode := Picks(StripNewlines(whole.bytes[any.start..any.end]));
        LineAt(decode, whole.bytes, 0, i);
        var l :| l in LinesFrom(decode, whole.bytes, 0) && l.start <= i < l.end;
        LinesAreLines(decode, whole.bytes, 0);
        OneLineAt(whole.bytes, any, l, i);
        assert FullScan(decode, whole) == FullScan(decode, now);
        SameLine(whole, now, l, i, StripNewlines(whole.bytes[any.start..any.end]));
      }
      assert whole.bytes[..c] == now.bytes[..c] == before.bytes[..c];
    }
  }

  lemma OneLineAt(bytes: Bytes, k: Line, l: Line, i: nat)
    requires k.start <= i < k.end <= |bytes| && l.start <= i < l.end <= |bytes| && IsOneLine(bytes, k)
    requires IsOneLine(bytes, l)
    ensures k.start == l.start && k.end == l.end
  {
  }

  lemma EndOfSplice(before: File, now: File)
    requires CompleteEnd(before.bytes, 0) <= |now.bytes|
    ensures CompleteEnd(before.bytes, 0) <= CompleteEnd(Spliced(before, now).bytes, 0)
  {
    var c := CompleteEnd(before.bytes, 0);
    var decode := Picks([]);
    PartialLineHeldBack(decode, before.bytes);
    LinesResume(decode, before.bytes[..c], Spliced(before, now).bytes, 0);
  }

  lemma OneLine(decode: Decoder, identity: Identity, x: bv8)
    requires x != NEWLINE
    ensures CompleteEnd([x, NEWLINE], 0) == 2 && LinesFrom(decode, [x, NEWLINE], 0) == [Line(0, 2, decode([x]))]
    ensures decode([x]) == Some(PATCH) ==> "t" in FullScan(decode, File(identity, [x, NEWLINE])).records
    ensures decode([x]) == None ==> FullScan(decode, File(identity, [x, NEWLINE])).records == map[]
  {
    var bytes := [x, NEWLINE];
    StripOneLine(bytes);
    assert ReadlineEnd(bytes, 1) == 2 && ReadlineEnd(bytes, 2) == 2;
    assert bytes[0..2] == bytes && StripNewlines(bytes) == [x];
    ScanStep(decode, bytes, 0);
    ScanStep(decode, bytes, 2);
    var ls := LinesFrom(decode, bytes, 0);
    assert ls[..0] == [];
    FullScanIsScan(decode, File(identity, bytes));
    if decode([x]) == Some(PATCH) {
      PatchIsRecorded(decode, File(identity, bytes), ls[0]);
    } else if decode([x]) == None {
      assert Scan(Empty(identity), ls) == Step(Empty(identity), ls[0]);
    }
  }

  lemma RewriteFacts(decode: Decoder, before: File, now: File)
    requires decode == Picks([1]) && before.bytes == [1, NEWLINE] && now.bytes == [2, NEWLINE] && before.identity == now.identity
    ensures FullScan(decode, before) != FullScan(decode, now)
    ensures FullScan(decode, before).offset == CompleteEnd(before.bytes, 0) == 2 && FullScan(decode, before).identity == now.identity
    ensures Spliced(before, now) == before
  {
    OneLine(decode, before.identity, 1);
    OneLine(decode, before.identity, 2);
    FullScanHeader(decode, before);
    hide FullScan, CompleteEnd, LinesFrom, StripNewlines;
    assert before.bytes[..2] == before.bytes;
  }

  /** A file rewritten in place, with its inode and length, is answered as it was before. */
  method UnnoticedRewrite(path: string, identity: Identity) returns (index: ActivityIndex, answer: Option<IndexState>)
    ensures answer.Some? && answer.value == FullScan(index.decode, File(identity, [1, NEWLINE]))
    ensures answer.value != FullScan(index.decode, File(identity, [2, NEWLINE]))
  {
    var before, now := File(identity, [1, NEWLINE]), File(identity, [2, NEWLINE]);
    index := new ActivityIndex(Picks([1]));
    RewriteFacts(index.decode, before, now);
    hide *;
    var first := index.UpdateIndex(path, Some(before));
    assert index.seen[path] == before;
    answer := index.UpdateIndex(path, Some(now));
  }
}
