// Budgeted pages of a projected history and the cursors that lead from one to the next.
module HistoryPaging {
  import opened Common
  import opened Numerals

  // ---------------------------------------------------------------- cursors

  datatype CursorError = Invalid | Expired | BothGiven | OutOfRange
  datatype Decoded = Position(before: nat) | Bad(error: CursorError)

  const REVISION_LENGTH := 16

  function LowerChar(c: char): char {
    if 'A' <= c <= 'Z' then 'a' + (c - 'A') else c
  }

  function Lower(s: string): string {
    seq(|s|, i requires 0 <= i < |s| => LowerChar(s[i]))
  }

  predicate AllHex(s: string) {
    forall c :: c in s ==> IsDigit(c)
  }

  /** A revision as the digest prints it: sixteen lower-case hexadecimal digits. */
  predicate IsRevision(s: string) {
    |s| == REVISION_LENGTH && AllHex(s)
  }

  function HistoryCursor(revision: string, before: nat): (s: string)
    ensures s != ""
  {
    revision + "." + Print(before, Hexadecimal)
  }

  function DecodeCursor(cursor: string, revision: string): Decoded {
    var s := Lower(Strip(cursor));
    if |s| < REVISION_LENGTH + 2 || s[REVISION_LENGTH] != '.' || !AllHex(s[..REVISION_LENGTH]) || !AllHex(s[REVISION_LENGTH + 1..])
    then Bad(Invalid)
    else if s[..REVISION_LENGTH] != revision then Bad(Expired)
    else
      var before := Read(s[REVISION_LENGTH + 1..], Hexadecimal, false);
      if before.None? then Bad(Invalid) else Position(before.value)
  }

  /** A printed cursor is read back as the same position, and under any other revision as expired. */
  lemma CursorRoundTrip(printed: string, before: nat, revision: string)
    requires IsRevision(printed)
    ensures DecodeCursor(HistoryCursor(printed, before), revision) == if revision == printed then Position(before) else Bad(Expired)
  {
    hide StripLeft, StripRight, Strip, Read, Print;
    var s, digits := HistoryCursor(printed, before), Print(before, Hexadecimal);
    assert forall i :: 0 <= i < |s| ==> s[i] in printed || s[i] == '.' || s[i] in digits;
    assert forall i :: 0 <= i < |s| ==> LowerChar(s[i]) == s[i];
    assert Lower(s) == s;
    assert IsDigit(s[0]) by { assert s[0] in printed; }
    assert IsDigit(s[|s| - 1]) by { assert s[|s| - 1] == digits[|digits| - 1]; }
    StripTrims(s);
    assert s[..REVISION_LENGTH] == printed && s[REVISION_LENGTH + 1..] == digits;
    ReadPrint(before, Hexadecimal, false);
  }

  // ---------------------------------------------------------------- windows

  function TotalChars(texts: seq<string>): nat {
    if texts == [] then 0 else |texts[0]| + TotalChars(texts[1..])
  }

  lemma {:induction false} TotalCharsAppend(a: seq<string>, b: seq<string>)
    ensures TotalChars(a + b) == TotalChars(a) + TotalChars(b)
  {
    if a == [] {
      assert a + b == b;
    } else {
      assert (a + b)[1..] == a[1..] + b;
      TotalCharsAppend(a[1..], b);
    }
  }

  predicate Fits(texts: seq<string>, start: nat, end: nat, budget: int)
    requires start <= end <= |texts|
  {
    end - start <= 1 || TotalChars(texts[start..end]) <= budget
  }

  lemma ShorterFits(texts: seq<string>, start: nat, later: nat, end: nat, budget: int)
    requires start <= later <= end <= |texts| && Fits(texts, start, end, budget)
    ensures Fits(texts, later, end, budget)
  {
    assert texts[start..end] == texts[start..later] + texts[later..end];
    TotalCharsAppend(texts[start..later], texts[later..end]);
  }

  /** The longest window ending at end, starting no earlier than from, that fits the budget. */
  ghost predicate LongestBack(texts: seq<string>, from: nat, start: nat, end: nat, budget: int) {
    && from <= start <= end <= |texts|
    && Fits(texts, start, end, budget)
    && (from < end ==> start < end)
    && forall k :: from <= k < start ==> !Fits(texts, k, end, budget)
  }

  datatype Page = Page(start: nat, end: nat, texts: seq<string>, olderCursor: string, newerCursor: string)
  datatype PageResult = Ok(page: Page) | Error(error: CursorError)

  /** The limit asked for, at least one and at most the largest page. */
  function PageLimit(limit: int, maxPageTurns: int): (n: nat)
    ensures n >= 1 && (1 <= limit <= maxPageTurns ==> n == limit) && (1 <= maxPageTurns < limit ==> n == maxPageTurns)
    ensures limit < 1 || maxPageTurns < 1 ==> n == 1
  {
    Max(1, Min(limit, maxPageTurns))
  }

  /** A full page further on, or the end. */
  function NewerPosition(total: nat, end: nat, limit: nat): (position: nat)
    ensures position <= total && (position == total || position == end + limit)
    ensures end + limit <= total ==> position == end + limit
  {
    Min(total, end + limit)
  }

  ghost predicate IsPage(page: Page, texts: seq<string>, revision: string, pageLimit: nat) {
    && page.start <= page.end <= |texts| && page.texts == texts[page.start..page.end]
    && page.olderCursor == (if page.start > 0 then HistoryCursor(revision, page.start) else "")
    && page.newerCursor == (if page.end < |texts| then HistoryCursor(revision, NewerPosition(|texts|, page.end, pageLimit)) else "")
  }

  /** The page before a cursor, or the newest one. */
  method PageBefore(texts: seq<string>, revision: string, cursor: string, pageLimit: nat, budget: int)
    returns (r: PageResult)
    requires pageLimit >= 1
    ensures cursor != "" && DecodeCursor(cursor, revision).Bad? ==> r == Error(DecodeCursor(cursor, revision).error)
    ensures cursor == "" || DecodeCursor(cursor, revision).Position? ==>
      var end: nat := if cursor == "" then |texts| else Min(|texts|, DecodeCursor(cursor, revision).before);
      r.Ok? && IsPage(r.page, texts, revision, pageLimit) && r.page.end == end &&
      LongestBack(texts, Max(0, end - pageLimit), r.page.start, end, budget)
  {
    hide DecodeCursor, TotalChars, Fits;
    var end: nat := |texts|;
    if cursor != "" {
      match DecodeCursor(cursor, revision)
      case Bad(e) => return Error(e);
      case Position(before) => end := Min(|texts|, before);
    }
    var start := TrimFront(texts, Max(0, end - pageLimit), end, budget);
    r := Ok(MakePage(texts, revision, start, end, pageLimit));
  }

  /** Drop turns from the front until the rest fits the budget or is a single turn. */
  method TrimFront(texts: seq<string>, from: nat, end: nat, budget: int) returns (start: nat)
    requires from <= end <= |texts|
    ensures LongestBack(texts, from, start, end, budget)
  {
    start := from;
    while end - start > 1 && TotalChars(texts[start..end]) > budget
      invariant from <= start <= end && (from < end ==> start < end)
      invariant forall k :: from <= k < start ==> !Fits(texts, k, end, budget)
    {
      start := start + 1;
    }
  }

  function MakePage(texts: seq<string>, revision: string, start: nat, end: nat, pageLimit: nat): (page: Page)
    requires start <= end <= |texts|
    ensures IsPage(page, texts, revision, pageLimit)
  {
    Page(start, end, texts[start..end], if start > 0 then HistoryCursor(revision, start) else "",
         if end < |texts| then HistoryCursor(revision, NewerPosition(|texts|, end, pageLimit)) else "")
  }

  /** The last trim of an around page dropped the end farther from the target, the front on a tie. */
  ghost predicate TrimmedLast(texts: seq<string>, start: nat, end: nat, target: nat, budget: int)
    requires start <= end <= |texts|
  {
    || (start > 0 && !Fits(texts, start - 1, end, budget) && target - (start - 1) >= end - 1 - target)
    || (end < |texts| && !Fits(texts, start, end + 1, budget) && target - start < end - target)
  }

  /** The window is part of the full page that has the target in its middle, as far as the ends of the history allow. */
  predicate InCentred(start: nat, end: nat, target: int, total: nat, pageLimit: nat) {
    var first := Max(0, Min(target - pageLimit / 2, total - pageLimit));
    first <= start <= end <= Min(total, first + pageLimit)
  }

  /** The page around an index: it holds the index whatever the budget trims from both ends. */
  method PageAround(texts: seq<string>, revision: string, target: int, pageLimit: nat, budget: int)
    returns (r: PageResult)
    requires pageLimit >= 1
    ensures !(0 <= target < |texts|) ==> r == Error(OutOfRange)
    ensures 0 <= target < |texts| ==>
      && r.Ok? && InCentred(r.page.start, r.page.end, target, |texts|, pageLimit) && IsPage(r.page, texts, revision, pageLimit)
      && r.page.start <= target < r.page.end && r.page.end - r.page.start <= pageLimit
      && Fits(texts, r.page.start, r.page.end, budget)
      && (r.page.end - r.page.start == Min(pageLimit, |texts|) || TrimmedLast(texts, r.page.start, r.page.end, target, budget))
  {
    if !(0 <= target < |texts|) {
      return Error(OutOfRange);
    }
    var start: nat := Max(0, target - pageLimit / 2);
    var end: nat := Min(|texts|, start + pageLimit);
    start := Max(0, end - pageLimit);
    while end - start > 1 && TotalChars(texts[start..end]) > budget
      invariant 0 <= start <= target < end <= |texts| && end - start <= pageLimit
      invariant InCentred(start, end, target, |texts|, pageLimit)
      invariant end - start == Min(pageLimit, |texts|) || TrimmedLast(texts, start, end, target, budget)
    {
      if target - start >= end - 1 - target {
        start := start + 1;
      } else {
        end := end - 1;
      }
    }
    r := Ok(MakePage(texts, revision, start, end, pageLimit));
  }

  /** Where the page before a cursor ends: at its position, or at the end of the history. */
  function PageEnd(total: nat, revision: string, cursor: string): (end: nat)
    requires cursor == "" || DecodeCursor(cursor, revision).Position?
    ensures end <= total && (cursor == "" ==> end == total)
    ensures cursor != "" ==> end == total || end == DecodeCursor(cursor, revision).before
    ensures cursor != "" && DecodeCursor(cursor, revision).before <= total ==> end == DecodeCursor(cursor, revision).before
  {
    if cursor == "" then total else Min(total, DecodeCursor(cursor, revision).before)
  }

  /**
   * One request for a page: an error for a cursor and an index together, for a bad cursor and
   * for an index out of range; else the longest page that fits and ends at the cursor or, without
   * one, at the end; or the page around the index.
   */
  method HistoryPage(texts: seq<string>, revision: string, limit: int, maxPageTurns: int, cursor: string,
                     around: Option<int>, budget: int)
    returns (r: PageResult)
    ensures cursor != "" && around.Some? <==> r == Error(BothGiven)
    ensures around.None? && cursor != "" && DecodeCursor(cursor, revision).Bad? ==>
      r == Error(DecodeCursor(cursor, revision).error)
    ensures around.None? && (cursor == "" || DecodeCursor(cursor, revision).Position?) ==>
      && r.Ok? && IsPage(r.page, texts, revision, PageLimit(limit, maxPageTurns))
      && r.page.end == PageEnd(|texts|, revision, cursor)
      && LongestBack(texts, Max(0, r.page.end - PageLimit(limit, maxPageTurns)), r.page.start, r.page.end, budget)
    ensures around.Some? && cursor == "" ==> (r == Error(OutOfRange) <==> !(0 <= around.value < |texts|))
    ensures around.Some? && cursor == "" && 0 <= around.value < |texts| ==>
      && r.Ok? && IsPage(r.page, texts, revision, PageLimit(limit, maxPageTurns))
      && r.page.start <= around.value < r.page.end && Fits(texts, r.page.start, r.page.end, budget)
      && InCentred(r.page.start, r.page.end, around.value, |texts|, PageLimit(limit, maxPageTurns))
  {
    hide TotalChars, InCentred;
    OnlyBothGiven(cursor, revision);
    if cursor != "" && around.Some? {
      return Error(BothGiven);
    }
    if around.Some? {
      r := PageAround(texts, revision, around.value, PageLimit(limit, maxPageTurns), budget);
    } else {
      r := PageBefore(texts, revision, cursor, PageLimit(limit, maxPageTurns), budget);
    }
  }

  lemma OnlyBothGiven(cursor: string, revision: string)
    ensures DecodeCursor(cursor, revision).Bad? ==> DecodeCursor(cursor, revision).error != BothGiven
  {
  }

  // ---------------------------------------------------------------- following olderCursor

  function Join(pages: seq<Page>): seq<string> {
    if pages == [] then [] else pages[0].texts + Join(pages[1..])
  }

  /** A page of the history within the budget, and not empty unless the history is. */
  ghost predicate GoodPage(p: Page, texts: seq<string>, revision: string, pageLimit: nat, budget: int) {
    && IsPage(p, texts, revision, pageLimit) && Fits(texts, p.start, p.end, budget)
    && (texts != [] ==> p.texts != [])
  }

  /** Good pages put in order that run on without a gap to the end of the history. */
  ghost predicate Chained(pages: seq<Page>, texts: seq<string>, revision: string, pageLimit: nat, budget: int) {
    && pages != [] && pages[0].start <= |texts| && Join(pages) == texts[pages[0].start..] && pages[|pages| - 1].end == |texts|
    && (forall p :: p in pages ==> GoodPage(p, texts, revision, pageLimit, budget))
    && (forall i :: 0 <= i < |pages| - 1 ==> pages[i].end == pages[i + 1].start)
  }

  lemma ChainStarts(p: Page, texts: seq<string>, revision: string, pageLimit: nat, budget: int)
    requires GoodPage(p, texts, revision, pageLimit, budget) && p.end == |texts|
    ensures Chained([p], texts, revision, pageLimit, budget)
  {
    hide Fits;
    assert [p][1..] == [] && Join([]) == [] && p.texts + [] == p.texts;
    assert texts[p.start..p.end] == texts[p.start..];
  }

  lemma JoinGrows(p: Page, pages: seq<Page>, texts: seq<string>)
    requires p.start <= p.end <= |texts| && p.texts == texts[p.start..p.end] && Join(pages) == texts[p.end..]
    ensures Join([p] + pages) == texts[p.start..]
  {
    assert ([p] + pages)[1..] == pages;
    assert texts[p.start..] == texts[p.start..p.end] + texts[p.end..];
  }

  lemma ChainGrows(p: Page, pages: seq<Page>, texts: seq<string>, revision: string, pageLimit: nat, budget: int)
    requires Chained(pages, texts, revision, pageLimit, budget) && p.end == pages[0].start
    requires GoodPage(p, texts, revision, pageLimit, budget)
    ensures Chained([p] + pages, texts, revision, pageLimit, budget)
  {
    JoinGrows(p, pages, texts);
    hide GoodPage, Join;
  }

  lemma ChainIsWhole(pages: seq<Page>, texts: seq<string>, revision: string, pageLimit: nat, budget: int)
    requires Chained(pages, texts, revision, pageLimit, budget) && pages[0].start == 0
    ensures Join(pages) == texts
  {
  }

  /**
   * Following olderCursor from the newest page ends, and the pages put back in order
   * are the whole history exactly once; each is non-empty and fits the budget.
   */
  method FollowOlder(texts: seq<string>, revision: string, limit: int, maxPageTurns: int, budget: int) returns (pages: seq<Page>)
    requires IsRevision(revision)
    ensures Join(pages) == texts && Chained(pages, texts, revision, PageLimit(limit, maxPageTurns), budget)
  {
    hide DecodeCursor, HistoryCursor, TotalChars, Fits, InCentred, PageLimit, PageEnd, Chained;
    ghost var pageLimit := PageLimit(limit, maxPageTurns);
    var r := HistoryPage(texts, revision, limit, maxPageTurns, "", None, budget);
    var page := r.page;
    pages := [page];
    ChainStarts(page, texts, revision, pageLimit, budget);
    while page.olderCursor != ""
      invariant pages != [] && pages[0] == page && IsPage(page, texts, revision, pageLimit)
      invariant Chained(pages, texts, revision, pageLimit, budget)
      decreases page.start
    {
      CursorRoundTrip(revision, page.start, revision);
      r := HistoryPage(texts, revision, limit, maxPageTurns, page.olderCursor, None, budget);
      ChainGrows(r.page, pages, texts, revision, pageLimit, budget);
      page := r.page;
      pages := [page] + pages;
    }
    ChainIsWhole(pages, texts, revision, pageLimit, budget);
  }

  /**
   * newerCursor is weaker: the page it leads to starts right where the last one ended,
   * or before, exactly when the turns up to its position fit the budget together.
   */
  lemma NewerIsGapless(texts: seq<string>, end: nat, next: nat, pageLimit: nat, budget: int)
    requires pageLimit >= 1 && end < |texts|
    requires LongestBack(texts, Max(0, NewerPosition(|texts|, end, pageLimit) - pageLimit), next,
      NewerPosition(|texts|, end, pageLimit), budget)
    ensures next <= end <==> Fits(texts, end, NewerPosition(|texts|, end, pageLimit), budget)
  {
    var position := NewerPosition(|texts|, end, pageLimit);
    if next <= end {
      ShorterFits(texts, next, end, position, budget);
    }
  }

  /** With two turns over budget together, the page after the first skips the second. */
  lemma NewerCanSkip()
    ensures var texts := ["a", "bb", "cc"]; LongestBack(texts, 1, 2, NewerPosition(3, 1, 2), 3) && !Fits(texts, 1, 3, 3)
  {
    var texts := ["a", "bb", "cc"];
    assert texts[1..3] == ["bb", "cc"] && ["bb", "cc"][1..] == ["cc"] && ["cc"][1..] == [];
  }
}
