// One page of the merged session history of several workstations.
module Workbench {
  import opened Common

  const PAGE_SIZE := 10
  const MAX_FETCH := 1000

  datatype Session = Session(id: string, updated: real)

  // ---------------------------------------------------------------- stable order

  ghost predicate Sorted(s: seq<Session>) {
    forall i, j :: 0 <= i < j < |s| ==> s[i].updated >= s[j].updated
  }

  /** Put x before everything that is not more recent. */
  function Insert(x: Session, s: seq<Session>): seq<Session> {
    if s == [] || x.updated >= s[0].updated then [x] + s else [s[0]] + Insert(x, s[1..])
  }

  /** Most recent first; equals keep their order. */
  function StableSort(s: seq<Session>): seq<Session> {
    if s == [] then [] else Insert(s[0], StableSort(s[1..]))
  }

  function UpdatedAt(updated: real): Session -> bool {
    (s: Session) => s.updated == updated
  }

  lemma {:induction false} InsertSorted(x: Session, s: seq<Session>)
    requires Sorted(s)
    ensures Sorted(Insert(x, s)) && |Insert(x, s)| == |s| + 1
    ensures forall y :: y in Insert(x, s) <==> y == x || y in s
  {
    if s != [] && x.updated < s[0].updated {
      var rest := Insert(x, s[1..]);
      InsertSorted(x, s[1..]);
      assert forall i :: 0 <= i < |rest| ==> rest[i] in rest;
    }
  }

  lemma FilterHead(x: Session, s: seq<Session>, p: Session -> bool)
    ensures Filter([x] + s, p) == (if p(x) then [x] else []) + Filter(s, p)
  {
    FilterAppend([x], s, p);
    assert [x][..0] == [];
  }

  lemma {:induction false} InsertStable(x: Session, s: seq<Session>, u: real)
    ensures Filter(Insert(x, s), UpdatedAt(u)) == Filter([x] + s, UpdatedAt(u))
  {
    hide Filter;
    var p := UpdatedAt(u);
    if s != [] && x.updated < s[0].updated {
      InsertStable(x, s[1..], u);
      assert s == [s[0]] + s[1..];
      FilterHead(s[0], Insert(x, s[1..]), p);
      FilterHead(x, s[1..], p);
      FilterHead(x, s, p);
      FilterHead(s[0], s[1..], p);
    }
  }

  /** The sort is ordered, and keeps every group of equally recent sessions as it was. */
  lemma {:induction false} StableSortSorts(s: seq<Session>)
    ensures Sorted(StableSort(s)) && |StableSort(s)| == |s|
    ensures forall u :: Filter(StableSort(s), UpdatedAt(u)) == Filter(s, UpdatedAt(u))
  {
    if s != [] {
      StableSortSorts(s[1..]);
      var rest := StableSort(s[1..]);
      InsertSorted(s[0], rest);
      forall u ensures Filter(StableSort(s), UpdatedAt(u)) == Filter(s, UpdatedAt(u)) {
        InsertStable(s[0], rest, u);
        assert s == [s[0]] + s[1..];
        FilterAppend([s[0]], s[1..], UpdatedAt(u));
        FilterAppend([s[0]], rest, UpdatedAt(u));
      }
    }
  }

  /** The first of each until one runs out; on a tie the left list goes first. */
  function Merge(a: seq<Session>, b: seq<Session>): seq<Session> {
    if a == [] then b
    else if b == [] then a
    else if a[0].updated >= b[0].updated then [a[0]] + Merge(a[1..], b)
    else [b[0]] + Merge(a, b[1..])
  }

  lemma {:induction false} InsertIsMerge(x: Session, a: seq<Session>, b: seq<Session>)
    requires Sorted([x] + a)
    ensures Insert(x, Merge(a, b)) == Merge([x] + a, b)
    decreases |a| + |b|
  {
    var xa := [x] + a;
    assert xa[1..] == a;
    if a != [] {
      assert xa[0].updated >= xa[1].updated;
    }
    if b != [] && x.updated < b[0].updated {
      InsertIsMerge(x, a, b[1..]);
      assert Merge(a, b) == [b[0]] + Merge(a, b[1..]);
      assert Merge(a, b)[1..] == Merge(a, b[1..]);
    }
  }

  /** Sorting a sorted list in front of others merges it with their sort. */
  lemma {:induction false} SortIsMerge(a: seq<Session>, b: seq<Session>)
    requires Sorted(a)
    ensures StableSort(a + b) == Merge(a, StableSort(b))
  {
    if a == [] {
      assert a + b == b;
    } else {
      SortIsMerge(a[1..], b);
      assert (a + b)[1..] == a[1..] + b;
      assert a == [a[0]] + a[1..];
      InsertIsMerge(a[0], a[1..], StableSort(b));
    }
  }

  lemma SortedIsFixed(s: seq<Session>)
    requires Sorted(s)
    ensures StableSort(s) == s
  {
    SortIsMerge(s, []);
    assert s + [] == s;
  }

  // ---------------------------------------------------------------- prefixes are enough

  function Take(n: nat, s: seq<Session>): seq<Session> {
    if |s| <= n then s else s[..n]
  }

  lemma TakeParts(n: nat, s: seq<Session>)
    ensures Take(n, s) == [] <==> n == 0 || s == []
    ensures n > 0 && s != [] ==>
      Take(n, s)[0] == s[0] && Take(n, s)[1..] == Take(n - 1, s[1..]) && Take(n - 1, Take(n, s)) == Take(n - 1, s)
    ensures Take(n, Take(n, s)) == Take(n, s) && |Take(n, s)| <= |s|
  {
  }

  lemma TakeNone(s: seq<Session>)
    ensures Take(0, s) == []
  {
  }

  lemma {:induction false} TakeMerge(n: nat, a: seq<Session>, b: seq<Session>)
    ensures Take(n, Merge(a, b)) == Take(n, Merge(Take(n, a), Take(n, b)))
    decreases |a| + |b|
  {
    hide Take;
    TakeParts(n, a);
    TakeParts(n, b);
    if n == 0 {
      TakeNone(Merge(a, b));
      TakeNone(Merge(Take(n, a), Take(n, b)));
    } else if a != [] && b != [] {
      var ta, tb := Take(n, a), Take(n, b);
      TakeParts(n - 1, a[1..]);
      TakeParts(n - 1, b[1..]);
      if a[0].updated >= b[0].updated {
        TakeMerge(n - 1, a[1..], b);
        TakeMerge(n - 1, ta[1..], tb);
        TakeCons(n, a[0], Merge(a[1..], b));
        TakeCons(n, a[0], Merge(ta[1..], tb));
      } else {
        TakeMerge(n - 1, a, b[1..]);
        TakeMerge(n - 1, ta, tb[1..]);
        TakeCons(n, b[0], Merge(a, b[1..]));
        TakeCons(n, b[0], Merge(ta, tb[1..]));
      }
    }
  }

  lemma TakeCons(n: nat, x: Session, s: seq<Session>)
    requires n > 0
    ensures Take(n, [x] + s) == [x] + Take(n - 1, s)
  {
  }

  function Concat(lists: seq<seq<Session>>): seq<Session> {
    if lists == [] then [] else lists[0] + Concat(lists[1..])
  }

  /**
   * The top of the global order depends only on the tops of the lists: merging any
   * sorted lists that agree on their first n sessions agrees on the first n overall.
   */
  lemma {:induction false} TopOfMerge(n: nat, lists: seq<seq<Session>>, fetched: seq<seq<Session>>)
    requires |fetched| == |lists|
    requires forall i :: 0 <= i < |lists| ==>
      Sorted(lists[i]) && Sorted(fetched[i]) && Take(n, fetched[i]) == Take(n, lists[i])
    ensures Take(n, StableSort(Concat(fetched))) == Take(n, StableSort(Concat(lists)))
  {
    if lists != [] {
      TopOfMerge(n, lists[1..], fetched[1..]);
      var f, l := StableSort(Concat(fetched[1..])), StableSort(Concat(lists[1..]));
      SortIsMerge(lists[0], Concat(lists[1..]));
      SortIsMerge(fetched[0], Concat(fetched[1..]));
      TakeMerge(n, fetched[0], f);
      TakeMerge(n, lists[0], l);
    }
  }

  // ---------------------------------------------------------------- pages

  function Slice(s: seq<Session>, from: nat, to: nat): seq<Session>
    requires from <= to
  {
    if from >= |s| then [] else if to >= |s| then s[from..] else s[from..to]
  }

  function PageOf(all: seq<Session>, page: nat): seq<Session>
    requires page >= 1
  {
    Slice(all, (page - 1) * PAGE_SIZE, page * PAGE_SIZE)
  }

  function Pages(all: seq<Session>, upTo: nat): seq<Session> {
    if upTo == 0 then [] else Pages(all, upTo - 1) + PageOf(all, upTo)
  }

  /** The least number of pages that hold everything, and one for nothing. */
  function TotalPages(total: nat): (n: nat)
    ensures n >= 1 && total <= n * PAGE_SIZE
    ensures n > 1 ==> (n - 1) * PAGE_SIZE < total
  {
    if total == 0 then 1 else (total + PAGE_SIZE - 1) / PAGE_SIZE
  }

  /** The pages of a history tile it. */
  lemma {:induction false} PagesTile(all: seq<Session>, upTo: nat)
    ensures Pages(all, upTo) == Take(upTo * PAGE_SIZE, all)
    ensures upTo >= TotalPages(|all|) ==> Pages(all, upTo) == all
  {
    if upTo > 0 {
      PagesTile(all, upTo - 1);
    }
  }

  /**
   * Every page up to the last shows something, all but the last are full, and none after it does;
   * only an empty history has an empty page.
   */
  lemma PagesAreFilled(all: seq<Session>, page: nat)
    requires page >= 1
    ensures PageOf(all, page) == [] <==> page > TotalPages(|all|) || all == []
    ensures page < TotalPages(|all|) ==> |PageOf(all, page)| == PAGE_SIZE
    ensures forall fewer: nat :: fewer < TotalPages(|all|) && all != [] ==> Pages(all, fewer) != all
  {
    forall fewer: nat | fewer < TotalPages(|all|) && all != [] ensures Pages(all, fewer) != all {
      PagesTile(all, fewer);
    }
  }

  lemma SlicesAgree(a: seq<Session>, b: seq<Session>, page: nat)
    requires page >= 1 && Take(page * PAGE_SIZE, a) == Take(page * PAGE_SIZE, b)
    ensures PageOf(a, page) == PageOf(b, page)
  {
    var n := page * PAGE_SIZE;
    assert PageOf(a, page) == PageOf(Take(n, a), page);
    assert PageOf(b, page) == PageOf(Take(n, b), page);
  }

  /** What one workstation answers: its exact page, or a prefix up to the fetch cap. */
  function OwnerSessions(all: seq<Session>, page: nat, exactPage: bool): seq<Session>
    requires page >= 1
  {
    if exactPage then PageOf(all, page) else Take(if PAGE_SIZE * page <= MAX_FETCH then PAGE_SIZE * page else MAX_FETCH, all)
  }

  /** What several workstations answer for a page. */
  function Prefixes(lists: seq<seq<Session>>, page: nat): seq<seq<Session>>
    requires page >= 1
  {
    seq(|lists|, i requires 0 <= i < |lists| => OwnerSessions(lists[i], page, false))
  }

  function TotalOf(lists: seq<seq<Session>>): nat {
    if lists == [] then 0 else |lists[0]| + TotalOf(lists[1..])
  }

  lemma {:induction false} TotalIsLength(lists: seq<seq<Session>>)
    ensures TotalOf(lists) == |Concat(lists)|
  {
    if lists != [] {
      TotalIsLength(lists[1..]);
    }
  }

  /** The fetched prefixes reach far enough: the page is below the cap, or nothing was cut. */
  predicate WithinCap(lists: seq<seq<Session>>, page: nat) {
    |lists| == 1 || page * PAGE_SIZE <= MAX_FETCH || forall l :: l in lists ==> |l| <= MAX_FETCH
  }

  /** The page of the whole history that a request answers. */
  method Payload(lists: seq<seq<Session>>, historyPage: int)
    returns (page: nat, totalPages: nat, sessions: seq<Session>)
    requires forall l :: l in lists ==> Sorted(l)
    ensures totalPages == TotalPages(|Concat(lists)|)
    ensures page >= 1
    ensures page == (if historyPage < 1 then 1 else if historyPage <= totalPages then historyPage else totalPages)
    ensures WithinCap(lists, page) ==> sessions == PageOf(StableSort(Concat(lists)), page)
    ensures |lists| != 1 ==> sessions == PageOf(StableSort(Concat(Prefixes(lists, if historyPage < 1 then 1 else historyPage))), page)
  {
    var requested: nat := if historyPage < 1 then 1 else historyPage;
    var exactPage := |lists| == 1;
    var fetched: seq<seq<Session>> := [];
    var total := 0;
    for k := 0 to |lists|
      invariant |fetched| == k && forall i :: 0 <= i < k ==> fetched[i] == OwnerSessions(lists[i], requested, exactPage)
      invariant total + TotalOf(lists[k..]) == TotalOf(lists)
    {
      fetched := fetched + [OwnerSessions(lists[k], requested, exactPage)];
      total := total + |lists[k]|;
      assert lists[k..][1..] == lists[k + 1..];
    }
    assert lists[|lists|..] == [] && lists[0..] == lists;
    TotalIsLength(lists);
    assert !exactPage ==> fetched == Prefixes(lists, requested);
    sessions := StableSort(Concat(fetched));
    totalPages := TotalPages(total);
    page := if requested <= totalPages then requested else totalPages;
    if exactPage && page != requested {
      sessions := OwnerSessions(lists[0], page, true);
    }
    if exactPage {
      ExactPage(lists, fetched, requested, page);
      sessions := Take(PAGE_SIZE, sessions);
    } else {
      if WithinCap(lists, page) {
        PrefixesReach(lists, fetched, requested, page);
      }
      sessions := PageOf(sessions, page);
    }
  }

  lemma SliceSorted(s: seq<Session>, from: nat, to: nat)
    requires Sorted(s) && from <= to
    ensures Sorted(Slice(s, from, to)) && |Slice(s, from, to)| <= to - from
  {
  }

  /** With one workstation the page is fetched exactly, and sorting it changes nothing. */
  lemma ExactPage(lists: seq<seq<Session>>, fetched: seq<seq<Session>>, requested: nat, page: nat)
    requires |lists| == |fetched| == 1 && requested >= 1 && page >= 1 && Sorted(lists[0])
    requires fetched[0] == PageOf(lists[0], requested)
    ensures Concat(lists) == lists[0] && StableSort(Concat(lists)) == lists[0]
    ensures StableSort(Concat(fetched)) == fetched[0]
    ensures |PageOf(lists[0], page)| <= PAGE_SIZE && |fetched[0]| <= PAGE_SIZE
  {
    assert lists[1..] == [] && fetched[1..] == [];
    assert lists[0] + [] == lists[0] && fetched[0] + [] == fetched[0];
    SliceSorted(lists[0], (requested - 1) * PAGE_SIZE, requested * PAGE_SIZE);
    SortedIsFixed(lists[0]);
    SortedIsFixed(fetched[0]);
  }

  lemma PrefixesReach(lists: seq<seq<Session>>, fetched: seq<seq<Session>>, requested: nat, page: nat)
    requires |fetched| == |lists| != 1 && 1 <= page <= requested
    requires forall l :: l in lists ==> Sorted(l)
    requires forall i :: 0 <= i < |lists| ==> fetched[i] == OwnerSessions(lists[i], requested, false)
    requires WithinCap(lists, page)
    ensures PageOf(StableSort(Concat(fetched)), page) == PageOf(StableSort(Concat(lists)), page)
  {
    var n := page * PAGE_SIZE;
    forall i | 0 <= i < |lists| ensures Sorted(lists[i]) && Sorted(fetched[i]) && Take(n, fetched[i]) == Take(n, lists[i]) {
      assert lists[i] in lists;
    }
    TopOfMerge(n, lists, fetched);
    SlicesAgree(StableSort(Concat(fetched)), StableSort(Concat(lists)), page);
  }

  /**
   * The cap is exact: for every page beyond it there are two workstations for which
   * the page is wrong, because a recent session of one was never fetched.
   */
  lemma BeyondTheCap(page: nat)
    requires page * PAGE_SIZE > MAX_FETCH
    ensures var recent := seq((page - 1) * PAGE_SIZE + 1, i => Session("r", 2.0));
      var older := seq(PAGE_SIZE, i => Session("o", 1.0));
      var fetched := [OwnerSessions(recent, page, false), OwnerSessions(older, page, false)];
      PageOf(StableSort(Concat(fetched)), page) != PageOf(StableSort(Concat([recent, older])), page)
  {
    var recent, older := seq((page - 1) * PAGE_SIZE + 1, i => Session("r", 2.0)), seq(PAGE_SIZE, i => Session("o", 1.0));
    var cut := recent[..MAX_FETCH];
    assert OwnerSessions(recent, page, false) == cut && OwnerSessions(older, page, false) == older;
    TwoLists(recent, older);
    TwoLists(cut, older);
    SortedIsFixed(recent + older);
    SortedIsFixed(cut + older);
    assert PageOf(recent + older, page)[0] == Session("r", 2.0);
    var shown := PageOf(cut + older, page);
    assert forall i :: 0 <= i < |shown| ==> shown[i] == Session("o", 1.0);
  }

  lemma TwoLists(a: seq<Session>, b: seq<Session>)
    ensures Concat([a, b]) == a + b
  {
    assert [a, b][1..] == [b] && [b][1..] == [];
    assert Concat([b]) == b + [] == b;
  }
}
