// Short session names shared by two backends, and the registry that renames its own.
module Registry {
  import opened Common
  import opened Numerals

  // ---------------------------------------------------------------- names

  const PREFIX := "faryo"

  function Name(number: nat): string {
    PREFIX + Print(number, Decimal)
  }

  predicate IsDecimalDigit(c: char) {
    '0' <= c <= '9'
  }

  /** A short name: the prefix and a number without leading zeros. */
  predicate IsName(s: string) {
    PREFIX < s && s[|PREFIX|] != '0' && forall i :: |PREFIX| <= i < |s| ==> IsDecimalDigit(s[i])
  }

  lemma {:induction false} PrintsDecimal(n: nat)
    ensures forall c :: c in Print(n, Decimal) ==> IsDecimalDigit(c)
    ensures n > 0 ==> Print(n, Decimal)[0] != '0'
  {
    if n >= 10 {
      PrintsDecimal(n / 10);
    }
  }

  lemma NamesAreNames(number: nat)
    requires number > 0
    ensures IsName(Name(number))
  {
    PrintsDecimal(number);
    var digits := Print(number, Decimal);
    forall i | |PREFIX| <= i < |Name(number)| ensures IsDecimalDigit(Name(number)[i]) {
      assert Name(number)[i] == digits[i - |PREFIX|] && digits[i - |PREFIX|] in digits;
    }
  }

  lemma NameInjective(m: nat, n: nat)
    requires Name(m) == Name(n)
    ensures m == n
  {
    assert Name(m)[|PREFIX|..] == Print(m, Decimal) && Name(n)[|PREFIX|..] == Print(n, Decimal);
    PrintInjective(m, n, Decimal);
  }

  ghost predicate LeastUnused(number: nat, used: set<string>) {
    number >= 1 && Name(number) !in used && forall k :: 1 <= k < number ==> Name(k) in used
  }

  /** Count up to the first unused name; the finite set of used names ends the count. */
  method NextName(used: set<string>) returns (name: string, ghost number: nat)
    ensures name == Name(number) && LeastUnused(number, used) && IsName(name)
    ensures number <= |used| + 1
  {
    var n := 1;
    ghost var passed: set<string> := {};
    while Name(n) in used
      invariant n >= 1 && passed <= used && |passed| == n - 1
      invariant forall k :: 1 <= k < n ==> Name(k) in passed
      invariant forall s :: s in passed ==> exists k :: 1 <= k < n && s == Name(k)
      invariant |passed| <= |used|
      decreases |used| - n
    {
      if Name(n) in passed {
        var k :| 1 <= k < n && Name(n) == Name(k);
        NameInjective(n, k);
      }
      passed := passed + {Name(n)};
      SubsetSize(passed, used);
      n := n + 1;
    }
    NamesAreNames(n);
    name, number := Name(n), n;
  }

  lemma SubsetSize<T>(a: set<T>, b: set<T>)
    requires a <= b
    ensures |a| <= |b|
  {
    assert b == a + (b - a);
    assert |a + (b - a)| == |a| + |b - a|;
  }

  // ---------------------------------------------------------------- ownership

  datatype Owner = AppServer | Terminal | Nobody | Conflict

  function OwnerOf(name: string, terminal: set<string>, appServer: set<string>): Owner {
    if name in terminal && name in appServer then Conflict
    else if name in appServer then AppServer
    else if name in terminal then Terminal
    else Nobody
  }

  // ---------------------------------------------------------------- registry

  datatype Record = Record(name: string, thread: string, cwd: string, worker: string, createdAt: nat)
  datatype AddResult = Added(record: Record) | NameUnavailable | WorkerUnavailable

  /** Old names in use outside the registry, each given a distinct name used nowhere. */
  ghost predicate FreshNames(before: map<string, Record>, renamed: map<string, string>, external: set<string>) {
    && renamed.Keys <= before.Keys * external
    && (forall k :: k in renamed ==> renamed[k] !in before && renamed[k] !in external)
    && (forall j, k :: j in renamed && k in renamed && renamed[j] == renamed[k] ==> j == k)
  }

  /** The records of before, with those in renamed filed under their new names and otherwise unchanged. */
  ghost predicate Moved(before: map<string, Record>, after: map<string, Record>, renamed: map<string, string>) {
    && (forall k :: k in before && k !in renamed ==> k in after && after[k] == before[k])
    && (forall k :: k in before && k in renamed ==>
      renamed[k] in after && after[renamed[k]] == before[k].(name := renamed[k]))
    && after.Keys == (before.Keys - renamed.Keys) + renamed.Values
  }

  /** Records with one of them filed under a new name. */
  function Rename(records: map<string, Record>, oldName: string, newName: string): map<string, Record>
    requires oldName in records
  {
    (records - {oldName})[newName := records[oldName].(name := newName)]
  }

  lemma RenameFiles(records: map<string, Record>, oldName: string, newName: string, k: string)
    requires oldName in records && newName !in records
    ensures k == newName ==>
      k in Rename(records, oldName, newName) && Rename(records, oldName, newName)[k] == records[oldName].(name := newName)
    ensures k != newName ==> (k in Rename(records, oldName, newName) <==> k in records && k != oldName)
    ensures k != newName && k != oldName && k in records ==> Rename(records, oldName, newName)[k] == records[k]
  {
  }

  lemma RenameKeys(records: map<string, Record>, oldName: string, newName: string)
    requires oldName in records && newName !in records
    ensures Rename(records, oldName, newName).Keys == records.Keys - {oldName} + {newName}
  {
  }

  lemma Unused(number: nat, used: set<string>)
    requires LeastUnused(number, used)
    ensures Name(number) !in used
  {
  }

  lemma FreshGrows(before: map<string, Record>, renamed: map<string, string>, external: set<string>, oldName: string,
                   newName: string)
    requires FreshNames(before, renamed, external) && oldName in before && oldName in external
    requires newName !in before && newName !in external && newName !in renamed.Values
    ensures FreshNames(before, renamed[oldName := newName], external)
  {
    forall k | k in renamed ensures renamed[k] != newName {
      assert renamed[k] in renamed.Values;
    }
  }

  lemma ValuesGrow(m: map<string, string>, k: string, v: string)
    requires k !in m
    ensures m[k := v].Values == m.Values + {v}
  {
    assert m[k := v][k] == v;
    forall s | s in m.Values ensures s in m[k := v].Values {
      var j :| j in m && m[j] == s;
      assert m[k := v][j] == s;
    }
  }

  /** A name filed now and before any rename of it has not been renamed. */
  lemma StillThere(before: map<string, Record>, records: map<string, Record>, renamed: map<string, string>,
                   external: set<string>, k: string)
    requires FreshNames(before, renamed, external) && Moved(before, records, renamed)
    requires k in records && k in external
    ensures k in before && k !in renamed && k !in renamed.Values && records[k] == before[k]
  {
  }

  /** One more rename extends a move. */
  lemma RenameMoves(before: map<string, Record>, records: map<string, Record>, renamed: map<string, string>,
                    oldName: string, newName: string)
    requires Moved(before, records, renamed) && renamed.Keys <= before.Keys
    requires oldName in records && oldName in before && oldName !in renamed && oldName !in renamed.Values
    requires newName !in before && newName !in records && newName !in renamed.Values && oldName != newName
    ensures Moved(before, Rename(records, oldName, newName), renamed[oldName := newName])
  {
    hide Rename;
    var after, moved := Rename(records, oldName, newName), renamed[oldName := newName];
    forall k | k in before && k !in moved ensures k in after && after[k] == before[k] {
      RenameFiles(records, oldName, newName, k);
    }
    forall k | k in before && k in moved ensures moved[k] in after && after[moved[k]] == before[k].(name := moved[k]) {
      RenameFiles(records, oldName, newName, moved[k]);
      if k != oldName {
        assert moved[k] == renamed[k] && renamed[k] in renamed.Values;
      }
    }
    RenameKeys(records, oldName, newName);
    ValuesGrow(renamed, oldName, newName);
    MovedKeys(before.Keys, records.Keys, renamed.Keys, renamed.Values, oldName, newName);
    assert moved.Keys == renamed.Keys + {oldName};
  }

  lemma MovedKeys(before: set<string>, now: set<string>, keys: set<string>, values: set<string>, oldName: string,
                  newName: string)
    requires now == (before - keys) + values && oldName !in values && newName !in before
    ensures now - {oldName} + {newName} == (before - (keys + {oldName})) + (values + {newName})
  {
  }

  /** Strings in the order of their characters. */
  predicate Precedes(a: string, b: string) {
    a == "" || (b != "" && (a[0] < b[0] || (a[0] == b[0] && Precedes(a[1..], b[1..]))))
  }

  lemma {:induction false} PrecedesTotal(a: string, b: string)
    ensures Precedes(a, b) || Precedes(b, a)
    ensures Precedes(a, b) && Precedes(b, a) ==> a == b
  {
    if a != "" && b != "" && a[0] == b[0] {
      PrecedesTotal(a[1..], b[1..]);
      assert a == [a[0]] + a[1..] && b == [b[0]] + b[1..];
    }
  }

  lemma {:induction false} PrecedesTransitive(a: string, b: string, c: string)
    requires Precedes(a, b) && Precedes(b, c)
    ensures Precedes(a, c)
  {
    if a != "" && a[0] == b[0] == c[0] {
      PrecedesTransitive(a[1..], b[1..], c[1..]);
    }
  }

  /** Created earlier, or at the same time under an earlier name. */
  predicate Older(r: Record, s: Record) {
    r.createdAt < s.createdAt || (r.createdAt == s.createdAt && Precedes(r.name, s.name))
  }

  lemma OlderIsOrder(r: Record, s: Record, t: Record)
    ensures Older(r, s) || Older(s, r)
    ensures Older(r, s) && Older(s, r) ==> r.name == s.name
    ensures Older(r, s) && Older(s, t) ==> Older(r, t)
  {
    PrecedesTotal(r.name, s.name);
    if Precedes(r.name, s.name) && Precedes(s.name, t.name) {
      PrecedesTransitive(r.name, s.name, t.name);
    }
  }

  /** New numbers follow the age of the records. */
  ghost predicate AgeOrder(before: map<string, Record>, numbers: map<string, nat>, renamed: map<string, string>) {
    && numbers.Keys == renamed.Keys <= before.Keys
    && (forall k :: k in renamed ==> renamed[k] == Name(numbers[k]))
    && (forall j, k :: j in renamed && k in renamed && j != k && Older(before[j], before[k]) ==>
      numbers[j] < numbers[k])
  }

  lemma AgeMeans(before: map<string, Record>, numbers: map<string, nat>, renamed: map<string, string>)
    requires AgeOrder(before, numbers, renamed)
    ensures numbers.Keys == renamed.Keys <= before.Keys
    ensures forall j, k :: j in renamed && k in renamed && before[j].createdAt < before[k].createdAt ==> numbers[j] < numbers[k]
  {
  }

  /** The renames so far used up the numbers to last, and were of the oldest conflicts. */
  ghost predicate OldestFirst(before: map<string, Record>, numbers: map<string, nat>, conflicts: set<string>, last: nat,
                              used: set<string>) {
    && numbers.Keys <= before.Keys && conflicts <= before.Keys
    && (forall k :: k in numbers ==> numbers[k] <= last)
    && (forall n :: 1 <= n <= last ==> Name(n) in used)
    && (forall j, k :: j in numbers && k in conflicts ==> Older(before[j], before[k]))
  }

  lemma NextOldest(before: map<string, Record>, numbers: map<string, nat>, renamed: map<string, string>,
                   conflicts: set<string>,
                   last: nat, used: set<string>, oldName: string, n: nat)
    requires AgeOrder(before, numbers, renamed) && OldestFirst(before, numbers, conflicts, last, used)
    requires oldName in conflicts && oldName !in renamed && LeastUnused(n, used)
    requires forall k :: k in conflicts ==> Older(before[oldName], before[k])
    requires forall k :: k in before ==> before[k].name == k
    ensures AgeOrder(before, numbers[oldName := n], renamed[oldName := Name(n)])
    ensures OldestFirst(before, numbers[oldName := n], conflicts - {oldName}, n, used + {Name(n)})
  {
    hide Name, Older;
    assert last < n;
    forall j | j in renamed ensures !Older(before[oldName], before[j]) {
      OlderIsOrder(before[j], before[oldName], before[j]);
    }
  }

  /** A set of records that is not empty has an oldest one. */
  lemma {:induction false} HasOldest(records: map<string, Record>, names: set<string>)
    requires names != {} && names <= records.Keys
    ensures exists k :: k in names && forall j :: j in names ==> Older(records[k], records[j])
  {
    var k :| k in names;
    OlderIsOrder(records[k], records[k], records[k]);
    var others := names - {k};
    assert names == others + {k};
    if others != {} {
      HasOldest(records, others);
      var o :| o in others && forall j :: j in others ==> Older(records[o], records[j]);
      var best := if Older(records[k], records[o]) then k else o;
      forall j | j in names ensures Older(records[best], records[j]) {
        assert j == k || j in others;
        OlderIsOrder(records[k], records[o], records[j]);
      }
    }
  }

  /** Each record is stored under its own short name, and no two share a worker. */
  ghost predicate Filed(records: map<string, Record>) {
    && (forall k :: k in records ==> records[k].name == k && IsName(k))
    && (forall j, k :: j in records && k in records && records[j].worker == records[k].worker ==> j == k)
  }

  lemma RenameStaysFiled(records: map<string, Record>, oldName: string, newName: string)
    requires Filed(records) && oldName in records && newName !in records && IsName(newName)
    ensures Filed(Rename(records, oldName, newName))
  {
    hide Rename, IsName;
    var after := Rename(records, oldName, newName);
    forall k | k in after ensures after[k].name == k && IsName(k) {
      RenameFiles(records, oldName, newName, k);
    }
    forall j, k | j in after && k in after && after[j].worker == after[k].worker ensures j == k {
      RenameFiles(records, oldName, newName, j);
      RenameFiles(records, oldName, newName, k);
    }
  }

  /** What a reassignment that still has the conflicts to go has done. */
  ghost predicate Progress(before: map<string, Record>, records: map<string, Record>, renamed: map<string, string>,
                           numbers: map<string, nat>,
                           last: nat, external: set<string>, conflicts: set<string>, used: set<string>) {
    && Filed(before) && Filed(records) && FreshNames(before, renamed, external) && Moved(before, records, renamed)
    && AgeOrder(before, numbers, renamed) && OldestFirst(before, numbers, conflicts, last, used)
    && conflicts == records.Keys * external && conflicts <= before.Keys
    && before.Keys + external + records.Keys + renamed.Values <= used
    && renamed.Keys == before.Keys * external - conflicts
  }

  lemma FiledNames(records: map<string, Record>)
    requires Filed(records)
    ensures forall k :: k in records ==> records[k].name == k
  {
  }

  lemma NothingMoved(records: map<string, Record>, external: set<string>, conflicts: set<string>, used: set<string>)
    requires Filed(records) && conflicts == records.Keys * external && used == records.Keys + external
    ensures Progress(records, records, map[], map[], 0, external, conflicts, used)
  {
  }

  lemma FindOldest(before: map<string, Record>, records: map<string, Record>, renamed: map<string, string>,
                   numbers: map<string, nat>,
                   last: nat, external: set<string>, conflicts: set<string>, used: set<string>)
    requires Progress(before, records, renamed, numbers, last, external, conflicts, used) && conflicts != {}
    requires conflicts <= records.Keys
    ensures exists k :: k in conflicts && forall j :: j in conflicts ==> Older(records[k], records[j])
  {
    hide FreshNames, Moved, AgeOrder, OldestFirst, Filed;
    HasOldest(records, conflicts);
  }

  lemma OneMoved(before: map<string, Record>, records: map<string, Record>, renamed: map<string, string>,
                 numbers: map<string, nat>,
                 last: nat, external: set<string>, conflicts: set<string>, used: set<string>, oldName: string, n: nat)
    requires Progress(before, records, renamed, numbers, last, external, conflicts, used) && conflicts <= records.Keys
    requires oldName in conflicts && forall k :: k in conflicts ==> Older(records[oldName], records[k])
    requires LeastUnused(n, used) && IsName(Name(n))
    ensures Progress(before, Rename(records, oldName, Name(n)), renamed[oldName := Name(n)], numbers[oldName := n], n,
      external, conflicts - {oldName}, used + {Name(n)})
    ensures conflicts - {oldName} <= Rename(records, oldName, Name(n)).Keys
  {
    hide Moved, FreshNames, Rename, Filed, IsName, LeastUnused, AgeOrder, OldestFirst, Name, Older;
    FiledNames(before);
    var newName := Name(n);
    Unused(n, used);
    AsBefore(before, records, renamed, external, conflicts);
    StillThere(before, records, renamed, external, oldName);
    RenameStaysFiled(records, oldName, newName);
    FreshGrows(before, renamed, external, oldName, newName);
    RenameMoves(before, records, renamed, oldName, newName);
    NextOldest(before, numbers, renamed, conflicts, last, used, oldName, n);
    RenameKeys(records, oldName, newName);
    ValuesGrow(renamed, oldName, newName);
    assert renamed[oldName := newName].Keys == renamed.Keys + {oldName};
  }

  lemma AllMoved(before: map<string, Record>, records: map<string, Record>, renamed: map<string, string>,
                 numbers: map<string, nat>,
                 last: nat, external: set<string>, used: set<string>)
    requires Progress(before, records, renamed, numbers, last, external, {}, used)
    ensures Filed(records) && records.Keys !! external && renamed.Keys == before.Keys * external
    ensures FreshNames(before, renamed, external) && Moved(before, records, renamed)
    ensures AgeOrder(before, numbers, renamed)
  {
    hide Moved, FreshNames, Filed, AgeOrder, OldestFirst;
    forall k | k in records.Keys ensures k !in external {
      assert k in external ==> k in records.Keys * external;
    }
  }

  lemma AsBefore(before: map<string, Record>, records: map<string, Record>, renamed: map<string, string>,
                 external: set<string>, conflicts: set<string>)
    requires FreshNames(before, renamed, external) && Moved(before, records, renamed)
    requires conflicts == records.Keys * external
    ensures conflicts <= before.Keys && forall k :: k in conflicts ==> records[k] == before[k]
  {
    hide FreshNames, Moved;
    forall k | k in conflicts ensures k in before && records[k] == before[k] {
      StillThere(before, records, renamed, external, k);
    }
  }

  predicate IsKept(r: Record, records: map<string, Record>) {
    r.name in records && records[r.name] == r
  }

  /** An earlier stored record that was kept has the same name or worker. */
  ghost predicate ComesSecond(stored: seq<Option<Record>>, i: nat, records: map<string, Record>)
    requires i < |stored| && stored[i].Some?
  {
    exists j :: 0 <= j < i && stored[j].Some? && IsKept(stored[j].value, records)
      && (stored[j].value.name == stored[i].value.name || stored[j].value.worker == stored[i].value.worker)
  }

  lemma KeptLonger(stored: seq<Option<Record>>, i: nat, before: map<string, Record>, after: map<string, Record>)
    requires i <= |stored| && forall k :: k in before ==> k in after && after[k] == before[k]
    ensures forall j :: 0 <= j < i && stored[j].Some? ==>
      (IsKept(stored[j].value, before) ==> IsKept(stored[j].value, after))
        && (ComesSecond(stored, j, before) ==> ComesSecond(stored, j, after))
  {
  }

  /** The records kept of the first n stored ones. */
  ghost predicate Loading(stored: seq<Option<Record>>, n: nat, records: map<string, Record>)
    requires n <= |stored|
  {
    && (forall i :: 0 <= i < n && stored[i].Some? && IsName(stored[i].value.name) ==>
      IsKept(stored[i].value, records) || ComesSecond(stored, i, records))
    && (forall k :: k in records ==> exists i :: 0 <= i < n && stored[i] == Some(records[k]))
  }

  lemma LoadingStarts(stored: seq<Option<Record>>)
    ensures Filed(map[]) && Loading(stored, 0, map[])
  {
  }

  lemma LoadsOne(stored: seq<Option<Record>>, n: nat, records: map<string, Record>)
    requires n < |stored| && stored[n].Some? && Filed(records) && Loading(stored, n, records)
    requires IsName(stored[n].value.name)
    requires stored[n].value.name !in records
    requires forall k :: k in records ==> records[k].worker != stored[n].value.worker
    ensures var r := stored[n].value; Filed(records[r.name := r]) && Loading(stored, n + 1, records[r.name := r])
  {
    hide IsName;
    var r := stored[n].value;
    var after := records[r.name := r];
    KeptLonger(stored, n, records, after);
    hide ComesSecond;
    forall k | k in after ensures exists i :: 0 <= i < n + 1 && stored[i] == Some(after[k]) {
      if k == r.name {
        assert stored[n] == Some(r);
      } else {
        var i :| 0 <= i < n && stored[i] == Some(records[k]);
      }
    }
  }

  lemma SkipsOne(stored: seq<Option<Record>>, n: nat, records: map<string, Record>)
    requires n < |stored| && Filed(records) && Loading(stored, n, records)
    requires stored[n].Some? && IsName(stored[n].value.name) ==>
      stored[n].value.name in records || exists k :: k in records && records[k].worker == stored[n].value.worker
    ensures Loading(stored, n + 1, records)
  {
    hide IsName;
    if stored[n].Some? && IsName(stored[n].value.name) {
      var r := stored[n].value;
      var k :| k in records && (k == r.name || records[k].worker == r.worker);
      var i :| 0 <= i < n && stored[i] == Some(records[k]);
      assert IsKept(stored[i].value, records);
      assert ComesSecond(stored, n, records);
    }
  }

  lemma LoadingEnds(stored: seq<Option<Record>>, records: map<string, Record>)
    requires Loading(stored, |stored|, records)
    ensures forall k :: k in records ==> Some(records[k]) in stored
    ensures forall i :: 0 <= i < |stored| && stored[i].Some? && IsName(stored[i].value.name) ==>
      IsKept(stored[i].value, records) || ComesSecond(stored, i, records)
  {
  }

  class WebSessionRegistry {
    var records: map<string, Record>

    ghost predicate Valid()
      reads this
    {
      Filed(records)
    }

    constructor ()
      ensures Valid() && records == map[]
    {
      records := map[];
    }

    /** Read stored records in order; a repeated name or worker is skipped. */
    method Load(stored: seq<Option<Record>>)
      modifies this
      ensures Valid()
      ensures forall k :: k in records ==> Some(records[k]) in stored
      ensures forall i :: 0 <= i < |stored| && stored[i].Some? && IsName(stored[i].value.name) ==>
        IsKept(stored[i].value, records) || ComesSecond(stored, i, records)
    {
      hide Filed, IsName, IsKept, ComesSecond, Loading;
      records := map[];
      LoadingStarts(stored);
      for i := 0 to |stored|
        invariant Filed(records) && Loading(stored, i, records)
      {
        if stored[i].Some? {
          var r := stored[i].value;
          if IsName(r.name) && r.name !in records && forall k :: k in records ==> records[k].worker != r.worker {
            LoadsOne(stored, i, records);
            records := records[r.name := r];
          } else {
            SkipsOne(stored, i, records);
          }
        } else {
          SkipsOne(stored, i, records);
        }
      }
      LoadingEnds(stored, records);
    }

    /** Register a session under the name given, or the least unused one. */
    method Add(r: Record, name: string, reserved: set<string>) returns (result: AddResult)
      requires Valid()
      modifies this
      ensures Valid()
      ensures result == NameUnavailable <==> name != "" && (!IsName(name) || name in old(records))
      ensures result == WorkerUnavailable <==>
        result != NameUnavailable && exists k :: k in old(records) && old(records)[k].worker == r.worker
      ensures result.Added? <==> records != old(records)
      ensures result.Added? ==>
        records == old(records)[result.record.name := result.record] && result.record.name !in old(records)
      ensures result.Added? ==> result.record == r.(name := result.record.name)
      ensures result.Added? && name != "" ==> result.record.name == name
      ensures result.Added? && name == "" ==> exists n :: result.record.name == Name(n) && LeastUnused(n, old(records).Keys + reserved)
    {
      var selected := name;
      if name == "" {
        ghost var number;
        selected, number := NextName(records.Keys + reserved);
      }
      if !IsName(selected) || selected in records {
        return NameUnavailable;
      }
      if exists k :: k in records && records[k].worker == r.worker {
        return WorkerUnavailable;
      }
      result := Added(r.(name := selected));
      records := records[selected := result.record];
    }

    /**
     * Move records away from externally owned names: exactly those are renamed, oldest
     * first, to distinct fresh names, and nothing else about any record changes.
     */
    method ReassignConflicts(external: set<string>)
      returns (renamed: map<string, string>, ghost numbers: map<string, nat>)
      requires Valid()
      modifies this
      ensures Valid() && records.Keys !! external
      ensures renamed.Keys == old(records).Keys * external
      ensures FreshNames(old(records), renamed, external) && Moved(old(records), records, renamed)
      ensures AgeOrder(old(records), numbers, renamed)
      ensures forall j, k :: j in renamed && k in renamed && old(records)[j].createdAt < old(records)[k].createdAt ==>
        numbers[j] < numbers[k]
    {
      hide Moved, FreshNames, Rename, Filed, IsName, LeastUnused, AgeOrder, OldestFirst, Name, Progress, Older;
      var conflicts := set k | k in records && k in external;
      var used := records.Keys + external;
      renamed, numbers := map[], map[];
      ghost var before, last := records, 0;
      NothingMoved(records, external, conflicts, used);
      while conflicts != {}
        invariant conflicts <= records.Keys
        invariant Progress(before, records, renamed, numbers, last, external, conflicts, used)
        decreases conflicts
      {
        FindOldest(before, records, renamed, numbers, last, external, conflicts, used);
        var oldName :| oldName in conflicts && forall k :: k in conflicts ==> Older(records[oldName], records[k]);
        var newName, n := NextName(used);
        OneMoved(before, records, renamed, numbers, last, external, conflicts, used, oldName, n);
        records := Rename(records, oldName, newName);
        used := used + {newName};
        renamed := renamed[oldName := newName];
        numbers, last := numbers[oldName := n], n;
        conflicts := conflicts - {oldName};
      }
      AllMoved(before, records, renamed, numbers, last, external, used);
      AgeMeans(before, numbers, renamed);
    }

    /** After a reassignment no name is owned by both backends, and each is owned by the one that has it. */
    method Resolve(terminal: set<string>)
      requires Valid()
      modifies this
      ensures Valid() && forall name :: OwnerOf(name, terminal, records.Keys) != Conflict
      ensures forall name :: OwnerOf(name, terminal, records.Keys) == AppServer <==> name in records
      ensures forall name :: OwnerOf(name, terminal, records.Keys) == Terminal <==> name in terminal
    {
      var _, _ := ReassignConflicts(terminal);
    }
  }
}
