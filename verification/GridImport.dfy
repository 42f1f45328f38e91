/**
 Merging the rows of an imported file into a tenant's translation grid, each row already read: a
 rejection, or a key with its strings.
 */
module GridImport {
  import opened Outcomes
  import opened Grouping

  type Strings = map<string, string>
  type Grid = map<string, Strings>

  /** What one row of a file says. */
  datatype Reading = Rejected(key: string, reason: string) | Entry(key: string, strings: Strings)

  datatype Action = Create | Update | Reject(reason: string)

  datatype ImportRow = ImportRow(key: string, action: Action)

  datatype Report = Report(rows: seq<ImportRow>, creates: nat, updates: nat, rejects: nat)

  function Verdict(existing: Grid, reading: Reading): ImportRow {
    match reading
    case Rejected(key, reason) => ImportRow(key, Reject(reason))
    case Entry(key, _) => ImportRow(key, if key in existing then Update else Create)
  }

  /** The last row that imports `key`. */
  function LastEntry(readings: seq<Reading>, key: string): (at: Option<nat>)
    ensures at.Some? ==> at.value < |readings| && readings[at.value].Entry? && readings[at.value].key == key
    ensures forall i :: 0 <= i < |readings| && readings[i].Entry? && readings[i].key == key ==>
            at.Some? && i <= at.value
  {
    if readings == [] then None
    else if readings[|readings| - 1].Entry? && readings[|readings| - 1].key == key then Some(|readings| - 1)
    else LastEntry(readings[..|readings| - 1], key)
  }

  function EntryKeys(readings: seq<Reading>): set<string> {
    set i | 0 <= i < |readings| && readings[i].Entry? :: readings[i].key
  }

  lemma EntryKeysStep(readings: seq<Reading>, reading: Reading)
    ensures EntryKeys(readings + [reading]) == EntryKeys(readings) + if reading.Entry? then {reading.key} else {}
  {
    var longer := readings + [reading];
    assert forall i :: 0 <= i < |readings| ==> longer[i] == readings[i];
    assert longer[|readings|] == reading;
  }

  function StringsFor(existing: Grid, readings: seq<Reading>, key: string): Strings {
    var at := LastEntry(readings, key);
    if at.Some? then readings[at.value].strings
    else if key in existing then existing[key] else map[]
  }

  /** The existing grid with each imported key taken from the last row that imports it. */
  function Overridden(existing: Grid, readings: seq<Reading>): Grid {
    map key | key in existing.Keys + EntryKeys(readings) :: StringsFor(existing, readings, key)
  }

  lemma LastEntryStep(readings: seq<Reading>, reading: Reading, key: string)
    ensures LastEntry(readings + [reading], key) ==
            if reading.Entry? && reading.key == key then Some(|readings|) else LastEntry(readings, key)
  {
    assert (readings + [reading])[..|readings|] == readings;
  }

  lemma StringsForStep(existing: Grid, readings: seq<Reading>, reading: Reading, key: string)
    ensures StringsFor(existing, readings + [reading], key) ==
            if reading.Entry? && reading.key == key then reading.strings else StringsFor(existing, readings, key)
  {
    LastEntryStep(readings, reading, key);
  }

  lemma OverriddenStep(existing: Grid, readings: seq<Reading>, longer: seq<Reading>, reading: Reading)
    requires longer == readings + [reading]
    ensures Overridden(existing, longer) ==
            if reading.Entry? then Overridden(existing, readings)[reading.key := reading.strings]
            else Overridden(existing, readings)
  {
    hide EntryKeys, StringsFor;
    EntryKeysStep(readings, reading);
    forall key
      ensures StringsFor(existing, longer, key) ==
              if reading.Entry? && reading.key == key then reading.strings else StringsFor(existing, readings, key)
    {
      StringsForStep(existing, readings, reading, key);
    }
  }

  function Count(rows: seq<ImportRow>, action: Action): nat {
    if rows == [] then 0
    else Count(rows[..|rows| - 1], action) + if rows[|rows| - 1].action == action then 1 else 0
  }

  lemma CountStep(rows: seq<ImportRow>, row: ImportRow, action: Action)
    ensures Count(rows + [row], action) == Count(rows, action) + if row.action == action then 1 else 0
  {
    assert (rows + [row])[..|rows|] == rows;
  }

  /** The report gives every row its verdict, and counts them. */
  ghost predicate Reports(existing: Grid, readings: seq<Reading>, report: Report) {
    && |report.rows| == |readings|
    && (forall i :: 0 <= i < |readings| ==> report.rows[i] == Verdict(existing, readings[i]))
    && report.creates == Count(report.rows, Create) && report.updates == Count(report.rows, Update)
    && report.creates + report.updates + report.rejects == |readings|
  }

  function Reported(existing: Grid, report: Report, reading: Reading): Report {
    var row := Verdict(existing, reading);
    var rows := report.rows + [row];
    match row.action
    case Create => report.(rows := rows, creates := report.creates + 1)
    case Update => report.(rows := rows, updates := report.updates + 1)
    case Reject(_) => report.(rows := rows, rejects := report.rejects + 1)
  }

  lemma ReportsStep(existing: Grid, readings: seq<Reading>, report: Report, reading: Reading)
    requires Reports(existing, readings, report)
    ensures Reports(existing, readings + [reading], Reported(existing, report, reading))
  {
    hide Count;
    CountStep(report.rows, Verdict(existing, reading), Create);
    CountStep(report.rows, Verdict(existing, reading), Update);
  }

  lemma NothingRead(existing: Grid)
    ensures Overridden(existing, []) == existing && Reports(existing, [], Report([], 0, 0, 0))
  {
  }

  /** One row's effect on the grid and on the report. */
  method MergeRow(existing: Grid, reading: Reading, before: Grid, soFar: Report) returns (merged: Grid, report: Report)
    ensures merged == if reading.Entry? then before[reading.key := reading.strings] else before
    ensures report == Reported(existing, soFar, reading)
  {
    merged, report := before, soFar;
    match reading {
      case Rejected(key, reason) =>
        report := report.(rows := report.rows + [ImportRow(key, Reject(reason))], rejects := report.rejects + 1);
      case Entry(key, strings) =>
        if key in existing {
          report := report.(rows := report.rows + [ImportRow(key, Update)], updates := report.updates + 1);
        } else {
          report := report.(rows := report.rows + [ImportRow(key, Create)], creates := report.creates + 1);
        }
        merged := merged[key := strings];
    }
  }

  /** The grid the valid rows leave, and a verdict per row. */
  method Merge(existing: Grid, readings: seq<Reading>) returns (merged: Grid, report: Report)
    ensures merged == Overridden(existing, readings)
    ensures Reports(existing, readings, report)
  {
    hide *;
    NothingRead(existing);
    merged, report := existing, Report([], 0, 0, 0);
    for n := 0 to |readings|
      invariant merged == Overridden(existing, readings[..n])
      invariant Reports(existing, readings[..n], report)
    {
      assert readings[..n + 1] == readings[..n] + [readings[n]];
      OverriddenStep(existing, readings[..n], readings[..n + 1], readings[n]);
      ReportsStep(existing, readings[..n], report, readings[n]);
      merged, report := MergeRow(existing, readings[n], merged, report);
    }
    assert readings[..|readings|] == readings;
  }

  // --- What an import keeps --------------------------------------------------------------------------------

  /** What every entry of a file and every key of a grid met, every key of the merged grid meets. */
  lemma ImportKeepsRule(existing: Grid, readings: seq<Reading>, rule: Strings -> bool)
    requires forall key :: key in existing ==> rule(existing[key])
    requires forall i :: 0 <= i < |readings| && readings[i].Entry? ==> rule(readings[i].strings)
    ensures forall key :: key in Overridden(existing, readings) ==> rule(Overridden(existing, readings)[key])
  {
  }

  /** The keys of the rows an import would create, in file order. */
  function CreatedKeys(existing: Grid, readings: seq<Reading>): seq<string> {
    if readings == [] then []
    else CreatedKeys(existing, readings[..|readings| - 1]) +
         if Verdict(existing, readings[|readings| - 1]).action == Create then [readings[|readings| - 1].key] else []
  }

  lemma {:induction false} CreatedKeysAre(existing: Grid, readings: seq<Reading>)
    ensures forall key :: key in CreatedKeys(existing, readings) <==> key in EntryKeys(readings) && key !in existing
  {
    if readings != [] {
      var shorter, last := readings[..|readings| - 1], readings[|readings| - 1];
      CreatedKeysAre(existing, shorter);
      EntryKeysStep(shorter, last);
      assert readings == shorter + [last];
    }
  }

  /** The creates a report counts are the created keys. */
  lemma {:induction false} CreatesCounted(existing: Grid, readings: seq<Reading>, rows: seq<ImportRow>)
    requires |rows| == |readings|
    requires forall i :: 0 <= i < |rows| ==> rows[i] == Verdict(existing, readings[i])
    ensures Count(rows, Create) == |CreatedKeys(existing, readings)|
  {
    if rows != [] {
      CreatesCounted(existing, readings[..|rows| - 1], rows[..|rows| - 1]);
    }
  }

  lemma {:induction false} DistinctCount(list: seq<string>, s: set<string>)
    requires forall x :: x in s <==> x in list
    ensures |s| <= |list|
    ensures |s| == |list| <==> Distinct(list)
  {
    if list == [] {
      assert s == {};
    } else {
      var shorter, last := list[..|list| - 1], list[|list| - 1];
      assert list == shorter + [last];
      DistinctStep(shorter, last);
      hide Distinct;
      var rest := set x | x in s && x in shorter;
      DistinctCount(shorter, rest);
      assert s == if last in shorter then rest else rest + {last};
    }
  }

  lemma DistinctStep(list: seq<string>, last: string)
    ensures Distinct(list + [last]) <==> Distinct(list) && last !in list
  {
    var longer := list + [last];
    assert forall i :: 0 <= i < |list| ==> longer[i] == list[i];
    assert longer[|list|] == last;
    if last in list {
      var i :| 0 <= i < |list| && list[i] == last;
      assert longer[i] == longer[|list|];
    }
    if Distinct(longer) {
      forall i, j | 0 <= i < j < |list| ensures list[i] != list[j] { assert longer[i] != longer[j]; }
    }
  }

  /** The grid grows by the new keys the file imports: never more than the creates reported, and by
      exactly them when no new key is repeated. */
  lemma GrowthIsTheCreates(existing: Grid, readings: seq<Reading>, report: Report)
    requires Reports(existing, readings, report)
    ensures var merged := Overridden(existing, readings);
            && |existing| <= |merged| <= |existing| + report.creates
            && (|merged| == |existing| + report.creates <==> Distinct(CreatedKeys(existing, readings)))
  {
    hide Distinct, CreatedKeys, Count, Verdict, StringsFor, EntryKeys;
    var merged, created := Overridden(existing, readings), CreatedKeys(existing, readings);
    CreatesCounted(existing, readings, report.rows);
    CreatedKeysAre(existing, readings);
    var added := merged.Keys - existing.Keys;
    assert merged.Keys == existing.Keys + added;
    DistinctCount(created, added);
    assert |merged.Keys| == |existing.Keys| + |added|;
  }

  /** A file whose every row is an entry, with no key twice, imports into an empty grid as those keys. */
  lemma ImportedAsRead(grid: Grid, keys: seq<string>, readings: seq<Reading>)
    requires |readings| == |keys| && forall key :: key in grid <==> key in keys
    requires forall i :: 0 <= i < |keys| ==> readings[i] == Entry(keys[i], grid[keys[i]])
    ensures Overridden(map[], readings) == grid
  {
    var merged := Overridden(map[], readings);
    forall key | key in grid ensures key in EntryKeys(readings) && LastEntry(readings, key).Some? {
      var i :| 0 <= i < |keys| && keys[i] == key;
      assert readings[i].Entry? && readings[i].key == key;
    }
    assert merged.Keys == grid.Keys;
    assert merged == grid;
  }
}
