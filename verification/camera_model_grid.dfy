/** The data logic of src/components/CameraModelGrid.js, lifted out of the
    React component: the exact-match search filter over a sheet's rows, the
    projection of the filtered rows into group and detail rows, the
    expand/collapse toggle, the substring test that highlights sheets, and
    the sheet-name to part map. */
module CameraModelGrid {
  import opened JsValues
  import opened Seqs
  import opened ExcelUtils

  // ---------------------------------------------------------------------------
  // Search filter (`filteredGridData`, lines 117-125)

  /** Some truthy value of the row, as a lower-cased string, equals the
      lower-cased query. */
  predicate ExactMatch(row: Row, query: string)
  {
    exists k :: k in row && Truthy(row[k]) && Lower(ToStr(row[k])) == Lower(query)
  }

  /** `gridData.filter(...)`: the rows that match the query exactly. */
  function KeepExact(rows: seq<Row>, query: string): seq<Row>
  {
    if rows == [] then []
    else
      var r := rows[|rows| - 1];
      KeepExact(rows[..|rows| - 1], query) + (if ExactMatch(r, query) then [r] else [])
  }

  /** `filteredGridData`: with an empty query every row; otherwise the rows
      that have a value equal to the query up to case, and no others. */
  function FilteredGridData(gridData: seq<Row>, query: string): (r: seq<Row>)
    ensures |r| <= |gridData|
    ensures query == "" ==> r == gridData
    ensures query != "" ==> forall x :: x in r <==> x in gridData && ExactMatch(x, query)
  {
    KeepExactMembers(gridData, query);
    if query == "" then gridData else KeepExact(gridData, query)
  }

  lemma {:induction false} KeepExactMembers(rows: seq<Row>, query: string)
    ensures |KeepExact(rows, query)| <= |rows|
    ensures forall x :: x in KeepExact(rows, query) <==> x in rows && ExactMatch(x, query)
  {
    if rows != [] {
      var p := rows[..|rows| - 1];
      KeepExactMembers(p, query);
      assert rows == p + [rows[|rows| - 1]];
    }
  }

  /** Filtering a concatenation filters each piece: the kept rows stay in
      their original order. */
  lemma {:induction false} FilterKeepsOrder(a: seq<Row>, b: seq<Row>, query: string)
    ensures FilteredGridData(a + b, query) == FilteredGridData(a, query) + FilteredGridData(b, query)
  {
    if query != "" {
      if b == [] {
        assert a + b == a;
      } else {
        var b', r := b[..|b| - 1], b[|b| - 1];
        FilterKeepsOrder(a, b', query);
        assert (a + b)[..|a + b| - 1] == a + b';
      }
    }
  }

  /** The synthetic `id` counts as a value: a non-empty query equal to a row
      number picks that row unless the row brings its own "id" (row 0's id
      is the falsy number 0, so it never matches this way). */
  lemma RowNumberQueryKeepsRow(wb: Workbook, modelName: string, i: nat)
    requires 0 < i < |SheetRows(wb, modelName)|
    requires "id" !in SheetRows(wb, modelName)[i]
    ensures var table := GetSheetData(wb, modelName).tableData;
      table[i] in FilteredGridData(table, DecimalString(i))
  {
    var table := GetSheetData(wb, modelName).tableData;
    assert table[i]["id"] == Num(i);
    assert ExactMatch(table[i], DecimalString(i));
  }

  // ---------------------------------------------------------------------------
  // Group and detail rows (`formattedRows`, lines 132-162)

  /** A row of the grid: a group row (`isGroup: true`) or a detail row. The
      other fields of the source row are in `cells`. */
  datatype DisplayRow = DisplayRow(id: Option<Value>, isGroup: bool, cells: Row)

  /** `row['Názov 1']`. */
  function GroupName(row: Row): Option<Value>
  {
    Get(row, Nazov1)
  }

  /** The "Názov 1" of each row, `undefined` where a row has none. */
  function GroupNames(rows: seq<Row>): (ns: seq<Option<Value>>)
    ensures |ns| == |rows|
    ensures forall i :: 0 <= i < |rows| ==> ns[i] == GroupName(rows[i])
  {
    seq(|rows|, i requires 0 <= i < |rows| => GroupName(rows[i]))
  }

  /** The fields `{...row}` carries besides the `id` and `isGroup` the
      display row sets itself. */
  function Cells(row: Row): Row
  {
    row - {"id", "isGroup"}
  }

  /** The group row a row opens (lines 138-146): its id is the row's
      "Názov 1". */
  function GroupRow(row: Row): DisplayRow
  {
    DisplayRow(GroupName(row), true, Cells(row))
  }

  /** The detail row of a row (lines 150-158): its id is the template
      `${Názov 1}-${Názov 2}`. */
  function DetailRow(row: Row): DisplayRow
  {
    DisplayRow(Some(Str(Stringify(Get(row, Nazov1)) + "-" + Stringify(Get(row, Nazov2)))), false, Cells(row))
  }

  /** `expandedRows[key]` is truthy; keys never toggled read as `undefined`. */
  predicate IsExpanded(expandedRows: map<string, bool>, key: string)
  {
    key in expandedRows && expandedRows[key]
  }

  /** `expandedRows[row['Názov 1']]`: the name is coerced to a property key. */
  predicate RowExpanded(expandedRows: map<string, bool>, row: Row)
  {
    IsExpanded(expandedRows, Stringify(GroupName(row)))
  }

  /** What the grid shows for these rows: each row, in order, first opens a
      group row if no earlier row had the same "Názov 1", then adds its
      detail row if its group is expanded. */
  function Formatted(rows: seq<Row>, expandedRows: map<string, bool>): seq<DisplayRow>
  {
    if rows == [] then []
    else
      var p, r := rows[..|rows| - 1], rows[|rows| - 1];
      Formatted(p, expandedRows)
        + (if GroupName(r) in GroupNames(p) then [] else [GroupRow(r)])
        + (if RowExpanded(expandedRows, r) then [DetailRow(r)] else [])
  }

  /** Some display row has "Názov 1" equal (`===`) to `name`. */
  predicate HasGroupNamed(acc: seq<DisplayRow>, name: Option<Value>)
  {
    exists i :: 0 <= i < |acc| && GroupName(acc[i].cells) == name
  }

  /** The names of the group rows in `acc` are exactly the names of `rows`. */
  ghost predicate GroupsCover(acc: seq<DisplayRow>, rows: seq<Row>)
  {
    forall n :: HasGroupNamed(acc, n) <==> n in GroupNames(rows)
  }

  /** `acc.find(item => item['Názov 1'] === name)`, as a found/not found answer. */
  method FindGroup(acc: seq<DisplayRow>, name: Option<Value>) returns (found: bool)
    ensures found <==> HasGroupNamed(acc, name)
  {
    found := false;
    var i := 0;
    while i < |acc| && !found
      invariant 0 <= i <= |acc|
      invariant found <==> exists t :: 0 <= t < i && GroupName(acc[t].cells) == name
    {
      found := GroupName(acc[i].cells) == name;
      i := i + 1;
    }
  }

  /** `formattedRows` (lines 132-162): the `reduce` that pushes group and
      detail rows into its accumulator, searching the accumulator for an
      existing group. */
  method FormatRows(filteredGridData: seq<Row>, expandedRows: map<string, bool>)
    returns (acc: seq<DisplayRow>)
    ensures acc == Formatted(filteredGridData, expandedRows)
  {
    acc := [];
    var j := 0;
    while j < |filteredGridData|
      invariant 0 <= j <= |filteredGridData|
      invariant acc == Formatted(filteredGridData[..j], expandedRows)
      invariant GroupsCover(acc, filteredGridData[..j])
    {
      acc := FormatRow(filteredGridData, j, expandedRows, acc);
      j := j + 1;
    }
    assert filteredGridData[..j] == filteredGridData;
  }

  /** One iteration of the reduce (lines 134-160): the row opens a group row
      unless `find` sees its name, then adds its detail row if expanded. */
  method FormatRow(filteredGridData: seq<Row>, j: nat, expandedRows: map<string, bool>, acc: seq<DisplayRow>)
    returns (acc': seq<DisplayRow>)
    requires j < |filteredGridData|
    requires acc == Formatted(filteredGridData[..j], expandedRows)
    requires GroupsCover(acc, filteredGridData[..j])
    ensures acc' == Formatted(filteredGridData[..j + 1], expandedRows)
    ensures GroupsCover(acc', filteredGridData[..j + 1])
  {
    acc' := acc;
    var row := filteredGridData[j];
    var existingGroup := FindGroup(acc', GroupName(row));
    ghost var before := acc;
    ghost var g: seq<DisplayRow>, d: seq<DisplayRow> := [], [];
    if !existingGroup {
      acc' := acc' + [GroupRow(row)];
      g := [GroupRow(row)];
    }
    ghost var mid := acc';
    if RowExpanded(expandedRows, row) {
      acc' := acc' + [DetailRow(row)];
      d := [DetailRow(row)];
    }
    FormatRowsStep(filteredGridData, j, expandedRows, before, existingGroup, g, mid, d, acc');
  }

  /** One iteration of the reduce keeps both loop invariants. */
  lemma FormatRowsStep(rows: seq<Row>, j: nat, expandedRows: map<string, bool>,
                       before: seq<DisplayRow>, existingGroup: bool,
                       g: seq<DisplayRow>, mid: seq<DisplayRow>, d: seq<DisplayRow>, after: seq<DisplayRow>)
    requires j < |rows|
    requires before == Formatted(rows[..j], expandedRows)
    requires GroupsCover(before, rows[..j])
    requires existingGroup <==> HasGroupNamed(before, GroupName(rows[j]))
    requires g == if existingGroup then [] else [GroupRow(rows[j])]
    requires d == if RowExpanded(expandedRows, rows[j]) then [DetailRow(rows[j])] else []
    requires mid == before + g && after == mid + d
    ensures after == Formatted(rows[..j + 1], expandedRows)
    ensures GroupsCover(after, rows[..j + 1])
  {
    FormatStep(rows, j, expandedRows);
    FoundGroupsStep(before, rows[..j], rows[j], existingGroup, RowExpanded(expandedRows, rows[j]));
  }

  /** One more row of the reduce: `Formatted` grows by the row's group row
      when its name is new and by its detail row when it is expanded. */
  lemma FormatStep(rows: seq<Row>, j: nat, expandedRows: map<string, bool>)
    requires j < |rows|
    ensures rows[..j + 1] == rows[..j] + [rows[j]]
    ensures Formatted(rows[..j + 1], expandedRows)
            == Formatted(rows[..j], expandedRows)
               + (if GroupName(rows[j]) in GroupNames(rows[..j]) then [] else [GroupRow(rows[j])])
               + (if RowExpanded(expandedRows, rows[j]) then [DetailRow(rows[j])] else [])
  {
    assert rows[..j + 1][..j] == rows[..j];
  }

  /** The names `find` can see after one more row of the reduce: those of
      the earlier rows and the row's own. */
  lemma FoundGroupsStep(before: seq<DisplayRow>, p: seq<Row>, row: Row, existingGroup: bool, expanded: bool)
    requires GroupsCover(before, p)
    requires existingGroup <==> GroupName(row) in GroupNames(p)
    ensures GroupsCover(before + (if existingGroup then [] else [GroupRow(row)])
                               + (if expanded then [DetailRow(row)] else []), p + [row])
  {
    var acc := before + (if existingGroup then [] else [GroupRow(row)])
                      + (if expanded then [DetailRow(row)] else []);
    assert GroupNames(p + [row]) == GroupNames(p) + [GroupName(row)];
    CellsKeepNames(row);
    forall n ensures HasGroupNamed(acc, n) <==> n in GroupNames(p + [row]) {
      if HasGroupNamed(before, n) {
        var i :| 0 <= i < |before| && GroupName(before[i].cells) == n;
        assert acc[i] == before[i];
      } else if n == GroupName(row) {
        assert existingGroup || acc[|before|] == GroupRow(row);
      }
    }
  }

  /** The group rows among display rows, in order. */
  function Groups(ds: seq<DisplayRow>): seq<DisplayRow>
  {
    if ds == [] then []
    else Groups(ds[..|ds| - 1]) + (if ds[|ds| - 1].isGroup then [ds[|ds| - 1]] else [])
  }

  /** The detail rows among display rows, in order. */
  function Details(ds: seq<DisplayRow>): seq<DisplayRow>
  {
    if ds == [] then []
    else Details(ds[..|ds| - 1]) + (if ds[|ds| - 1].isGroup then [] else [ds[|ds| - 1]])
  }

  /** The detail rows of the expanded rows, in row order. */
  function ExpandedDetails(rows: seq<Row>, expandedRows: map<string, bool>): seq<DisplayRow>
  {
    if rows == [] then []
    else
      var r := rows[|rows| - 1];
      ExpandedDetails(rows[..|rows| - 1], expandedRows)
        + (if RowExpanded(expandedRows, r) then [DetailRow(r)] else [])
  }

  lemma {:induction false} GroupsAppend(a: seq<DisplayRow>, b: seq<DisplayRow>)
    ensures Groups(a + b) == Groups(a) + Groups(b)
  {
    if b == [] {
      assert a + b == a;
    } else {
      var p, x := b[..|b| - 1], b[|b| - 1];
      GroupsAppend(a, p);
      assert (a + b)[..|a + b| - 1] == a + p && (a + b)[|a + b| - 1] == x;
      var g := if x.isGroup then [x] else [];
      assert Groups(a + b) == Groups(a + p) + g && Groups(b) == Groups(p) + g;
    }
  }

  lemma {:induction false} DetailsAppend(a: seq<DisplayRow>, b: seq<DisplayRow>)
    ensures Details(a + b) == Details(a) + Details(b)
  {
    if b == [] {
      assert a + b == a;
    } else {
      var p, x := b[..|b| - 1], b[|b| - 1];
      DetailsAppend(a, p);
      assert (a + b)[..|a + b| - 1] == a + p && (a + b)[|a + b| - 1] == x;
      var d := if x.isGroup then [] else [x];
      assert Details(a + b) == Details(a + p) + d && Details(b) == Details(p) + d;
    }
  }

  lemma {:induction false} GroupsDetailsLength(ds: seq<DisplayRow>)
    ensures |ds| == |Groups(ds)| + |Details(ds)|
  {
    if ds != [] {
      GroupsDetailsLength(ds[..|ds| - 1]);
    }
  }

  /** One step of `Formatted`: the row's group row, if its name is new, then
      its detail row, if it is expanded. */
  lemma FormattedStepParts(p: seq<Row>, r: Row, expandedRows: map<string, bool>)
    ensures Formatted(p + [r], expandedRows)
            == Formatted(p, expandedRows)
               + (if GroupName(r) in GroupNames(p) then [] else [GroupRow(r)])
               + (if RowExpanded(expandedRows, r) then [DetailRow(r)] else [])
  {
    var rows := p + [r];
    assert rows[..|rows| - 1] == p && rows[|rows| - 1] == r;
  }

  /** The group and detail rows of a single display row. */
  lemma SingleParts(x: DisplayRow)
    ensures Groups([x]) == if x.isGroup then [x] else []
    ensures Details([x]) == if x.isGroup then [] else [x]
  {
    assert [x][..0] == [];
  }

  /** One step of `Formatted`, split into its group part and its detail part. */
  lemma FormattedSnoc(p: seq<Row>, r: Row, expandedRows: map<string, bool>)
    ensures var f, f' := Formatted(p, expandedRows), Formatted(p + [r], expandedRows);
      && Groups(f') == Groups(f) + (if GroupName(r) in GroupNames(p) then [] else [GroupRow(r)])
      && Details(f') == Details(f) + (if RowExpanded(expandedRows, r) then [DetailRow(r)] else [])
  {
    var f := Formatted(p, expandedRows);
    var g := if GroupName(r) in GroupNames(p) then [] else [GroupRow(r)];
    var d := if RowExpanded(expandedRows, r) then [DetailRow(r)] else [];
    FormattedStepParts(p, r, expandedRows);
    SingleParts(GroupRow(r));
    SingleParts(DetailRow(r));
    assert Groups(g) == g && Groups(d) == [];
    assert Details(g) == [] && Details(d) == d;
    GroupsAppend(f + g, d);
    GroupsAppend(f, g);
    AppendEmpty(Groups(f), g);
    DetailsAppend(f + g, d);
    DetailsAppend(f, g);
    AppendEmpty(Details(f), d);
  }

  /** The group rows of the grid are, in order, one per distinct "Názov 1"
      of the rows, each built from the first row that has that name. */
  ghost predicate GroupRowsAreFirstOccurrences(rows: seq<Row>, expandedRows: map<string, bool>)
  {
    MatchFirstRows(Groups(Formatted(rows, expandedRows)), Dedup(GroupNames(rows)), rows)
  }

  /** `gs[i]` is the group row of the first row named `names[i]`. */
  predicate MatchFirstRows(gs: seq<DisplayRow>, names: seq<Option<Value>>, rows: seq<Row>)
  {
    && |gs| == |names|
    && forall i :: 0 <= i < |gs| ==>
         && names[i] in GroupNames(rows)
         && gs[i].id == names[i]
         && gs[i] == GroupRow(rows[FirstIndex(GroupNames(rows), names[i])])
  }

  /** Exactly one group row per distinct "Názov 1" of the rows, in the order
      of first occurrence, each with the id and fields of the first row that
      has that name. */
  lemma {:induction false} GroupRowsFirstOccurrence(rows: seq<Row>, expandedRows: map<string, bool>)
    ensures var gs, names := Groups(Formatted(rows, expandedRows)), Dedup(GroupNames(rows));
      && |gs| == |names|
      && forall i :: 0 <= i < |gs| ==>
           gs[i].id == names[i] && gs[i] == GroupRow(rows[FirstIndex(GroupNames(rows), names[i])])
  {
    if rows != [] {
      var p, r := rows[..|rows| - 1], rows[|rows| - 1];
      assert rows == p + [r];
      GroupRowsFirstOccurrence(p, expandedRows);
      GroupRowsStep(p, r, expandedRows);
    }
  }

  /** One row more keeps the group rows matched to first occurrences. */
  lemma GroupRowsStep(p: seq<Row>, r: Row, expandedRows: map<string, bool>)
    requires GroupRowsAreFirstOccurrences(p, expandedRows)
    ensures GroupRowsAreFirstOccurrences(p + [r], expandedRows)
  {
    var gp, np := Groups(Formatted(p, expandedRows)), Dedup(GroupNames(p));
    var isNew := GroupName(r) !in GroupNames(p);
    FormattedSnoc(p, r, expandedRows);
    GroupNamesSnoc(p, r);
    DedupSnoc(GroupNames(p), GroupName(r));
    assert Dedup(GroupNames(p + [r])) == np + (if isNew then [GroupName(r)] else []);
    MatchFirstStep(gp, np, p, r);
  }

  lemma GroupNamesSnoc(p: seq<Row>, r: Row)
    ensures GroupNames(p + [r]) == GroupNames(p) + [GroupName(r)]
  {
  }

  /** The matching survives one more row, which adds a group row exactly
      when its name is new. */
  lemma MatchFirstStep(gp: seq<DisplayRow>, np: seq<Option<Value>>, p: seq<Row>, r: Row)
    requires MatchFirstRows(gp, np, p)
    ensures var isNew := GroupName(r) !in GroupNames(p);
      MatchFirstRows(gp + (if isNew then [GroupRow(r)] else []), np + (if isNew then [GroupName(r)] else []), p + [r])
  {
    var rows := p + [r];
    var isNew := GroupName(r) !in GroupNames(p);
    var gs, names := gp + (if isNew then [GroupRow(r)] else []), np + (if isNew then [GroupName(r)] else []);
    GroupNamesSnoc(p, r);
    forall i | 0 <= i < |gs|
      ensures names[i] in GroupNames(rows)
      ensures gs[i].id == names[i] && gs[i] == GroupRow(rows[FirstIndex(GroupNames(rows), names[i])])
    {
      if i < |gp| {
        assert gs[i] == gp[i] && names[i] == np[i];
        FirstGroupKept(p, r, np[i]);
      } else {
        assert gs[i] == GroupRow(r) && names[i] == GroupName(r);
        FirstGroupNew(p, r);
        assert rows[|p|] == r;
      }
    }
  }

  /** A name already among the rows keeps its first row when a row is added. */
  lemma FirstGroupKept(p: seq<Row>, r: Row, x: Option<Value>)
    requires x in GroupNames(p)
    ensures var k := FirstIndex(GroupNames(p), x);
      FirstIndex(GroupNames(p) + [GroupName(r)], x) == k && (p + [r])[k] == p[k]
  {
    FirstIndexAppend(GroupNames(p), GroupName(r), x);
  }

  /** A new name's first row is the added one. */
  lemma FirstGroupNew(p: seq<Row>, r: Row)
    requires GroupName(r) !in GroupNames(p)
    ensures FirstIndex(GroupNames(p) + [GroupName(r)], GroupName(r)) == |p|
  {
    FirstIndexAppend(GroupNames(p), GroupName(r), GroupName(r));
  }

  /** The detail rows are those of the rows whose group is expanded, in row
      order. */
  lemma {:induction false} DetailRowsInRowOrder(rows: seq<Row>, expandedRows: map<string, bool>)
    ensures Details(Formatted(rows, expandedRows)) == ExpandedDetails(rows, expandedRows)
  {
    if rows != [] {
      var p, r := rows[..|rows| - 1], rows[|rows| - 1];
      assert rows == p + [r];
      DetailRowsInRowOrder(p, expandedRows);
      FormattedSnoc(p, r, expandedRows);
    }
  }

  /** The grid has one row per distinct "Názov 1" plus one per row whose
      group is expanded; with no rows it is empty. */
  lemma FormattedLength(rows: seq<Row>, expandedRows: map<string, bool>)
    ensures |Formatted(rows, expandedRows)|
            == |Dedup(GroupNames(rows))| + |ExpandedDetails(rows, expandedRows)|
    ensures rows == [] ==> Formatted(rows, expandedRows) == []
  {
    GroupsDetailsLength(Formatted(rows, expandedRows));
    GroupRowsFirstOccurrence(rows, expandedRows);
    DetailRowsInRowOrder(rows, expandedRows);
  }

  /** With nothing expanded only group rows appear. */
  lemma {:induction false} NothingExpandedOnlyGroups(rows: seq<Row>, expandedRows: map<string, bool>)
    requires forall k :: k in expandedRows ==> !expandedRows[k]
    ensures forall d :: d in Formatted(rows, expandedRows) ==> d.isGroup
    ensures |Formatted(rows, expandedRows)| == |Dedup(GroupNames(rows))|
  {
    if rows != [] {
      var p := rows[..|rows| - 1];
      NothingExpandedOnlyGroups(p, expandedRows);
      assert ExpandedDetails(rows, expandedRows) == ExpandedDetails(p, expandedRows);
    }
    NoExpandedDetails(rows, expandedRows);
    FormattedLength(rows, expandedRows);
  }

  lemma {:induction false} NoExpandedDetails(rows: seq<Row>, expandedRows: map<string, bool>)
    requires forall k :: k in expandedRows ==> !expandedRows[k]
    ensures ExpandedDetails(rows, expandedRows) == []
  {
    if rows != [] {
      NoExpandedDetails(rows[..|rows| - 1], expandedRows);
    }
  }

  /** The display rows without the detail rows of the group with key `key`. */
  function WithoutDetailsOf(ds: seq<DisplayRow>, key: string): seq<DisplayRow>
  {
    if ds == [] then []
    else
      var d := ds[|ds| - 1];
      WithoutDetailsOf(ds[..|ds| - 1], key)
        + (if !d.isGroup && Stringify(GroupName(d.cells)) == key then [] else [d])
  }

  lemma {:induction false} WithoutDetailsOfAppend(a: seq<DisplayRow>, b: seq<DisplayRow>, key: string)
    ensures WithoutDetailsOf(a + b, key) == WithoutDetailsOf(a, key) + WithoutDetailsOf(b, key)
  {
    if b == [] {
      assert a + b == a;
    } else {
      var p, x := b[..|b| - 1], b[|b| - 1];
      WithoutDetailsOfAppend(a, p, key);
      var keep := if !x.isGroup && Stringify(GroupName(x.cells)) == key then [] else [x];
      assert (a + b)[..|a + b| - 1] == a + p && (a + b)[|a + b| - 1] == x;
      assert WithoutDetailsOf(a + b, key) == WithoutDetailsOf(a + p, key) + keep;
      assert WithoutDetailsOf(b, key) == WithoutDetailsOf(p, key) + keep;
    }
  }

  /** Expanding a group adds exactly that group's detail rows: removing them
      from the expanded grid gives the collapsed grid, every other row
      unchanged and in place. */
  lemma {:induction false} ExpandAddsOnlyThatGroup(rows: seq<Row>, expandedRows: map<string, bool>, key: string)
    ensures WithoutDetailsOf(Formatted(rows, expandedRows[key := true]), key)
            == Formatted(rows, expandedRows[key := false])
  {
    if rows != [] {
      var p, r := rows[..|rows| - 1], rows[|rows| - 1];
      assert rows == p + [r];
      ExpandAddsOnlyThatGroup(p, expandedRows, key);
      ExpandStep(p, r, expandedRows[key := true], expandedRows[key := false], key);
    }
  }

  /** One row more keeps the expanded and the collapsed grid apart by
      exactly the detail rows of the group with key `key`. */
  lemma ExpandStep(p: seq<Row>, r: Row, on: map<string, bool>, off: map<string, bool>, key: string)
    requires IsExpanded(on, key) && !IsExpanded(off, key)
    requires forall k :: k != key ==> IsExpanded(on, k) == IsExpanded(off, k)
    requires WithoutDetailsOf(Formatted(p, on), key) == Formatted(p, off)
    ensures WithoutDetailsOf(Formatted(p + [r], on), key) == Formatted(p + [r], off)
  {
    var g := if GroupName(r) in GroupNames(p) then [] else [GroupRow(r)];
    var d := if RowExpanded(on, r) then [DetailRow(r)] else [];
    var d' := if RowExpanded(off, r) then [DetailRow(r)] else [];
    FormattedStepParts(p, r, on);
    FormattedStepParts(p, r, off);
    WithoutDetailsOfAppend(Formatted(p, on) + g, d, key);
    WithoutDetailsOfAppend(Formatted(p, on), g, key);
    SingleWithout(GroupRow(r), key);
    SingleWithout(DetailRow(r), key);
    CellsKeepNames(r);
    assert WithoutDetailsOf(g, key) == g;
    assert WithoutDetailsOf(d, key) == d';
  }

  /** Removing a group's detail rows from a single display row. */
  lemma SingleWithout(x: DisplayRow, key: string)
    ensures WithoutDetailsOf([x], key) == if !x.isGroup && Stringify(GroupName(x.cells)) == key then [] else [x]
  {
    assert [x][..0] == [];
  }

  /** The fields of a display row keep the row's two names. */
  lemma CellsKeepNames(row: Row)
    ensures GroupName(Cells(row)) == GroupName(row)
    ensures Get(Cells(row), Nazov2) == Get(row, Nazov2)
  {
    assert |Nazov1| == |Nazov2| == 7 && |"id"| == 2 && |"isGroup"| == 7;
    assert Nazov1[0] != 'i' && Nazov2[0] != 'i';
  }

  // ---------------------------------------------------------------------------
  // Expand / collapse (`toggleRowExpand`, lines 110-115)

  /** `toggleRowExpand(nazov1)`: a new map in which the name's key is flipped
      and every other key keeps its value. */
  function ToggleRowExpand(expandedRows: map<string, bool>, nazov1: Option<Value>): (r: map<string, bool>)
    ensures r.Keys == expandedRows.Keys + {Stringify(nazov1)}
    ensures IsExpanded(r, Stringify(nazov1)) == !IsExpanded(expandedRows, Stringify(nazov1))
    ensures forall k :: k in expandedRows && k != Stringify(nazov1) ==> r[k] == expandedRows[k]
  {
    expandedRows[Stringify(nazov1) := !IsExpanded(expandedRows, Stringify(nazov1))]
  }

  /** Toggling the same group twice restores whether every group is expanded. */
  lemma ToggleTwice(expandedRows: map<string, bool>, nazov1: Option<Value>)
    ensures forall k :: IsExpanded(ToggleRowExpand(ToggleRowExpand(expandedRows, nazov1), nazov1), k)
                        == IsExpanded(expandedRows, k)
  {
  }

  // ---------------------------------------------------------------------------
  // Highlighting (the match test of `highlightModels`, lines 46-73)

  /** Some truthy value of the row, as a lower-cased string, contains the
      lower-cased query. */
  predicate ContainsMatch(row: Row, query: string)
  {
    exists k :: k in row && Truthy(row[k]) && Contains(Lower(ToStr(row[k])), Lower(query))
  }

  /** `tableData.some(...)` (lines 53-59). */
  predicate ModelHasMatch(tableData: seq<Row>, query: string)
  {
    exists i :: 0 <= i < |tableData| && ContainsMatch(tableData[i], query)
  }

  /** Some numbered row of the sheet has a value containing the query. */
  predicate SheetHasMatch(wb: Workbook, modelName: string, query: string)
  {
    ModelHasMatch(GetSheetData(wb, modelName).tableData, query)
  }

  /** The sheets among `names` that have a match, collected in order. */
  function HighlightedAmong(wb: Workbook, names: seq<string>, query: string): set<string>
  {
    if names == [] then {}
    else
      var name := names[|names| - 1];
      HighlightedAmong(wb, names[..|names| - 1], query)
        + (if SheetHasMatch(wb, name, query) then {name} else {})
  }

  /** A sheet is collected exactly when it is among the names and has a match. */
  lemma {:induction false} HighlightedAmongMembers(wb: Workbook, names: seq<string>, query: string)
    ensures forall name :: name in HighlightedAmong(wb, names, query) <==>
              name in names && SheetHasMatch(wb, name, query)
  {
    if names != [] {
      var p := names[..|names| - 1];
      HighlightedAmongMembers(wb, p, query);
      assert names == p + [names[|names| - 1]];
    }
  }

  /** The sheets `highlightModels` marks for a query: none for the empty query. */
  function Highlighted(wb: Workbook, query: string): set<string>
  {
    if query == "" then {} else HighlightedAmong(wb, wb.sheetNames, query)
  }

  /** `highlightModels` with its guard (lines 46-73): a sheet is highlighted
      exactly when the query is non-empty and one of the sheet's numbered
      rows has a value containing it up to case. */
  method HighlightModels(wb: Workbook, searchQuery: string) returns (highlightedSet: set<string>)
    ensures searchQuery == "" ==> highlightedSet == {}
    ensures forall name :: name in highlightedSet <==>
              searchQuery != "" && name in wb.sheetNames && SheetHasMatch(wb, name, searchQuery)
    ensures highlightedSet == Highlighted(wb, searchQuery)
  {
    highlightedSet := {};
    if searchQuery != "" {
      var i := 0;
      while i < |wb.sheetNames|
        invariant 0 <= i <= |wb.sheetNames|
        invariant highlightedSet == HighlightedAmong(wb, wb.sheetNames[..i], searchQuery)
      {
        var modelName := wb.sheetNames[i];
        var modelHasMatch := SheetHasMatch(wb, modelName, searchQuery);
        if modelHasMatch {
          highlightedSet := highlightedSet + {modelName};
        }
        PrefixSnoc(wb.sheetNames, i);
        i := i + 1;
      }
      assert wb.sheetNames[..i] == wb.sheetNames;
      HighlightedAmongMembers(wb, wb.sheetNames, searchQuery);
    }
  }

  /** A row the grid's exact filter keeps for a query puts its sheet among
      the highlighted ones for that query: equality implies containment. */
  lemma ExactHitIsHighlighted(wb: Workbook, modelName: string, query: string, row: Row)
    requires query != "" && modelName in wb.sheetNames
    requires row in FilteredGridData(GetSheetData(wb, modelName).tableData, query)
    ensures modelName in Highlighted(wb, query)
  {
    var table := GetSheetData(wb, modelName).tableData;
    var k :| k in row && Truthy(row[k]) && Lower(ToStr(row[k])) == Lower(query);
    ContainsSelf(Lower(query));
    assert ContainsMatch(row, query);
    var i :| 0 <= i < |table| && table[i] == row;
    assert ModelHasMatch(table, query);
    HighlightedAmongMembers(wb, wb.sheetNames, query);
  }

  /** The row numbers count too: a query spelling the number of a row past
      the first highlights that row's sheet, whatever its cells hold. */
  lemma RowNumberQueryHighlights(wb: Workbook, modelName: string, i: nat)
    requires modelName in wb.sheetNames
    requires 0 < i < |SheetRows(wb, modelName)|
    requires "id" !in SheetRows(wb, modelName)[i]
    ensures modelName in Highlighted(wb, DecimalString(i))
  {
    RowNumberQueryKeepsRow(wb, modelName, i);
    var table := GetSheetData(wb, modelName).tableData;
    ExactHitIsHighlighted(wb, modelName, DecimalString(i), table[i]);
  }

  // ---------------------------------------------------------------------------
  // Sheet name to part (`hierarchyMap`, lines 29-32)

  /** `hierarchyData.reduce((acc, item) => { acc[item.name] = item; ... }, {})`:
      the keys are exactly the part names, and each key maps to a part of
      that name. */
  function HierarchyMap(hierarchyData: seq<Part>): (m: map<string, Part>)
    ensures forall i :: 0 <= i < |hierarchyData| ==> hierarchyData[i].name in m
    ensures forall name :: name in m ==> m[name].name == name && m[name] in hierarchyData
  {
    if hierarchyData == [] then map[]
    else
      var p, item := hierarchyData[..|hierarchyData| - 1], hierarchyData[|hierarchyData| - 1];
      assert forall i :: 0 <= i < |p| ==> p[i] == hierarchyData[i];
      HierarchyMap(p)[item.name := item]
  }

  /** When names repeat the last part wins: a part no later part shares its
      name with is the one the map holds. */
  lemma {:induction false} HierarchyMapLast(hierarchyData: seq<Part>, i: nat)
    requires i < |hierarchyData|
    requires forall j :: i < j < |hierarchyData| ==> hierarchyData[j].name != hierarchyData[i].name
    ensures HierarchyMap(hierarchyData)[hierarchyData[i].name] == hierarchyData[i]
  {
    var p := hierarchyData[..|hierarchyData| - 1];
    if i < |p| {
      assert p[i] == hierarchyData[i];
      HierarchyMapLast(p, i);
    }
  }

  /** Over the parts `getModelsAndHierarchies` builds, the map has exactly
      the sheet names as keys and holds each sheet's own part. */
  lemma ModelsHierarchyOfWorkbook(wb: Workbook)
    ensures var m := HierarchyMap(PartsOf(wb, wb.sheetNames));
      && (forall name :: name in m ==> name in wb.sheetNames)
      && forall name :: name in wb.sheetNames ==>
           name in m && m[name] == Part(name, BuildSubparts(SheetRows(wb, name)))
  {
    var parts := PartsOf(wb, wb.sheetNames);
    PartsOfAt(wb, wb.sheetNames);
    var m := HierarchyMap(parts);
    forall name | name in m
      ensures name in wb.sheetNames && m[name] == Part(name, BuildSubparts(SheetRows(wb, name)))
    {
      var j :| 0 <= j < |parts| && parts[j] == m[name];
      assert parts[j].name == wb.sheetNames[j];
    }
    forall name | name in wb.sheetNames ensures name in m {
      var i :| 0 <= i < |wb.sheetNames| && wb.sheetNames[i] == name;
      assert parts[i].name == name;
    }
  }
}
