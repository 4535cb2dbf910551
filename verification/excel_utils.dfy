/** The spreadsheet-to-hierarchy transformation of src/utils/excelUtils.js:
    `getModelsAndHierarchies` turns every sheet into a part whose subparts are
    the sheet's distinct "Názov 1" values, each listing its "Názov 2" values,
    and collects the distinct names of the whole document; `getSheetData`
    numbers a sheet's rows and reads its headers. */
module ExcelUtils {
  import opened JsValues
  import opened Seqs

  /** The two hierarchy columns ("Name 1" and "Name 2"). */
  const Nazov1: string := "Názov 1"
  const Nazov2: string := "Názov 2"

  /** What the spreadsheet reader gives for a document: the sheet names in
      document order and, per sheet, the rows `sheet_to_json` yields. */
  datatype Workbook = Workbook(sheetNames: seq<string>, sheets: map<string, seq<Row>>)

  /** `sheet_to_json(workbook.Sheets[name])`; a name without a sheet reads as
      a sheet without rows. */
  function SheetRows(wb: Workbook, name: string): seq<Row>
  {
    if name in wb.sheets then wb.sheets[name] else []
  }

  /** `{ name: nazov1, subparts: [...] }`: one "Názov 1" and its "Názov 2" values. */
  datatype Subpart = Subpart(name: Value, subparts: seq<Value>)

  /** `{ name: sheetName, subparts: [...] }`: one sheet's hierarchy. */
  datatype Part = Part(name: string, subparts: seq<Subpart>)

  /** The object `getModelsAndHierarchies` returns. */
  datatype Hierarchies = Hierarchies(
    sheetNames: seq<string>,
    hierarchyData: seq<Part>,
    uniqueNamesNazov1: seq<Value>,
    uniqueNamesNazov2: seq<Value>)

  /** The property key under which `subpartsMap` holds each subpart: the name
      coerced to a string. */
  function SubpartKeys(subs: seq<Subpart>): (ks: seq<string>)
    ensures |ks| == |subs|
    ensures forall i :: 0 <= i < |subs| ==> ks[i] == ToStr(subs[i].name)
  {
    seq(|subs|, i requires 0 <= i < |subs| => ToStr(subs[i].name))
  }

  /** What one row does to its sheet's subparts: a row with a truthy
      "Názov 1" opens a subpart for that name unless one is open under the
      same key, and a truthy "Názov 2" is appended to that subpart's list. */
  function AddRow(subs: seq<Subpart>, row: Row): seq<Subpart>
  {
    if !TruthyAt(row, Nazov1) then subs
    else
      var name := row[Nazov1];
      var ks := SubpartKeys(subs);
      var i := if ToStr(name) in ks then FirstIndex(ks, ToStr(name)) else |subs|;
      var withName := if ToStr(name) in ks then subs else subs + [Subpart(name, [])];
      if TruthyAt(row, Nazov2) then
        withName[i := withName[i].(subparts := withName[i].subparts + [row[Nazov2]])]
      else withName
  }

  /** The subparts of a sheet with these rows. */
  function BuildSubparts(rows: seq<Row>): seq<Subpart>
  {
    if rows == [] then []
    else AddRow(BuildSubparts(rows[..|rows| - 1]), rows[|rows| - 1])
  }

  /** The truthy "Názov 1" values of the rows, in row order. */
  function Names1(rows: seq<Row>): (ns: seq<Value>)
    ensures |ns| <= |rows|
  {
    if rows == [] then []
    else
      var r := rows[|rows| - 1];
      Names1(rows[..|rows| - 1]) + (if TruthyAt(r, Nazov1) then [r[Nazov1]] else [])
  }

  /** The truthy "Názov 2" values of the rows whose "Názov 1" is truthy, in
      row order. */
  function Names2(rows: seq<Row>): seq<Value>
  {
    if rows == [] then []
    else
      var r := rows[|rows| - 1];
      Names2(rows[..|rows| - 1])
        + (if TruthyAt(r, Nazov1) && TruthyAt(r, Nazov2) then [r[Nazov2]] else [])
  }

  /** The truthy "Názov 2" values of the rows whose truthy "Názov 1" has
      property key `key`, in row order, repetitions included. */
  function LeavesUnder(rows: seq<Row>, key: string): seq<Value>
  {
    if rows == [] then []
    else
      var r := rows[|rows| - 1];
      LeavesUnder(rows[..|rows| - 1], key)
        + (if TruthyAt(r, Nazov1) && ToStr(r[Nazov1]) == key && TruthyAt(r, Nazov2)
           then [r[Nazov2]] else [])
  }

  /** Each value coerced to a property key. */
  function KeysOf(vs: seq<Value>): (ks: seq<string>)
    ensures |ks| == |vs|
    ensures forall i :: 0 <= i < |vs| ==> ks[i] == ToStr(vs[i])
  {
    seq(|vs|, i requires 0 <= i < |vs| => ToStr(vs[i]))
  }

  /** The truthy "Názov 1" values of all the named sheets, sheet after sheet. */
  function Names1Across(wb: Workbook, names: seq<string>): seq<Value>
  {
    if names == [] then []
    else Names1Across(wb, names[..|names| - 1]) + Names1(SheetRows(wb, names[|names| - 1]))
  }

  /** The "Názov 2" values `Names2` takes from all the named sheets. */
  function Names2Across(wb: Workbook, names: seq<string>): seq<Value>
  {
    if names == [] then []
    else Names2Across(wb, names[..|names| - 1]) + Names2(SheetRows(wb, names[|names| - 1]))
  }

  lemma KeysOfSnoc(vs: seq<Value>, v: Value)
    ensures KeysOf(vs + [v]) == KeysOf(vs) + [ToStr(v)]
  {
  }

  /** The keys after one row: a new key is appended, nothing else moves. */
  lemma AddRowKeys(subs: seq<Subpart>, row: Row)
    ensures var ks := SubpartKeys(subs);
      SubpartKeys(AddRow(subs, row)) ==
        if !TruthyAt(row, Nazov1) || ToStr(row[Nazov1]) in ks then ks
        else ks + [ToStr(row[Nazov1])]
  {
    if TruthyAt(row, Nazov1) {
      var ks := SubpartKeys(subs);
      var out := AddRow(subs, row);
      var k := ToStr(row[Nazov1]);
      if k in ks {
        assert SubpartKeys(out) == ks;
      } else {
        assert SubpartKeys(out) == ks + [k];
      }
    }
  }

  /** The subpart keys of a sheet are its distinct "Názov 1" keys, each once,
      in first-seen order. */
  lemma {:induction false} SubpartKeysAreDistinctNames(rows: seq<Row>)
    ensures SubpartKeys(BuildSubparts(rows)) == Dedup(KeysOf(Names1(rows)))
  {
    if rows != [] {
      var p, r := rows[..|rows| - 1], rows[|rows| - 1];
      SubpartKeysAreDistinctNames(p);
      AddRowKeys(BuildSubparts(p), r);
      if TruthyAt(r, Nazov1) {
        assert Names1(rows) == Names1(p) + [r[Nazov1]];
        KeysOfSnoc(Names1(p), r[Nazov1]);
        DedupSnoc(KeysOf(Names1(p)), ToStr(r[Nazov1]));
      } else {
        assert Names1(rows) == Names1(p);
      }
    }
  }

  /** The subparts of a sheet carry pairwise different keys. */
  lemma SubpartKeysDistinct(rows: seq<Row>)
    ensures Distinct(SubpartKeys(BuildSubparts(rows)))
  {
    SubpartKeysAreDistinctNames(rows);
  }

  /** `LeavesUnder` is empty for a key no row has. */
  lemma {:induction false} NoLeavesForUnseenKey(rows: seq<Row>, key: string)
    requires key !in KeysOf(Names1(rows))
    ensures LeavesUnder(rows, key) == []
  {
    if rows != [] {
      var p, r := rows[..|rows| - 1], rows[|rows| - 1];
      if TruthyAt(r, Nazov1) {
        assert Names1(rows) == Names1(p) + [r[Nazov1]];
        KeysOfSnoc(Names1(p), r[Nazov1]);
      } else {
        assert Names1(rows) == Names1(p);
      }
      NoLeavesForUnseenKey(p, key);
    }
  }

  /** Each subpart lists exactly the truthy "Názov 2" values of the rows
      under its key, in row order, repetitions kept. */
  lemma {:induction false} SubpartLeaves(rows: seq<Row>)
    ensures var subs := BuildSubparts(rows);
      forall i :: 0 <= i < |subs| ==> subs[i].subparts == LeavesUnder(rows, ToStr(subs[i].name))
  {
    if rows != [] {
      var p, r := rows[..|rows| - 1], rows[|rows| - 1];
      SubpartLeaves(p);
      if TruthyAt(r, Nazov1) {
        var subs := BuildSubparts(p);
        var k := ToStr(r[Nazov1]);
        var ks := SubpartKeys(subs);
        SubpartKeysAreDistinctNames(p);
        SubpartKeysDistinct(p);
        var out := BuildSubparts(rows);
        if k !in ks {
          KeysOfSnoc(Names1(p), r[Nazov1]);
          NoLeavesForUnseenKey(p, k);
        }
        forall i | 0 <= i < |out|
          ensures out[i].subparts == LeavesUnder(rows, ToStr(out[i].name))
        {
          if i < |subs| && ks[i] != k {
            assert out[i] == subs[i];
          }
        }
      }
    }
  }

  /** One row with a truthy "Názov 1", entry by entry: an existing subpart
      under its key gets the row's truthy "Názov 2", or a new subpart is
      appended; every other subpart is left as it was. */
  lemma AddRowEntries(subs: seq<Subpart>, row: Row)
    requires TruthyAt(row, Nazov1)
    ensures var out, ks, k := AddRow(subs, row), SubpartKeys(subs), ToStr(row[Nazov1]);
      var added := if TruthyAt(row, Nazov2) then [row[Nazov2]] else [];
      && (k in ks ==>
            && |out| == |subs|
            && (forall i :: 0 <= i < |subs| && i != FirstIndex(ks, k) ==> out[i] == subs[i])
            && out[FirstIndex(ks, k)].name == subs[FirstIndex(ks, k)].name
            && out[FirstIndex(ks, k)].subparts == subs[FirstIndex(ks, k)].subparts + added)
      && (k !in ks ==>
            && |out| == |subs| + 1
            && (forall i :: 0 <= i < |subs| ==> out[i] == subs[i])
            && out[|subs|] == Subpart(row[Nazov1], added))
  {
  }

  /** `name` is the first of `vs` with its property key. */
  predicate FirstWithKey(vs: seq<Value>, name: Value)
  {
    var ks := KeysOf(vs);
    ToStr(name) in ks && name == vs[FirstIndex(ks, ToStr(name))]
  }

  /** `name` is the "Názov 1" value of the first row whose "Názov 1" has
      the same property key. */
  predicate IsFirstSeenName(rows: seq<Row>, name: Value)
  {
    FirstWithKey(Names1(rows), name)
  }

  lemma FirstWithKeyKept(vs: seq<Value>, v: Value, name: Value)
    requires FirstWithKey(vs, name)
    ensures FirstWithKey(vs + [v], name)
  {
    KeysOfSnoc(vs, v);
    FirstIndexAppend(KeysOf(vs), ToStr(v), ToStr(name));
  }

  lemma FirstWithKeyNew(vs: seq<Value>, v: Value)
    requires ToStr(v) !in KeysOf(vs)
    ensures FirstWithKey(vs + [v], v)
  {
    KeysOfSnoc(vs, v);
    FirstIndexAppend(KeysOf(vs), ToStr(v), ToStr(v));
  }

  /** Each subpart's name is the "Názov 1" value of the first row with its key. */
  lemma {:induction false} SubpartNameFirstSeen(rows: seq<Row>)
    ensures var subs := BuildSubparts(rows);
      forall i :: 0 <= i < |subs| ==> IsFirstSeenName(rows, subs[i].name)
  {
    if rows != [] {
      var p, r := rows[..|rows| - 1], rows[|rows| - 1];
      assert rows == p + [r];
      SubpartNameFirstSeen(p);
      SubpartNameStep(p, r);
    }
  }

  lemma SubpartNameStep(p: seq<Row>, r: Row)
    requires forall i :: 0 <= i < |BuildSubparts(p)| ==> IsFirstSeenName(p, BuildSubparts(p)[i].name)
    ensures var out := BuildSubparts(p + [r]);
      forall i :: 0 <= i < |out| ==> IsFirstSeenName(p + [r], out[i].name)
  {
    var rows := p + [r];
    assert rows[..|rows| - 1] == p;
    var subs, out := BuildSubparts(p), BuildSubparts(rows);
    if TruthyAt(r, Nazov1) {
      assert Names1(rows) == Names1(p) + [r[Nazov1]];
      AddRowEntries(subs, r);
      forall i | 0 <= i < |out|
        ensures IsFirstSeenName(rows, out[i].name)
      {
        if i < |subs| {
          assert out[i].name == subs[i].name;
          FirstWithKeyKept(Names1(p), r[Nazov1], subs[i].name);
        } else {
          SubpartKeysAreDistinctNames(p);
          FirstWithKeyNew(Names1(p), r[Nazov1]);
        }
      }
    } else {
      assert Names1(rows) == Names1(p);
    }
  }

  /** A row whose "Názov 1" is falsy contributes nothing, wherever it stands:
      not to the part, and not to either list of distinct names. */
  lemma {:induction false} FalsyNameRowAddsNothing(a: seq<Row>, row: Row, b: seq<Row>)
    requires !TruthyAt(row, Nazov1)
    ensures BuildSubparts(a + [row] + b) == BuildSubparts(a + b)
    ensures Names1(a + [row] + b) == Names1(a + b)
    ensures Names2(a + [row] + b) == Names2(a + b)
  {
    FalsyNameRowNames(a, row, b);
    if b == [] {
      assert a + [row] + b == a + [row];
      assert (a + [row])[..|a|] == a;
      assert a + b == a;
    } else {
      var b', r := b[..|b| - 1], b[|b| - 1];
      FalsyNameRowAddsNothing(a, row, b');
      AsSnoc(b);
      Assoc(a + [row], b', [r]);
      Assoc(a, b', [r]);
      OfSnoc(a + [row] + b', r);
      OfSnoc(a + b', r);
    }
  }

  /** The name lists skip a row whose "Názov 1" is falsy. */
  lemma {:induction false} FalsyNameRowNames(a: seq<Row>, row: Row, b: seq<Row>)
    requires !TruthyAt(row, Nazov1)
    ensures Names1(a + [row] + b) == Names1(a + b)
    ensures Names2(a + [row] + b) == Names2(a + b)
  {
    if b == [] {
      RowNamesSnoc(a, row);
      AppendEmpty(Names1(a), []);
      AppendEmpty(Names2(a), []);
      AppendEmpty(a + [row], []);
      AppendEmpty(a, []);
    } else {
      var b', r := b[..|b| - 1], b[|b| - 1];
      FalsyNameRowNames(a, row, b');
      AsSnoc(b);
      Assoc(a + [row], b', [r]);
      Assoc(a, b', [r]);
      RowNamesSnoc(a + [row] + b', r);
      RowNamesSnoc(a + b', r);
    }
  }

  /** The name lists of rows extended by one row. */
  lemma RowNamesSnoc(rows: seq<Row>, r: Row)
    ensures Names1(rows + [r]) == Names1(rows) + (if TruthyAt(r, Nazov1) then [r[Nazov1]] else [])
    ensures Names2(rows + [r])
            == Names2(rows) + (if TruthyAt(r, Nazov1) && TruthyAt(r, Nazov2) then [r[Nazov2]] else [])
  {
    OfSnoc(rows, r);
  }

  /** Every row with a truthy "Názov 1" has a subpart under that name's key. */
  lemma EveryNamedRowHasSubpart(rows: seq<Row>, i: nat)
    requires i < |rows| && TruthyAt(rows[i], Nazov1)
    ensures ToStr(rows[i][Nazov1]) in SubpartKeys(BuildSubparts(rows))
  {
    NameListed(rows, i);
    var k := FirstIndex(Names1(rows), rows[i][Nazov1]);
    assert KeysOf(Names1(rows))[k] == ToStr(rows[i][Nazov1]);
    SubpartKeysAreDistinctNames(rows);
  }

  lemma {:induction false} NameListed(rows: seq<Row>, i: nat)
    requires i < |rows| && TruthyAt(rows[i], Nazov1)
    ensures rows[i][Nazov1] in Names1(rows)
  {
    var p := rows[..|rows| - 1];
    if i < |p| {
      NameListed(p, i);
      assert p[i] == rows[i];
    }
  }

  // ---------------------------------------------------------------------------
  // Names a plain object already has

  /** The properties every plain object inherits from `Object.prototype`;
      reading one of them from `{}` gives a function (or, for `__proto__`,
      the prototype object), which is truthy and has no `push` or
      `subparts`. */
  const InheritedNames: set<string> := {
    "constructor", "hasOwnProperty", "isPrototypeOf", "propertyIsEnumerable",
    "toLocaleString", "toString", "valueOf", "__proto__",
    "__defineGetter__", "__defineSetter__", "__lookupGetter__", "__lookupSetter__"
  }

  /** A row whose "Názov 1", or whose "Názov 2" under a truthy "Názov 1",
      is the key of an inherited property. */
  predicate HitsInheritedName(row: Row)
  {
    TruthyAt(row, Nazov1)
    && (ToStr(row[Nazov1]) in InheritedNames
        || (TruthyAt(row, Nazov2) && ToStr(row[Nazov2]) in InheritedNames))
  }

  /** Lines 37-57 as written, on plain objects: `nazov1ToSheets[nazov1]`
      (line 39) and `nazov2ToSheets[nazov2]` (line 51) read an inherited
      property for an inherited name, so no array is stored and the `push`
      at line 42 or 54 throws a `TypeError` (`None`), which ends
      `getModelsAndHierarchies`. Every other row does what `AddRow` does. */
  function AddRowAsWritten(subs: seq<Subpart>, row: Row): Option<seq<Subpart>>
  {
    if HitsInheritedName(row) then None else Some(AddRow(subs, row))
  }

  /** A part name "constructor" makes the reader throw instead of opening a
      subpart for it, which `AddRow` does. */
  lemma InheritedNameThrows()
    ensures var row := map[Nazov1 := Str("constructor")];
      && AddRowAsWritten([], row) == None
      && AddRow([], row) == [Subpart(Str("constructor"), [])]
  {
    var row := map[Nazov1 := Str("constructor")];
    assert TruthyAt(row, Nazov1) && ToStr(row[Nazov1]) == "constructor";
    assert SubpartKeys([]) == [];
  }

  /** `subpartsMap` holds, under each subpart's key, that subpart's position
      in `part.subparts`, and holds nothing else. */
  ghost predicate IndexesSubparts(subpartsMap: map<string, nat>, subs: seq<Subpart>)
  {
    var ks := SubpartKeys(subs);
    && (forall k :: k in subpartsMap <==> k in ks)
    && (forall k :: k in subpartsMap ==> subpartsMap[k] < |subs| && subpartsMap[k] == FirstIndex(ks, k))
  }

  /** The `jsonData.forEach` callback (lines 33-59) on one row: the part's
      subparts become `AddRow` of them, and the two distinct-name lists gain
      the row's truthy names they lack. */
  method VisitRow(row: Row, subparts: seq<Subpart>, subpartsMap: map<string, nat>,
                  names1: seq<Value>, names2: seq<Value>)
    returns (subparts': seq<Subpart>, subpartsMap': map<string, nat>,
             names1': seq<Value>, names2': seq<Value>)
    requires IndexesSubparts(subpartsMap, subparts)
    ensures subparts' == AddRow(subparts, row)
    ensures IndexesSubparts(subpartsMap', subparts')
    ensures names1' == if TruthyAt(row, Nazov1) && row[Nazov1] !in names1
                       then names1 + [row[Nazov1]] else names1
    ensures names2' == if TruthyAt(row, Nazov1) && TruthyAt(row, Nazov2) && row[Nazov2] !in names2
                       then names2 + [row[Nazov2]] else names2
  {
    subparts', subpartsMap', names1', names2' := subparts, subpartsMap, names1, names2;
    if Nazov1 in row && Truthy(row[Nazov1]) {
      var nazov1 := row[Nazov1];
      if nazov1 !in names1' {
        names1' := names1' + [nazov1];
      }
      var key := ToStr(nazov1);
      subparts', subpartsMap' := OpenSubpart(nazov1, subparts', subpartsMap');
      if Nazov2 in row && Truthy(row[Nazov2]) {
        var nazov2 := row[Nazov2];
        if nazov2 !in names2' {
          names2' := names2' + [nazov2];
        }
        var idx := subpartsMap'[key];
        SubpartKeysKeep(subparts', idx, subparts'[idx].subparts + [nazov2]);
        subparts' := subparts'[idx := subparts'[idx].(subparts := subparts'[idx].subparts + [nazov2])];
      }
    }
  }

  /** Changing a subpart's list keeps every key. */
  lemma SubpartKeysKeep(subs: seq<Subpart>, idx: nat, leaves: seq<Value>)
    requires idx < |subs|
    ensures SubpartKeys(subs[idx := subs[idx].(subparts := leaves)]) == SubpartKeys(subs)
  {
  }

  /** Lines 44-47: the subpart of `nazov1` is created, and recorded in
      `subpartsMap`, unless the map already holds its key. */
  method OpenSubpart(nazov1: Value, subparts: seq<Subpart>, subpartsMap: map<string, nat>)
    returns (subparts': seq<Subpart>, subpartsMap': map<string, nat>)
    requires IndexesSubparts(subpartsMap, subparts)
    ensures var key, ks := ToStr(nazov1), SubpartKeys(subparts);
      && subparts' == (if key in ks then subparts else subparts + [Subpart(nazov1, [])])
      && IndexesSubparts(subpartsMap', subparts')
      && key in subpartsMap'
      && subpartsMap'[key] == (if key in ks then FirstIndex(ks, key) else |subparts|)
  {
    var key := ToStr(nazov1);
    ghost var ks := SubpartKeys(subparts);
    subparts', subpartsMap' := subparts, subpartsMap;
    if key !in subpartsMap {
      subpartsMap' := subpartsMap[key := |subparts|];
      subparts' := subparts + [Subpart(nazov1, [])];
      assert SubpartKeys(subparts') == ks + [key];
      forall k | k in subpartsMap'
        ensures subpartsMap'[k] == FirstIndex(SubpartKeys(subparts'), k)
      {
        FirstIndexAppend(ks, key, k);
      }
    }
  }

  /** The `sheetNames.forEach` callback (lines 21-62) on one sheet: its part,
      and the two distinct-name lists extended by the sheet's names. */
  method VisitSheet(sheetName: string, jsonData: seq<Row>, names1: seq<Value>, names2: seq<Value>,
                    ghost before1: seq<Value>, ghost before2: seq<Value>)
    returns (part: Part, names1': seq<Value>, names2': seq<Value>)
    requires names1 == Dedup(before1) && names2 == Dedup(before2)
    ensures part == Part(sheetName, BuildSubparts(jsonData))
    ensures names1' == Dedup(before1 + Names1(jsonData))
    ensures names2' == Dedup(before2 + Names2(jsonData))
  {
    var subparts: seq<Subpart> := [];
    var subpartsMap: map<string, nat> := map[];
    names1', names2' := names1, names2;
    var j := 0;
    assert before1 + Names1(jsonData[..j]) == before1 && before2 + Names2(jsonData[..j]) == before2;
    while j < |jsonData|
      invariant 0 <= j <= |jsonData|
      invariant subparts == BuildSubparts(jsonData[..j])
      invariant IndexesSubparts(subpartsMap, subparts)
      invariant names1' == Dedup(before1 + Names1(jsonData[..j]))
      invariant names2' == Dedup(before2 + Names2(jsonData[..j]))
    {
      var row := jsonData[j];
      PrefixSnoc(jsonData, j);
      NamesSnoc(before1, before2, jsonData[..j], row);
      subparts, subpartsMap, names1', names2' := VisitRow(row, subparts, subpartsMap, names1', names2');
      j := j + 1;
    }
    assert jsonData[..j] == jsonData;
    part := Part(sheetName, subparts);
  }

  /** How the distinct-name lists follow one more row. */
  lemma NamesSnoc(before1: seq<Value>, before2: seq<Value>, rows: seq<Row>, row: Row)
    ensures var n1 := Dedup(before1 + Names1(rows));
      Dedup(before1 + Names1(rows + [row])) ==
        if TruthyAt(row, Nazov1) && row[Nazov1] !in n1 then n1 + [row[Nazov1]] else n1
    ensures var n2 := Dedup(before2 + Names2(rows));
      Dedup(before2 + Names2(rows + [row])) ==
        if TruthyAt(row, Nazov1) && TruthyAt(row, Nazov2) && row[Nazov2] !in n2 then n2 + [row[Nazov2]] else n2
  {
    var rows' := rows + [row];
    assert rows'[..|rows'| - 1] == rows;
    if TruthyAt(row, Nazov1) {
      assert before1 + Names1(rows') == (before1 + Names1(rows)) + [row[Nazov1]];
      DedupSnoc(before1 + Names1(rows), row[Nazov1]);
      if TruthyAt(row, Nazov2) {
        assert before2 + Names2(rows') == (before2 + Names2(rows)) + [row[Nazov2]];
        DedupSnoc(before2 + Names2(rows), row[Nazov2]);
      } else {
        assert Names2(rows') == Names2(rows);
      }
    } else {
      assert Names1(rows') == Names1(rows);
      assert Names2(rows') == Names2(rows);
    }
  }

  /** The parts of the named sheets, one per name, in the same order. */
  function PartsOf(wb: Workbook, names: seq<string>): (parts: seq<Part>)
  {
    if names == [] then []
    else
      var name := names[|names| - 1];
      PartsOf(wb, names[..|names| - 1]) + [Part(name, BuildSubparts(SheetRows(wb, name)))]
  }

  lemma {:induction false} PartsOfAt(wb: Workbook, names: seq<string>)
    ensures |PartsOf(wb, names)| == |names|
    ensures forall i :: 0 <= i < |names| ==>
              PartsOf(wb, names)[i] == Part(names[i], BuildSubparts(SheetRows(wb, names[i])))
  {
    if names != [] {
      PartsOfAt(wb, names[..|names| - 1]);
    }
  }

  /** What one more sheet adds to the parts and to the names of all sheets. */
  lemma AcrossSnoc(wb: Workbook, names: seq<string>, s: nat)
    requires s < |names|
    ensures PartsOf(wb, names[..s + 1])
            == PartsOf(wb, names[..s]) + [Part(names[s], BuildSubparts(SheetRows(wb, names[s])))]
    ensures Names1Across(wb, names[..s + 1]) == Names1Across(wb, names[..s]) + Names1(SheetRows(wb, names[s]))
    ensures Names2Across(wb, names[..s + 1]) == Names2Across(wb, names[..s]) + Names2(SheetRows(wb, names[s]))
  {
    PrefixSnoc(names, s);
  }

  /** `getModelsAndHierarchies` (lines 11-70): one part per sheet, in sheet
      order, named after its sheet, with the subparts `BuildSubparts` gives
      for the sheet's rows; and the distinct truthy "Názov 1" and "Názov 2"
      values of the whole document in first-seen order. */
  method GetModelsAndHierarchies(wb: Workbook) returns (h: Hierarchies)
    ensures h.sheetNames == wb.sheetNames
    ensures |h.hierarchyData| == |wb.sheetNames|
    ensures forall i :: 0 <= i < |wb.sheetNames| ==>
              h.hierarchyData[i] == Part(wb.sheetNames[i], BuildSubparts(SheetRows(wb, wb.sheetNames[i])))
    ensures h.uniqueNamesNazov1 == Dedup(Names1Across(wb, wb.sheetNames))
    ensures h.uniqueNamesNazov2 == Dedup(Names2Across(wb, wb.sheetNames))
  {
    var sheetNames := wb.sheetNames;
    var hierarchyData: seq<Part> := [];
    var uniqueNamesNazov1: seq<Value> := [];
    var uniqueNamesNazov2: seq<Value> := [];
    var s := 0;
    while s < |sheetNames|
      invariant 0 <= s <= |sheetNames|
      invariant |hierarchyData| == s
      invariant hierarchyData == PartsOf(wb, sheetNames[..s])
      invariant uniqueNamesNazov1 == Dedup(Names1Across(wb, sheetNames[..s]))
      invariant uniqueNamesNazov2 == Dedup(Names2Across(wb, sheetNames[..s]))
    {
      var part;
      AcrossSnoc(wb, sheetNames, s);
      part, uniqueNamesNazov1, uniqueNamesNazov2 :=
        VisitSheet(sheetNames[s], SheetRows(wb, sheetNames[s]), uniqueNamesNazov1, uniqueNamesNazov2,
                   Names1Across(wb, sheetNames[..s]), Names2Across(wb, sheetNames[..s]));
      hierarchyData := hierarchyData + [part];
      s := s + 1;
    }
    assert sheetNames[..s] == sheetNames;
    PartsOfAt(wb, sheetNames);
    h := Hierarchies(sheetNames, hierarchyData, uniqueNamesNazov1, uniqueNamesNazov2);
  }

  /** The result of `getSheetData`. */
  datatype SheetData = SheetData(headers: set<string>, tableData: seq<Row>)

  /** `getSheetData` (lines 76-88): the headers are the keys of the first row
      (none for a sheet without rows); row `i` keeps every field it has and
      gains `id: i` unless it already has an "id" field, which the spread
      of the row then overrides. */
  function GetSheetData(wb: Workbook, modelName: string): (d: SheetData)
    ensures var rows := SheetRows(wb, modelName);
      && d.headers == (if rows == [] then {} else rows[0].Keys)
      && |d.tableData| == |rows|
      && forall i :: 0 <= i < |rows| ==>
           && d.tableData[i].Keys == rows[i].Keys + {"id"}
           && (forall k :: k in rows[i] ==> d.tableData[i][k] == rows[i][k])
           && ("id" !in rows[i] ==> d.tableData[i]["id"] == Num(i))
  {
    var rows := SheetRows(wb, modelName);
    var headers := if |rows| == 0 then {} else rows[0].Keys;
    SheetData(headers, seq(|rows|, i requires 0 <= i < |rows| => NumberRow(rows[i], i)))
  }

  /** Row `i` of the table data: `{ id: i, ...row }`, so an "id" field of
      the row itself wins over the number. */
  function NumberRow(row: Row, i: int): Row
  {
    map["id" := Num(i)] + row
  }
}
