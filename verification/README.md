# Camera model browser: spreadsheet reader, grid and hierarchy graph

This project models the core of a small React application that browses camera
models from a spreadsheet. Every sheet of the workbook is one camera model.
Each row of a sheet names a part in the column "Názov 1" and a sub-part in
"Názov 2". The model covers three pieces:

- **The spreadsheet reader** (`excel_utils.dfy`, module `ExcelUtils`):
  - `getModelsAndHierarchies` builds one part per sheet. Its subparts are the distinct "Názov 1" values in first-seen order, each listing the "Názov 2" values of its rows. It also builds the global first-seen lists of all "Názov 1" and "Názov 2" values.
  - `getSheetData` returns the grid rows of one sheet, each numbered with an `id`.
  - The reader is imperative in the source, so it is a method with nested loops. It is proved against the fold functions `BuildSubparts`, `Names1` and `Names2`.
- **The grid component** (`camera_model_grid.dfy`, module `CameraModelGrid`):
  - the exact-match filter on the grid rows;
  - the `reduce` that turns rows into group rows and, for expanded groups, detail rows (a method proved against the function `Formatted`);
  - the toggle of a group's expanded flag;
  - the search highlight over all sheets (a loop proved against `Highlighted`);
  - the map from sheet name to hierarchy.
- **The hierarchy graph** (`hierarchy_visualization.dfy`, module `HierarchyVisualization`):
  - `generateSafeId`, the identifier sanitiser;
  - the node list;
  - the edge list, de-duplicated through a `Set` of edge keys (a method proved against `Edges`);
  - the element list handed to the graph library.

`js_values.dfy` (module `JsValues`) gives the JavaScript semantics the code relies on:

- cell values are strings or integers, and `undefined` is `None`;
- truthiness;
- `String(v)` coercion of property keys and template literals;
- ASCII `toLowerCase`;
- `includes` as a substring test.

`seqs.dfy` (module `Seqs`) holds generic sequence facts. `Dedup` is what a `Set` filled by `add` gives back through `Array.from`.

`scenarios.dfy` (module `Scenarios`) works small examples through the model, among them the edge-key collision below.

Behaviours of the code that are easy to miss, which the model follows:

- A numeric subpart name makes `generateSafeId` throw, because numbers have no `replace`. `Elements` is `None` then.
- An "id" column of a sheet overrides the row number, because the spread comes after `id: index`.
- A query spelling the number `i > 0` of a row without its own "id" highlights that row's sheet. The query "0" does not reach row 0 through its number, because an `id` of 0 is falsy, and a row with its own "id" shows that value instead of its number.
- An edge key is the source id, `-` and the target id run together, so two different pairs of nodes can share a key, and then only the first of the two edges is drawn (`Scenarios.KeyCollisionDropsEdge`).

## Model

| member | source | states |
|---|---|---|
| Seqs.Dedup | src/utils/excelUtils.js:67-68 | the distinct values of a `Set` read back as an array: no element twice, exactly the elements of the input, never longer |
| Seqs.DedupFirstSeen | src/utils/excelUtils.js:15-16 | the elements come out in the order of their first insertion |
| Seqs.DedupConcat | src/components/HierarchyVisualization.js:24-41 | a `Set` shared across two passes: the first pass's distinct elements, then the second pass's elements not seen before |
| Seqs.FlattenMembership | src/components/HierarchyVisualization.js:15-22 | an element is in a flattened list iff it is in one of the pieces; `NodeMembership` applies it to the node list |
| JsValues.ContainsSelf | src/components/CameraModelGrid.js:57 | `s.includes(s)` holds, so an exact hit is also a substring hit |
| ExcelUtils.AddRowKeys | src/utils/excelUtils.js:44-47 | after one row the subpart keys are the old keys, plus the row's "Názov 1" key appended when it is truthy and new |
| ExcelUtils.AddRowEntries | src/utils/excelUtils.js:37-57 | one row with a truthy "Názov 1": an existing subpart with that key gets the row's truthy "Názov 2" appended; otherwise a new subpart is appended; no other subpart changes |
| ExcelUtils.SubpartKeysAreDistinctNames | src/utils/excelUtils.js:33-59 | the subpart keys of a sheet are exactly its distinct truthy "Názov 1" keys in first-seen order |
| ExcelUtils.SubpartKeysDistinct | src/utils/excelUtils.js:44-47 | no two subparts of a sheet share a key |
| ExcelUtils.SubpartLeaves | src/utils/excelUtils.js:49-57 | each subpart lists, in row order, the truthy "Názov 2" of every row whose "Názov 1" has its key |
| ExcelUtils.SubpartNameFirstSeen | src/utils/excelUtils.js:44-46 | each subpart's name is the "Názov 1" value of the first row with its key |
| ExcelUtils.FalsyNameRowAddsNothing | src/utils/excelUtils.js:37 | a row with a falsy "Názov 1" changes neither the subparts nor either name list, wherever it stands |
| ExcelUtils.EveryNamedRowHasSubpart | src/utils/excelUtils.js:37-47 | every row with a truthy "Názov 1" has a subpart under that name's key |
| ExcelUtils.InheritedNameThrows | src/utils/excelUtils.js:39-42 | as written, a row named "constructor" throws, while the own-property reading gives the subpart `constructor` |
| ExcelUtils.VisitRow | src/utils/excelUtils.js:33-59 | one row updates the subparts as `AddRow` does, keeps `subpartsMap` an index of the subparts by key, and adds the row's names to the name sets when they are truthy and new |
| ExcelUtils.OpenSubpart | src/utils/excelUtils.js:44-47 | a key not yet in the index opens an empty subpart at the end and indexes it there; a known key leaves the list alone; either way the index stays exact |
| ExcelUtils.VisitSheet | src/utils/excelUtils.js:21-62 | one sheet yields the part with its `BuildSubparts` and extends both name lists by the sheet's names, first-seen order kept |
| ExcelUtils.PartsOfAt | src/utils/excelUtils.js:21-61 | one part per sheet name, in order, named after its sheet and holding that sheet's subparts |
| ExcelUtils.GetModelsAndHierarchies | src/utils/excelUtils.js:11-70 | the sheet names as given, one part per sheet in order, and the distinct "Názov 1" / "Názov 2" values of all sheets in first-seen order |
| ExcelUtils.GetSheetData | src/utils/excelUtils.js:76-88 | the headers are the columns of the first row (none for an empty sheet); row `i` keeps all its cells and gains `id: i` unless it has its own "id" |
| CameraModelGrid.FilteredGridData | src/components/CameraModelGrid.js:117-125 | an empty query keeps every row; otherwise exactly the rows with a truthy value whose lower-cased string equals the lower-cased query |
| CameraModelGrid.KeepExactMembers | src/components/CameraModelGrid.js:118-124 | the filter keeps a row iff it is among the input and matches exactly |
| CameraModelGrid.FilterKeepsOrder | src/components/CameraModelGrid.js:117-125 | filtering a concatenation filters each piece, so the kept rows stay in order |
| CameraModelGrid.RowNumberQueryKeepsRow | src/components/CameraModelGrid.js:117-125 | a query spelling the number `i > 0` of a row without its own "id" keeps that row of the sheet's grid data |
| CameraModelGrid.FindGroup | src/components/CameraModelGrid.js:133-135 | `find` succeeds iff some display row has the row's "Názov 1" |
| CameraModelGrid.FormatRows | src/components/CameraModelGrid.js:132-162 | the `reduce` yields `Formatted` of the filtered rows |
| CameraModelGrid.FormatRow | src/components/CameraModelGrid.js:133-160 | one step of the `reduce` extends `Formatted` by one row and keeps the group names of the display rows equal to those of the rows seen |
| CameraModelGrid.GroupRowsFirstOccurrence | src/components/CameraModelGrid.js:133-147 | the group rows are, in order, one per distinct "Názov 1", each built from the first row carrying it |
| CameraModelGrid.DetailRowsInRowOrder | src/components/CameraModelGrid.js:149-159 | the detail rows are the details of the rows whose group is expanded, in row order |
| CameraModelGrid.FormattedLength | src/components/CameraModelGrid.js:132-162 | the grid has one row per distinct "Názov 1" plus one per expanded row; no rows give no grid rows |
| CameraModelGrid.NothingExpandedOnlyGroups | src/components/CameraModelGrid.js:149 | with nothing expanded only group rows appear, one per distinct "Názov 1" |
| CameraModelGrid.ExpandAddsOnlyThatGroup | src/components/CameraModelGrid.js:149-159 | expanding a group adds only that group's detail rows; removing them gives the grid with the group collapsed |
| CameraModelGrid.CellsKeepNames | src/components/CameraModelGrid.js:138-158 | group and detail rows keep the row's "Názov 1" and "Názov 2" |
| CameraModelGrid.ToggleRowExpand | src/components/CameraModelGrid.js:110-115 | the name's key is flipped, every other key keeps its value, and the key set gains the name's key |
| CameraModelGrid.ToggleTwice | src/components/CameraModelGrid.js:110-115 | toggling the same name twice restores whether every key is expanded |
| CameraModelGrid.HighlightModels | src/components/CameraModelGrid.js:46-73 | an empty query highlights nothing; otherwise a sheet is highlighted iff it is listed and some numbered row has a truthy value containing the lower-cased query |
| CameraModelGrid.HighlightedAmongMembers | src/components/CameraModelGrid.js:49-64 | the sheets the loop collects are exactly the listed ones with a match |
| CameraModelGrid.ExactHitIsHighlighted | src/components/CameraModelGrid.js:53-59 | a row the grid's exact filter keeps puts its sheet among the highlighted ones |
| CameraModelGrid.RowNumberQueryHighlights | src/components/CameraModelGrid.js:53-59 | a query spelling the number `i > 0` of a row without its own "id" highlights that row's sheet |
| CameraModelGrid.HierarchyMap | src/components/CameraModelGrid.js:29-32 | the keys are exactly the part names, and each key maps to a part of that name in the list |
| CameraModelGrid.HierarchyMapLast | src/components/CameraModelGrid.js:29-32 | the last part with a name is the one the map keeps for it |
| CameraModelGrid.ModelsHierarchyOfWorkbook | src/components/CameraModelGrid.js:28-32 | over the reader's parts, the map has exactly the sheet names as keys, each mapped to its own sheet's part |
| HierarchyVisualization.SkipSpaces | src/components/HierarchyVisualization.js:11 | dropping the leading whitespace run never lengthens, shortens a string that starts with whitespace, and leaves no whitespace first |
| HierarchyVisualization.CollapseSpaces | src/components/HierarchyVisualization.js:11 | after `replace(/\s+/g, '-')` no whitespace is left |
| HierarchyVisualization.DropUnsafe | src/components/HierarchyVisualization.js:11 | after `replace(/[^\w-]/g, '')` only `[\w-]` characters are left and nothing got longer |
| HierarchyVisualization.DropUnsafeOfUnsafe | src/components/HierarchyVisualization.js:11 | a character outside `[\w-]` is deleted, not replaced |
| HierarchyVisualization.DropUnsafeMembers | src/components/HierarchyVisualization.js:11 | the characters left are exactly the safe characters of the input |
| HierarchyVisualization.SafeId | src/components/HierarchyVisualization.js:11 | a generated id consists of `[\w-]` characters only |
| HierarchyVisualization.GenerateSafeId | src/components/HierarchyVisualization.js:11 | a text name yields its safe id; a numeric name has no `replace` and throws |
| HierarchyVisualization.DropUnsafeAppend | src/components/HierarchyVisualization.js:11 | deleting unsafe characters works piece by piece |
| HierarchyVisualization.DropUnsafeOfSafe | src/components/HierarchyVisualization.js:11 | a safe string has nothing deleted |
| HierarchyVisualization.CollapseOfNoSpaces | src/components/HierarchyVisualization.js:11 | a string without whitespace is not changed by the collapse |
| HierarchyVisualization.SafeIdOfSafe | src/components/HierarchyVisualization.js:11 | a string of `[\w-]` characters is its own id |
| HierarchyVisualization.SafeIdIdempotent | src/components/HierarchyVisualization.js:11 | sanitising an id again changes nothing |
| HierarchyVisualization.SkipSpacesRun | src/components/HierarchyVisualization.js:11 | a whole whitespace run is skipped at once |
| HierarchyVisualization.CollapseRun | src/components/HierarchyVisualization.js:11 | a whitespace run between two pieces becomes one `-` |
| HierarchyVisualization.SafeIdRun | src/components/HierarchyVisualization.js:11 | the id of "a, whitespace, b" is the safe part of `a`, one `-`, and the id of `b` |
| HierarchyVisualization.SafeIdOfColumnName | src/components/HierarchyVisualization.js:11 | accented letters are deleted, not transliterated: "Názov 1" becomes "Nzov-1" |
| HierarchyVisualization.NodesCount | src/components/HierarchyVisualization.js:15-22 | one node per subpart plus one per leaf entry |
| HierarchyVisualization.NodesFlatten | src/components/HierarchyVisualization.js:15-22 | the node list is the `flatMap`: each subpart's block (its own node, then its leaf nodes) flattened in subpart order |
| HierarchyVisualization.NodeMembership | src/components/HierarchyVisualization.js:15-22 | a node is listed exactly when it is in the block of some subpart |
| HierarchyVisualization.NodesAt | src/components/HierarchyVisualization.js:15-22 | the nodes of subpart `i` (its own node, then its leaves) follow the nodes of the subparts before it |
| HierarchyVisualization.NoSubpartNodeIsMain | src/components/HierarchyVisualization.js:13-21 | only the main node carries `main` |
| HierarchyVisualization.BuildEdges | src/components/HierarchyVisualization.js:24-41 | the `flatMap` with the shared key set yields `Edges` |
| HierarchyVisualization.BuildLeafEdges | src/components/HierarchyVisualization.js:30-39 | one subpart's `map`/`filter(Boolean)` yields `LeafEdges` and adds exactly its leaves' keys to the set |
| HierarchyVisualization.EdgesCount | src/components/HierarchyVisualization.js:24-41 | one edge per subpart from the main node, plus the drawn leaf edges |
| HierarchyVisualization.MainEdgeAt | src/components/HierarchyVisualization.js:29 | the main-to-subpart edge of subpart `i` stands right after the edges of the subparts before it |
| HierarchyVisualization.LeafEdgesKeys | src/components/HierarchyVisualization.js:30-39 | one subpart's drawn edges are keyed by its leaf keys not seen before, in order |
| HierarchyVisualization.LeafEdgeKeysAreDistinctKeys | src/components/HierarchyVisualization.js:24-41 | the drawn leaf edges are keyed, in order, by the distinct keys of all leaves: no key repeated, no key lost (two different edges with one key are drawn once, see `KeyCollisionDropsEdge`) |
| HierarchyVisualization.LeafEdgesShape | src/components/HierarchyVisualization.js:30-39 | every leaf edge goes from the subpart's node to one of its leaf nodes |
| HierarchyVisualization.EdgeEndpoints | src/components/HierarchyVisualization.js:24-41 | every edge starts at the main id or a subpart's node and ends at a node of the subparts |
| HierarchyVisualization.BuildElements | src/components/HierarchyVisualization.js:11-42 | the element list is `Elements`, and it exists exactly when every subpart name is text |
| HierarchyVisualization.ElementsShape | src/components/HierarchyVisualization.js:42 | the main node first, then exactly the subpart and leaf nodes, then the edges (one per subpart plus one per distinct leaf key); every edge joins nodes of the list |
| Scenarios.CamASubparts | src/utils/excelUtils.js:33-59 | rows Lens/L1, Lens/L2, Body/B1 give subparts Lens [L1, L2] and Body [B1] |
| Scenarios.OpenLens | src/utils/excelUtils.js:44-55 | the first Lens row opens subpart Lens with leaf L1 |
| Scenarios.AddLensL2 | src/utils/excelUtils.js:44-55 | the second Lens row appends L2 to the open Lens subpart |
| Scenarios.OpenBody | src/utils/excelUtils.js:44-55 | the Body row opens a second subpart after Lens |
| Scenarios.CamASheetData | src/utils/excelUtils.js:76-88 | the grid data of a sheet holding those rows is the rows numbered 0, 1 and 2 |
| Scenarios.CamAGrid | src/components/CameraModelGrid.js:132-162 | with both groups expanded the grid data read from that sheet shows Lens, Lens-L1, Lens-L2, Body, Body-B1, group rows marked |
| Scenarios.CamAFormatted | src/components/CameraModelGrid.js:132-162 | those rows give the Lens group row, two Lens details, the Body group row and its detail |
| Scenarios.RepeatedLeafOneEdge | src/components/HierarchyVisualization.js:15-41 | a leaf listed twice gets two nodes but one edge |
| Scenarios.RepeatedLeafEdges | src/components/HierarchyVisualization.js:30-39 | the second copy of a leaf adds no edge, whatever the ids |
| Scenarios.KeyCollisionDropsEdge | src/components/HierarchyVisualization.js:31-32 | for safe texts x and y, subpart x with leaf x-x-y and subpart x-x with leaf y share an edge key, so the edge from node x-x to node x-x-y is never drawn although both nodes exist |
| Scenarios.CollisionEdges | src/components/HierarchyVisualization.js:24-41 | those two subparts give exactly the two main edges and the first leaf edge |
| Scenarios.CollisionNodes | src/components/HierarchyVisualization.js:15-22 | both ends of the missing edge are in the node list |

## Left out

- `loadWorkbook` is left out (the file fetch and the XLSX parsing). A workbook is a value: sheet names plus, per sheet, the rows `sheet_to_json` yields.
- Rows are maps, so `Object.keys` order is not modelled. `getSheetData`'s `headers` is the set of the first row's columns.
- Cell values are text or integers. Floating-point cells, booleans, dates and the exponent form of `toString` are left out, and so are `-0` and `NaN`.
- `toLowerCase` is modelled for ASCII letters only; Unicode case mapping is left out. Strings are sequences of Unicode scalar values: a lone surrogate cannot be represented, and a character outside the Basic Multilingual Plane is one element where JavaScript counts two code units.
- React state, hooks, the handlers and the rendering are left out: data grid columns, buttons, view switching, loading flags.
- The state updates are modelled as the values they store. `HighlightModels` reloads the workbook once per sheet in the source; the model reads one workbook, so a file that changes during the loop is not covered. Nor is a stale asynchronous result that lands after a newer query.
- Graph-library instantiation, styles, layout and zoom are left out. Whatever the library does with duplicate node ids is not covered; `Elements` is the list handed to it.
- `nazov1ToSheets` and `nazov2ToSheets` are never read by the code. Only the throw they can cause is modelled (`AddRowAsWritten`); their contents are not.
- HierarchyVisualization with `modelsHierarchy` undefined is left out; the grid only renders it for a selected sheet.
- `expandedRows` keys that collide with `Object.prototype` names are left out: `IsExpanded` reads own properties only.
- `getModelsAndHierarchies` throwing is left out of `GetModelsAndHierarchies`, which models the own-property reading (see Findings). The source's `fetchData` catches the throw and shows no models.
- NodesAt: the position of a subpart's block is stated as a prefix of the node list rather than as explicit indices.
- DropUnsafe: its own contract states only that the result is safe and no longer; that each unsafe character is deleted and each safe one kept is stated by `DropUnsafeOfUnsafe`, `DropUnsafeMembers`, `DropUnsafeAppend` and `DropUnsafeOfSafe`.
- Cells: the display rows of the source also set four columns ('Registračné číslo 2', 'Celková kalkulačná cena', 'MJ evidencia', `MNF`) explicitly, so a row without them gets the key with value `undefined`; the model leaves such a key out. No stated property depends on this.
- GetSheetData: a sheet's "id" cell that is explicitly `undefined` is not distinguished from a missing one.

## Findings

| source | as written | input that shows it | evidently intended | confidence | as-written member | corrected member |
|---|---|---|---|---|---|---|
| src/utils/excelUtils.js:39-42 and 51-54 | `nazov1ToSheets[nazov1]` is looked up on a plain object, so a name that is an inherited `Object.prototype` property reads as truthy, and `.push` on it throws | a sheet row with "Názov 1" = "constructor" (or "toString", "valueOf", `__proto__`, ...) | every row with a truthy "Názov 1" gets a subpart under that name, as for any other text | not executed | ExcelUtils.InheritedNameThrows | ExcelUtils.EveryNamedRowHasSubpart |
