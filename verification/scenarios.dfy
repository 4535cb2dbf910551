/** Worked examples: a sheet "CamA" with two "Lens" rows and one "Body" row,
    read into a part and shown fully expanded in the grid; a leaf listed
    twice; and two subparts whose leaf edges share one edge key. */
module Scenarios {
  import opened JsValues
  import opened Seqs
  import opened ExcelUtils
  import opened CameraModelGrid
  import opened HierarchyVisualization

  function LensL1(): Row { map[Nazov1 := Str("Lens"), Nazov2 := Str("L1"), "Cost" := Num(10)] }
  function LensL2(): Row { map[Nazov1 := Str("Lens"), Nazov2 := Str("L2"), "Cost" := Num(10)] }
  function BodyB1(): Row { map[Nazov1 := Str("Body"), Nazov2 := Str("B1"), "Cost" := Num(20)] }

  /** The two "Lens" rows share one subpart that lists both leaves; "Body"
      opens a second subpart. */
  lemma CamASubparts()
    ensures BuildSubparts([LensL1(), LensL2(), BodyB1()])
            == [Subpart(Str("Lens"), [Str("L1"), Str("L2")]), Subpart(Str("Body"), [Str("B1")])]
  {
    var rows := [LensL1(), LensL2(), BodyB1()];
    assert rows[..2] == [LensL1(), LensL2()] && rows[..2][..1] == [LensL1()] && [LensL1()][..0] == [];
    OpenLens();
    AddLensL2();
    OpenBody();
  }

  /** The first "Lens" row opens the "Lens" subpart with leaf "L1". */
  lemma OpenLens()
    ensures AddRow([], LensL1()) == [Subpart(Str("Lens"), [Str("L1")])]
  {
    ColumnsDiffer();
    assert LensL1()[Nazov1] == Str("Lens") && LensL1()[Nazov2] == Str("L1");
    AddRowEntries([], LensL1());
  }

  /** The second "Lens" row adds "L2" to the open "Lens" subpart. */
  lemma AddLensL2()
    ensures AddRow([Subpart(Str("Lens"), [Str("L1")])], LensL2())
            == [Subpart(Str("Lens"), [Str("L1"), Str("L2")])]
  {
    ColumnsDiffer();
    var s1 := [Subpart(Str("Lens"), [Str("L1")])];
    assert LensL2()[Nazov1] == Str("Lens") && LensL2()[Nazov2] == Str("L2");
    assert SubpartKeys(s1) == ["Lens"];
    assert FirstIndex(["Lens"], "Lens") == 0;
    AddRowEntries(s1, LensL2());
    var out := AddRow(s1, LensL2());
    assert out[0].subparts == [Str("L1")] + [Str("L2")] == [Str("L1"), Str("L2")];
  }

  /** The "Body" row opens a second subpart after "Lens". */
  lemma OpenBody()
    ensures AddRow([Subpart(Str("Lens"), [Str("L1"), Str("L2")])], BodyB1())
            == [Subpart(Str("Lens"), [Str("L1"), Str("L2")]), Subpart(Str("Body"), [Str("B1")])]
  {
    ColumnsDiffer();
    var s2 := [Subpart(Str("Lens"), [Str("L1"), Str("L2")])];
    assert BodyB1()[Nazov1] == Str("Body") && BodyB1()[Nazov2] == Str("B1");
    assert SubpartKeys(s2) == ["Lens"];
    assert "Body" != "Lens";
    AddRowEntries(s2, BodyB1());
  }

  lemma ColumnsDiffer()
    ensures Nazov1 != Nazov2 && Nazov1 != "Cost" && Nazov2 != "Cost"
  {
    assert Nazov1[6] != Nazov2[6];
  }

  /** A document whose only sheet, "CamA", holds the three rows. */
  function CamA(): Workbook { Workbook(["CamA"], map["CamA" := [LensL1(), LensL2(), BodyB1()]]) }

  /** The grid data of sheet "CamA" is its three rows numbered 0, 1 and 2. */
  lemma CamASheetData()
    ensures GetSheetData(CamA(), "CamA").tableData
            == [NumberRow(LensL1(), 0), NumberRow(LensL2(), 1), NumberRow(BodyB1(), 2)]
  {
  }

  /** With both groups expanded and no query the grid of sheet "CamA", as
      `getSheetData` reads it, shows five rows:
      the "Lens" group row, the details "Lens-L1" and "Lens-L2", the "Body"
      group row and the detail "Body-B1". */
  lemma CamAGrid()
    ensures var rows := GetSheetData(CamA(), "CamA").tableData;
      var f := Formatted(FilteredGridData(rows, ""), map["Lens" := true, "Body" := true]);
      && |f| == 5
      && f[0].isGroup && f[0].id == Some(Str("Lens"))
      && !f[1].isGroup && f[1].id == Some(Str("Lens-L1"))
      && !f[2].isGroup && f[2].id == Some(Str("Lens-L2"))
      && f[3].isGroup && f[3].id == Some(Str("Body"))
      && !f[4].isGroup && f[4].id == Some(Str("Body-B1"))
  {
    CamASheetData();
    CamAGridOf(GetSheetData(CamA(), "CamA").tableData);
  }

  /** The same five rows, for the numbered rows themselves. */
  lemma CamAGridOf(rows: seq<Row>)
    requires rows == [NumberRow(LensL1(), 0), NumberRow(LensL2(), 1), NumberRow(BodyB1(), 2)]
    ensures var f := Formatted(FilteredGridData(rows, ""), map["Lens" := true, "Body" := true]);
      && |f| == 5
      && f[0].isGroup && f[0].id == Some(Str("Lens"))
      && !f[1].isGroup && f[1].id == Some(Str("Lens-L1"))
      && !f[2].isGroup && f[2].id == Some(Str("Lens-L2"))
      && f[3].isGroup && f[3].id == Some(Str("Body"))
      && !f[4].isGroup && f[4].id == Some(Str("Body-B1"))
  {
    CamAFormatted();
    CamADisplayIds();
  }

  /** The display rows of the three numbered rows, both groups expanded. */
  lemma CamAFormatted()
    ensures var a, b, c := NumberRow(LensL1(), 0), NumberRow(LensL2(), 1), NumberRow(BodyB1(), 2);
      Formatted([a, b, c], map["Lens" := true, "Body" := true])
      == [GroupRow(a), DetailRow(a), DetailRow(b), GroupRow(c), DetailRow(c)]
  {
    var a, b, c := NumberRow(LensL1(), 0), NumberRow(LensL2(), 1), NumberRow(BodyB1(), 2);
    var rows := [a, b, c];
    var exp := map["Lens" := true, "Body" := true];
    CamAGridRows();
    assert rows[..2] == [a, b] && rows[..2][..1] == [a] && [a][..0] == [];
    assert Formatted([a], exp) == [GroupRow(a), DetailRow(a)];
    assert Formatted([a, b], exp) == [GroupRow(a), DetailRow(a), DetailRow(b)];
  }

  /** The group names of the numbered rows, and both groups expanded. */
  lemma CamAGridRows()
    ensures var a, b, c := NumberRow(LensL1(), 0), NumberRow(LensL2(), 1), NumberRow(BodyB1(), 2);
      var exp := map["Lens" := true, "Body" := true];
      && GroupName(a) == Some(Str("Lens")) && GroupName(b) == Some(Str("Lens"))
      && GroupName(c) == Some(Str("Body"))
      && GroupNames([a]) == [Some(Str("Lens"))]
      && GroupNames([a, b]) == [Some(Str("Lens")), Some(Str("Lens"))]
      && RowExpanded(exp, a) && RowExpanded(exp, b) && RowExpanded(exp, c)
  {
    ColumnsDiffer();
    var a, b, c := NumberRow(LensL1(), 0), NumberRow(LensL2(), 1), NumberRow(BodyB1(), 2);
    assert GroupName(a) == Some(Str("Lens"));
    assert GroupName(b) == Some(Str("Lens"));
    assert GroupName(c) == Some(Str("Body"));
  }

  /** The ids of the group and detail rows of the numbered rows. */
  lemma CamADisplayIds()
    ensures var a, b, c := NumberRow(LensL1(), 0), NumberRow(LensL2(), 1), NumberRow(BodyB1(), 2);
      && GroupRow(a).id == Some(Str("Lens")) && GroupRow(c).id == Some(Str("Body"))
      && DetailRow(a).id == Some(Str("Lens-L1")) && DetailRow(b).id == Some(Str("Lens-L2"))
      && DetailRow(c).id == Some(Str("Body-B1"))
  {
    ColumnsDiffer();
    var a, b, c := NumberRow(LensL1(), 0), NumberRow(LensL2(), 1), NumberRow(BodyB1(), 2);
    assert Get(a, Nazov1) == Some(Str("Lens")) && Get(a, Nazov2) == Some(Str("L1"));
    assert Get(b, Nazov1) == Some(Str("Lens")) && Get(b, Nazov2) == Some(Str("L2"));
    assert Get(c, Nazov1) == Some(Str("Body")) && Get(c, Nazov2) == Some(Str("B1"));
    assert "Lens" + "-" + "L1" == "Lens-L1" && "Lens" + "-" + "L2" == "Lens-L2";
    assert "Body" + "-" + "B1" == "Body-B1";
  }

  /** A leaf listed twice under one subpart gets two nodes but one edge. */
  lemma RepeatedLeafOneEdge()
    ensures var subs := [Subpart(Str("Lens"), [Str("L1"), Str("L1")])];
      && |Nodes(subs)| == 3
      && Edges("CamA", subs) == [Edge("CamA", "Lens"), Edge("Lens", "Lens-L1")]
  {
    var sub := Subpart(Str("Lens"), [Str("L1"), Str("L1")]);
    OneSubpartCounts(sub);
    OneSubpartEdges("CamA", sub);
    RepeatedLeafEdges(sub);
    LensIds(sub);
  }

  /** One subpart gives one node for itself and one per leaf entry. */
  lemma OneSubpartCounts(sub: Subpart)
    ensures |Nodes([sub])| == 1 + |sub.subparts|
  {
    NodesCount([sub]);
    assert [sub][..0] == [];
  }

  /** The edges of a single subpart: the main edge, then its leaf edges. */
  lemma OneSubpartEdges(mainId: string, sub: Subpart)
    ensures Edges(mainId, [sub]) == [Edge(mainId, SubpartId(sub))] + LeafEdges(sub, sub.subparts, [])
  {
    assert [sub][..0] == [];
  }

  /** Whatever the ids, the second copy of a leaf adds no edge. */
  lemma RepeatedLeafEdges(sub: Subpart)
    requires sub.subparts == [Str("L1"), Str("L1")]
    ensures LeafEdges(sub, sub.subparts, []) == [Edge(SubpartId(sub), LeafId(sub, Str("L1")))]
  {
    LeafStep(sub, sub.subparts, 0, []);
    LeafStep(sub, sub.subparts, 1, []);
    assert sub.subparts[..2] == sub.subparts && sub.subparts[..0] == [];
  }

  /** The ids of the "Lens" subpart and of its leaf "L1". */
  lemma LensIds(sub: Subpart)
    requires sub.name == Str("Lens")
    ensures SubpartId(sub) == "Lens" && LeafId(sub, Str("L1")) == "Lens-L1"
  {
    LensSubpartId(sub);
    LensLeafId(sub);
  }

  lemma LensSubpartId(sub: Subpart)
    requires sub.name == Str("Lens")
    ensures SubpartId(sub) == "Lens"
  {
    SafeLens();
  }

  lemma LensLeafId(sub: Subpart)
    requires sub.name == Str("Lens")
    ensures LeafId(sub, Str("L1")) == "Lens-L1"
  {
    assert ToStr(sub.name) + "-" + ToStr(Str("L1")) == "Lens-L1";
    SafeLensL1();
  }

  lemma SafeLens()
    ensures SafeId("Lens") == "Lens"
  {
    assert IsSafe("Lens");
    SafeIdOfSafe("Lens");
  }

  lemma SafeLensL1()
    ensures SafeId("Lens-L1") == "Lens-L1"
  {
    assert IsSafe("Lens-L1");
    SafeIdOfSafe("Lens-L1");
  }

  /** Edge keys are plain concatenations, so two different pairs of nodes can
      share one. For safe texts `x` and `y` (say "a" and "b"), subpart `x`
      with leaf `x-x-y` and subpart `x-x` with leaf `y` both give the key
      `x-x-x-x-y`, and the second edge is never drawn, although both of its
      ends are nodes. */
  lemma KeyCollisionDropsEdge(mainId: string, x: string, y: string)
    requires IsSafe(x) && IsSafe(y)
    ensures var xx := x + "-" + x;
      var sub1, s2 := Subpart(Str(x), [Str(xx + "-" + y)]), Subpart(Str(xx), [Str(y)]);
      && Edges(mainId, [sub1, s2])
         == [Edge(mainId, x), Edge(x, x + "-" + (xx + "-" + y)), Edge(mainId, xx)]
      && Edge(xx, xx + "-" + y) !in Edges(mainId, [sub1, s2])
      && Node(xx, Str(xx), false) in Nodes([sub1, s2])
      && Node(xx + "-" + y, Str(y), false) in Nodes([sub1, s2])
  {
    var xx := x + "-" + x;
    CollisionEdges(mainId, x, y);
    CollisionNodes(x, y);
    assert |x + "-" + (xx + "-" + y)| != |xx + "-" + y|;
    assert |xx| != |x|;
  }

  /** Only the first of the two colliding leaf edges is drawn. */
  lemma CollisionEdges(mainId: string, x: string, y: string)
    requires IsSafe(x) && IsSafe(y)
    ensures var xx := x + "-" + x;
      var sub1, s2 := Subpart(Str(x), [Str(xx + "-" + y)]), Subpart(Str(xx), [Str(y)]);
      Edges(mainId, [sub1, s2])
      == [Edge(mainId, x), Edge(x, x + "-" + (xx + "-" + y)), Edge(mainId, xx)]
  {
    var xx := x + "-" + x;
    var sub1, s2 := Subpart(Str(x), [Str(xx + "-" + y)]), Subpart(Str(xx), [Str(y)]);
    CollisionIds(x, y);
    assert [sub1] + [s2] == [sub1, s2];
    SnocParts(mainId, [sub1], s2);
    OneSubpartEdges(mainId, sub1);
    SingleLeafEdges(sub1, []);
    assert [sub1][..0] == [];
    assert KeyStream([sub1]) == LeafKeys(sub1, sub1.subparts);
    SingleLeafEdges(s2, KeyStream([sub1]));
  }

  /** Both ends of the missing edge are nodes: the second subpart's own
      node and its leaf's node. */
  lemma CollisionNodes(x: string, y: string)
    requires IsSafe(x) && IsSafe(y)
    ensures var xx := x + "-" + x;
      var sub1, s2 := Subpart(Str(x), [Str(xx + "-" + y)]), Subpart(Str(xx), [Str(y)]);
      && Node(xx, Str(xx), false) in Nodes([sub1, s2])
      && Node(xx + "-" + y, Str(y), false) in Nodes([sub1, s2])
  {
    var xx := x + "-" + x;
    var sub1, s2 := Subpart(Str(x), [Str(xx + "-" + y)]), Subpart(Str(xx), [Str(y)]);
    var subs := [sub1, s2];
    CollisionIds(x, y);
    NodeMembership(subs, Node(xx, Str(xx), false));
    assert Node(xx, Str(xx), false) in NodeBlock(subs[1]);
    NodeMembership(subs, Node(xx + "-" + y, Str(y), false));
    assert LeafNodes(s2)[0] == Node(xx + "-" + y, Str(y), false);
    assert Node(xx + "-" + y, Str(y), false) in NodeBlock(subs[1]);
  }

  /** The leaf edges of a subpart with a single leaf. */
  lemma SingleLeafEdges(sub: Subpart, seen: seq<string>)
    requires |sub.subparts| == 1
    ensures LeafEdges(sub, sub.subparts, seen)
            == if EdgeKey(sub, sub.subparts[0]) in seen then []
               else [Edge(SubpartId(sub), LeafId(sub, sub.subparts[0]))]
  {
    LeafStep(sub, sub.subparts, 0, seen);
    assert sub.subparts[..1] == sub.subparts && sub.subparts[..0] == [];
  }

  /** The ids and edge keys of the two colliding subparts. */
  lemma CollisionIds(x: string, y: string)
    requires IsSafe(x) && IsSafe(y)
    ensures var xx := x + "-" + x;
      var sub1, s2 := Subpart(Str(x), [Str(xx + "-" + y)]), Subpart(Str(xx), [Str(y)]);
      && SubpartId(sub1) == x && LeafId(sub1, Str(xx + "-" + y)) == x + "-" + (xx + "-" + y)
      && SubpartId(s2) == xx && LeafId(s2, Str(y)) == xx + "-" + y
      && EdgeKey(sub1, Str(xx + "-" + y)) == EdgeKey(s2, Str(y))
  {
    var xx := x + "-" + x;
    SafeDash(x, x);
    SafeDash(xx, y);
    SafeDash(x, xx + "-" + y);
    SafeIdOfSafe(x);
    SafeIdOfSafe(xx);
    SafeIdOfSafe(xx + "-" + y);
    SafeIdOfSafe(x + "-" + (xx + "-" + y));
    DashAssoc(x, x, xx + "-" + y);
  }

  /** Joining with `-` is associative. */
  lemma DashAssoc(a: string, b: string, c: string)
    ensures a + "-" + (b + "-" + c) == (a + "-" + b) + "-" + c
  {
  }

  /** Joining two safe strings with `-` gives a safe string. */
  lemma SafeDash(a: string, b: string)
    requires IsSafe(a) && IsSafe(b)
    ensures IsSafe(a + "-" + b)
  {
    var r := a + "-" + b;
    forall i | 0 <= i < |r| ensures IsSafeChar(r[i]) {
      if i < |a| {
        assert r[i] == a[i];
      } else if i > |a| {
        assert r[i] == b[i - |a| - 1];
      }
    }
  }
}
