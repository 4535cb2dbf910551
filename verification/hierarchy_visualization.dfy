/** The graph data of src/components/HierarchyVisualization.js: the id
    sanitiser `generateSafeId` and the element list (main node, subpart and
    leaf nodes, main-to-subpart and subpart-to-leaf edges) handed to the
    graph library. */
module HierarchyVisualization {
  import opened JsValues
  import opened Seqs
  import opened ExcelUtils

  // ---------------------------------------------------------------------------
  // `generateSafeId` (line 11)

  /** A character the regular expression class `\s` matches: the ASCII
      controls tab to carriage return, space, no-break space and the other
      Unicode space separators, the line and paragraph separators, and the
      byte order mark. */
  predicate IsSpace(c: char)
  {
    || c == ' ' || '\t' <= c <= '\r'
    || c == '\U{a0}' || c == '\U{1680}' || '\U{2000}' <= c <= '\U{200a}'
    || c == '\U{2028}' || c == '\U{2029}' || c == '\U{202f}' || c == '\U{205f}'
    || c == '\U{3000}' || c == '\U{feff}'
  }

  /** A character of the class `[\w-]`: an ASCII letter or digit, `_` or `-`. */
  predicate IsSafeChar(c: char)
  {
    'A' <= c <= 'Z' || 'a' <= c <= 'z' || '0' <= c <= '9' || c == '_' || c == '-'
  }

  /** Every character is in `[\w-]`. */
  predicate IsSafe(s: string)
  {
    forall i :: 0 <= i < |s| ==> IsSafeChar(s[i])
  }

  /** No character is whitespace. */
  predicate NoSpaces(s: string)
  {
    forall i :: 0 <= i < |s| ==> !IsSpace(s[i])
  }

  /** `s` without its leading run of whitespace. */
  function SkipSpaces(s: string): (r: string)
    ensures |r| <= |s|
    ensures s != [] && IsSpace(s[0]) ==> |r| < |s|
    ensures r == [] || !IsSpace(r[0])
  {
    if s != [] && IsSpace(s[0]) then SkipSpaces(s[1..]) else s
  }

  /** `replace(/\s+/g, '-')`: every maximal run of whitespace becomes one
      `-`. */
  function CollapseSpaces(s: string): (r: string)
    ensures NoSpaces(r)
    decreases |s|
  {
    if s == [] then []
    else if IsSpace(s[0]) then "-" + CollapseSpaces(SkipSpaces(s))
    else [s[0]] + CollapseSpaces(s[1..])
  }

  /** `replace(/[^\w-]/g, '')`: every character outside `[\w-]` is deleted. */
  function DropUnsafe(s: string): (r: string)
    ensures IsSafe(r)
    ensures |r| <= |s|
  {
    if s == [] then []
    else (if IsSafeChar(s[0]) then [s[0]] else []) + DropUnsafe(s[1..])
  }

  /** `generateSafeId` on a string. */
  function SafeId(s: string): (r: string)
    ensures IsSafe(r)
  {
    DropUnsafe(CollapseSpaces(s))
  }

  /** `generateSafeId(name)` on a cell value: a number has no `replace`
      method, so the call throws (`None`). */
  function GenerateSafeId(name: Value): (r: Option<string>)
    ensures r.Some? <==> name.Str?
    ensures r.Some? ==> IsSafe(r.value) && r.value == SafeId(name.s)
  {
    match name
    case Str(s) => Some(SafeId(s))
    case Num(_) => None
  }

  lemma {:induction false} DropUnsafeAppend(a: string, b: string)
    ensures DropUnsafe(a + b) == DropUnsafe(a) + DropUnsafe(b)
  {
    if a != [] {
      var head := if IsSafeChar(a[0]) then [a[0]] else [];
      assert (a + b)[0] == a[0] && (a + b)[1..] == a[1..] + b;
      calc {
        DropUnsafe(a + b);
        head + DropUnsafe(a[1..] + b);
        { DropUnsafeAppend(a[1..], b); }
        head + (DropUnsafe(a[1..]) + DropUnsafe(b));
        (head + DropUnsafe(a[1..])) + DropUnsafe(b);
      }
    } else {
      assert a + b == b;
    }
  }

  /** Deleting unsafe characters leaves a safe string as it is. */
  lemma {:induction false} DropUnsafeOfSafe(s: string)
    requires IsSafe(s)
    ensures DropUnsafe(s) == s
  {
    if s != [] {
      DropUnsafeOfSafe(s[1..]);
    }
  }

  /** A character outside `[\w-]` is deleted, not replaced. */
  lemma DropUnsafeOfUnsafe(c: char)
    requires !IsSafeChar(c)
    ensures DropUnsafe([c]) == []
  {
    assert [c][1..] == [];
  }

  /** The characters left are exactly the safe characters of the input. */
  lemma {:induction false} DropUnsafeMembers(s: string)
    ensures forall c :: c in DropUnsafe(s) <==> c in s && IsSafeChar(c)
  {
    if s != [] {
      DropUnsafeMembers(s[1..]);
      assert s == [s[0]] + s[1..];
    }
  }

  /** Collapsing whitespace leaves a string without whitespace as it is. */
  lemma {:induction false} CollapseOfNoSpaces(s: string)
    requires NoSpaces(s)
    ensures CollapseSpaces(s) == s
  {
    if s != [] {
      CollapseOfNoSpaces(s[1..]);
    }
  }

  /** A string made only of `[\w-]` is its own safe id. */
  lemma SafeIdOfSafe(s: string)
    requires IsSafe(s)
    ensures SafeId(s) == s
  {
    CollapseOfNoSpaces(s);
    DropUnsafeOfSafe(s);
  }

  /** `generateSafeId` is idempotent. */
  lemma SafeIdIdempotent(s: string)
    ensures SafeId(SafeId(s)) == SafeId(s)
  {
    SafeIdOfSafe(SafeId(s));
  }

  /** A whole run of whitespace is skipped at once. */
  lemma {:induction false} SkipSpacesRun(w: string, b: string)
    requires forall i :: 0 <= i < |w| ==> IsSpace(w[i])
    requires b == [] || !IsSpace(b[0])
    ensures SkipSpaces(w + b) == b
  {
    if w != [] {
      SkipSpacesRun(w[1..], b);
      assert (w + b)[1..] == w[1..] + b;
    }
  }

  /** A run of whitespace between two pieces becomes a single `-`. */
  lemma {:induction false} CollapseRun(a: string, w: string, b: string)
    requires NoSpaces(a)
    requires w != [] && forall i :: 0 <= i < |w| ==> IsSpace(w[i])
    requires b == [] || !IsSpace(b[0])
    ensures CollapseSpaces(a + w + b) == a + "-" + CollapseSpaces(b)
  {
    if a == [] {
      assert a + w + b == w + b;
      SkipSpacesRun(w, b);
    } else {
      CollapseRun(a[1..], w, b);
      assert (a + w + b)[1..] == a[1..] + w + b;
    }
  }

  /** The id of "a, whitespace, b": the safe characters of `a`, one `-`,
      then the id of `b`; so "Názov 1" becomes "Nzov-1". */
  lemma SafeIdRun(a: string, w: string, b: string)
    requires NoSpaces(a)
    requires w != [] && forall i :: 0 <= i < |w| ==> IsSpace(w[i])
    requires b == [] || !IsSpace(b[0])
    ensures SafeId(a + w + b) == DropUnsafe(a) + "-" + SafeId(b)
  {
    assert DropUnsafe("-") == "-" by {
      assert "-"[1..] == [];
    }
    calc {
      SafeId(a + w + b);
      DropUnsafe(CollapseSpaces(a + w + b));
      { CollapseRun(a, w, b); }
      DropUnsafe(a + "-" + CollapseSpaces(b));
      { DropUnsafeAppend(a + "-", CollapseSpaces(b)); }
      DropUnsafe(a + "-") + SafeId(b);
      { DropUnsafeAppend(a, "-"); }
      DropUnsafe(a) + "-" + SafeId(b);
    }
  }

  /** An accented letter is deleted, not transliterated: the id of the
      column name "Názov 1" is "Nzov-1". */
  lemma SafeIdOfColumnName()
    ensures SafeId(Nazov1) == "Nzov-1"
  {
    ColumnNameParts();
    SafeIdRun("Názov", " ", "1");
    DropUnsafeOfAccented();
    SafeIdOfSafe("1");
    assert "Nzov" + "-" + "1" == "Nzov-1";
  }

  /** "Názov 1" is a word without whitespace, one space, and "1". */
  lemma ColumnNameParts()
    ensures Nazov1 == "Názov" + " " + "1"
    ensures NoSpaces("Názov")
    ensures IsSpace(" "[0]) && !IsSpace("1"[0]) && IsSafe("1")
  {
  }

  lemma DropUnsafeOfAccented()
    ensures DropUnsafe("Názov") == "Nzov"
  {
    DropUnsafeAppend("N", "\U{e1}zov");
    DropUnsafeAppend("\U{e1}", "zov");
    assert "Názov" == "N" + "\U{e1}" + "zov";
    assert DropUnsafe("\U{e1}") == [] by {
      assert "\U{e1}"[1..] == [];
    }
    DropUnsafeOfSafe("N");
    DropUnsafeOfSafe("zov");
  }

  // ---------------------------------------------------------------------------
  // Graph elements (lines 13-42)

  /** An element handed to the graph library: a node with its id, its label
      (`caption`; `label` is a Dafny keyword)
      and whether it is the main node, or an edge between two node ids. */
  datatype Element = Node(id: string, caption: Value, main: bool) | Edge(source: string, target: string)

  /** The id of a subpart's node (line 16), for a subpart whose name is text. */
  function SubpartId(sub: Subpart): string
  {
    SafeId(ToStr(sub.name))
  }

  /** The id of a leaf's node (line 18): the safe id of the template
      `${subpart.name}-${subsubpartName}`. */
  function LeafId(sub: Subpart, leaf: Value): string
  {
    SafeId(ToStr(sub.name) + "-" + ToStr(leaf))
  }

  /** `mainNode` (line 13). */
  function MainNode(modelName: string): Element
  {
    Node(SafeId(modelName), Str(modelName), true)
  }

  /** The leaf nodes of a subpart, one per entry of its list, duplicates
      included (lines 17-19). */
  function LeafNodes(sub: Subpart): (r: seq<Element>)
    ensures |r| == |sub.subparts|
    ensures forall j :: 0 <= j < |r| ==>
              r[j] == Node(LeafId(sub, sub.subparts[j]), sub.subparts[j], false)
  {
    seq(|sub.subparts|, j requires 0 <= j < |sub.subparts| =>
      Node(LeafId(sub, sub.subparts[j]), sub.subparts[j], false))
  }

  /** `nodes` (lines 15-22): for each subpart in order, its own node and
      then its leaf nodes. */
  function Nodes(subs: seq<Subpart>): seq<Element>
  {
    if subs == [] then []
    else
      var sub := subs[|subs| - 1];
      Nodes(subs[..|subs| - 1]) + [Node(SubpartId(sub), sub.name, false)] + LeafNodes(sub)
  }

  /** What the `flatMap` callback returns for one subpart (line 21): its own
      node, then its leaf nodes. */
  function NodeBlock(sub: Subpart): seq<Element>
  {
    [Node(SubpartId(sub), sub.name, false)] + LeafNodes(sub)
  }

  /** The callback mapped over the subparts, before flattening. */
  function NodeBlocks(subs: seq<Subpart>): (bs: seq<seq<Element>>)
    ensures |bs| == |subs|
    ensures forall i :: 0 <= i < |subs| ==> bs[i] == NodeBlock(subs[i])
  {
    seq(|subs|, i requires 0 <= i < |subs| => NodeBlock(subs[i]))
  }

  /** `Nodes` is the `flatMap` of lines 15-22: the blocks flattened in order. */
  lemma {:induction false} NodesFlatten(subs: seq<Subpart>)
    ensures Nodes(subs) == Flatten(NodeBlocks(subs))
  {
    if subs != [] {
      var p, sub := subs[..|subs| - 1], subs[|subs| - 1];
      NodesFlatten(p);
      var bs := NodeBlocks(subs);
      assert bs[..|bs| - 1] == NodeBlocks(p);
      Assoc(Nodes(p), [Node(SubpartId(sub), sub.name, false)], LeafNodes(sub));
    }
  }

  /** A node is listed exactly when it belongs to the block of some subpart. */
  lemma NodeMembership(subs: seq<Subpart>, x: Element)
    ensures x in Nodes(subs) <==> exists i :: 0 <= i < |subs| && x in NodeBlock(subs[i])
  {
    NodesFlatten(subs);
    FlattenMembership(NodeBlocks(subs), x);
    var bs := NodeBlocks(subs);
    if exists i :: 0 <= i < |bs| && x in bs[i] {
      var i :| 0 <= i < |bs| && x in bs[i];
      assert x in NodeBlock(subs[i]);
    }
    if exists i :: 0 <= i < |subs| && x in NodeBlock(subs[i]) {
      var i :| 0 <= i < |subs| && x in NodeBlock(subs[i]);
      assert x in bs[i];
    }
  }

  /** The total length of the subparts' lists. */
  function LeafCount(subs: seq<Subpart>): nat
  {
    if subs == [] then 0 else LeafCount(subs[..|subs| - 1]) + |subs[|subs| - 1].subparts|
  }

  /** The de-duplication key of a subpart-to-leaf edge (line 32). */
  function EdgeKey(sub: Subpart, leaf: Value): string
  {
    SubpartId(sub) + "-" + LeafId(sub, leaf)
  }

  /** The keys of a subpart's leaf edges, one per entry. */
  function LeafKeys(sub: Subpart, leaves: seq<Value>): (ks: seq<string>)
    ensures |ks| == |leaves|
    ensures forall j :: 0 <= j < |leaves| ==> ks[j] == EdgeKey(sub, leaves[j])
  {
    seq(|leaves|, j requires 0 <= j < |leaves| => EdgeKey(sub, leaves[j]))
  }

  /** All leaf-edge keys of the subparts, in the order the edges are tried. */
  function KeyStream(subs: seq<Subpart>): seq<string>
  {
    if subs == [] then []
    else
      var sub := subs[|subs| - 1];
      KeyStream(subs[..|subs| - 1]) + LeafKeys(sub, sub.subparts)
  }

  /** The leaf edges of one subpart (lines 30-39): an edge to each leaf
      whose key is neither among the keys `seen` before this subpart nor
      among this subpart's earlier leaves. */
  function LeafEdges(sub: Subpart, leaves: seq<Value>, seen: seq<string>): seq<Element>
  {
    if leaves == [] then []
    else
      var p, leaf := leaves[..|leaves| - 1], leaves[|leaves| - 1];
      var k := EdgeKey(sub, leaf);
      LeafEdges(sub, p, seen)
        + (if k in seen || k in LeafKeys(sub, p) then [] else [Edge(SubpartId(sub), LeafId(sub, leaf))])
  }

  /** `edges` (lines 24-41): for each subpart in order, the edge from the main
      node to it, then its leaf edges not already drawn. */
  function Edges(mainId: string, subs: seq<Subpart>): seq<Element>
  {
    if subs == [] then []
    else
      var p, sub := subs[..|subs| - 1], subs[|subs| - 1];
      Edges(mainId, p) + [Edge(mainId, SubpartId(sub))] + LeafEdges(sub, sub.subparts, KeyStream(p))
  }

  /** The leaf edges of all subparts, without the main-to-subpart edges. */
  function LeafEdgeStream(subs: seq<Subpart>): seq<Element>
  {
    if subs == [] then []
    else
      var p, sub := subs[..|subs| - 1], subs[|subs| - 1];
      LeafEdgeStream(p) + LeafEdges(sub, sub.subparts, KeyStream(p))
  }

  /** The de-duplication key of an element that is an edge. */
  function KeyOf(e: Element): string
  {
    match e
    case Edge(source, target) => source + "-" + target
    case Node(_, _, _) => ""
  }

  function KeysOfEdges(es: seq<Element>): (ks: seq<string>)
    ensures |ks| == |es|
    ensures forall i :: 0 <= i < |es| ==> ks[i] == KeyOf(es[i])
  {
    seq(|es|, i requires 0 <= i < |es| => KeyOf(es[i]))
  }

  /** `edgeSet` and the `edges` `flatMap` (lines 24-41): a `Set` of keys
      shared by all subparts decides which leaf edges are drawn. */
  method BuildEdges(mainId: string, subs: seq<Subpart>) returns (edges: seq<Element>)
    ensures edges == Edges(mainId, subs)
  {
    var edgeSet: set<string> := {};
    edges := [];
    var i := 0;
    while i < |subs|
      invariant 0 <= i <= |subs|
      invariant edges == Edges(mainId, subs[..i])
      invariant forall k :: k in edgeSet <==> k in KeyStream(subs[..i])
    {
      var subpart := subs[i];
      var subpartId := SafeId(ToStr(subpart.name));
      var leafEdges;
      leafEdges, edgeSet := BuildLeafEdges(subpart, subpartId, edgeSet, KeyStream(subs[..i]));
      edges := edges + [Edge(mainId, subpartId)] + leafEdges;
      assert subs[..i + 1][..i] == subs[..i];
      i := i + 1;
    }
    assert subs[..i] == subs;
  }

  /** The `map` and `filter(Boolean)` of one subpart's leaves (lines 30-39),
      adding each new key to `edgeSet`. */
  method BuildLeafEdges(subpart: Subpart, subpartId: string, edgeSet: set<string>, ghost seen: seq<string>)
    returns (leafEdges: seq<Element>, edgeSet': set<string>)
    requires subpartId == SubpartId(subpart)
    requires forall k :: k in edgeSet <==> k in seen
    ensures leafEdges == LeafEdges(subpart, subpart.subparts, seen)
    ensures forall k :: k in edgeSet' <==> k in seen || k in LeafKeys(subpart, subpart.subparts)
  {
    leafEdges, edgeSet' := [], edgeSet;
    var j := 0;
    while j < |subpart.subparts|
      invariant 0 <= j <= |subpart.subparts|
      invariant leafEdges == LeafEdges(subpart, subpart.subparts[..j], seen)
      invariant forall k :: k in edgeSet' <==> k in seen || k in LeafKeys(subpart, subpart.subparts[..j])
    {
      var subsubpartName := subpart.subparts[j];
      var targetId := SafeId(ToStr(subpart.name) + "-" + ToStr(subsubpartName));
      var edgeKey := subpartId + "-" + targetId;
      LeafStep(subpart, subpart.subparts, j, seen);
      if edgeKey !in edgeSet' {
        edgeSet' := edgeSet' + {edgeKey};
        leafEdges := leafEdges + [Edge(subpartId, targetId)];
      }
      j := j + 1;
    }
    assert subpart.subparts[..j] == subpart.subparts;
  }

  /** One more leaf: how `LeafEdges` and `LeafKeys` grow. */
  lemma LeafStep(sub: Subpart, leaves: seq<Value>, j: nat, seen: seq<string>)
    requires j < |leaves|
    ensures var p, leaf := leaves[..j], leaves[j];
      && LeafKeys(sub, leaves[..j + 1]) == LeafKeys(sub, p) + [EdgeKey(sub, leaf)]
      && LeafEdges(sub, leaves[..j + 1], seen) == LeafEdges(sub, p, seen)
           + (if EdgeKey(sub, leaf) in seen || EdgeKey(sub, leaf) in LeafKeys(sub, p) then []
              else [Edge(SubpartId(sub), LeafId(sub, leaf))])
  {
    assert leaves[..j + 1][..j] == leaves[..j];
  }

  // ---------------------------------------------------------------------------
  // Properties of the nodes and edges

  /** The subparts' nodes: one per subpart plus one per leaf entry. */
  lemma {:induction false} NodesCount(subs: seq<Subpart>)
    ensures |Nodes(subs)| == |subs| + LeafCount(subs)
  {
    if subs != [] {
      NodesCount(subs[..|subs| - 1]);
    }
  }

  /** The nodes of the first `i` subparts come first. */
  lemma {:induction false} NodesPrefix(subs: seq<Subpart>, i: nat)
    requires i <= |subs|
    ensures IsPrefix(Nodes(subs[..i]), Nodes(subs))
  {
    if i < |subs| {
      var p := subs[..|subs| - 1];
      assert subs[..i] == p[..i];
      NodesPrefix(p, i);
    } else {
      assert subs[..i] == subs;
    }
  }

  /** The nodes of subpart `i` follow those of the subparts before it
      (as many as `NodesCount` says): its own node, then one node per
      entry of its list. */
  lemma NodesAt(subs: seq<Subpart>, i: nat)
    requires i < |subs|
    ensures IsPrefix(Nodes(subs[..i]) + [Node(SubpartId(subs[i]), subs[i].name, false)] + LeafNodes(subs[i]),
                     Nodes(subs))
  {
    NodesPrefix(subs, i + 1);
    NodesTake(subs, i);
  }

  lemma NodesTake(subs: seq<Subpart>, i: nat)
    requires i < |subs|
    ensures Nodes(subs[..i + 1])
            == Nodes(subs[..i]) + [Node(SubpartId(subs[i]), subs[i].name, false)] + LeafNodes(subs[i])
  {
    var q := subs[..i + 1];
    assert q[..|q| - 1] == subs[..i];
  }

  /** Only the main node is marked main. */
  lemma {:induction false} NoSubpartNodeIsMain(subs: seq<Subpart>)
    ensures forall e :: e in Nodes(subs) ==> e.Node? && !e.main
  {
    if subs != [] {
      NoSubpartNodeIsMain(subs[..|subs| - 1]);
    }
  }

  /** One edge per subpart from the main node plus the drawn leaf edges. */
  lemma {:induction false} EdgesCount(mainId: string, subs: seq<Subpart>)
    ensures |Edges(mainId, subs)| == |subs| + |LeafEdgeStream(subs)|
  {
    if subs != [] {
      EdgesCount(mainId, subs[..|subs| - 1]);
    }
  }

  /** The edges of the first `i` subparts come first. */
  lemma {:induction false} EdgesPrefix(mainId: string, subs: seq<Subpart>, i: nat)
    requires i <= |subs|
    ensures |Edges(mainId, subs[..i])| <= |Edges(mainId, subs)|
    ensures Edges(mainId, subs)[..|Edges(mainId, subs[..i])|] == Edges(mainId, subs[..i])
  {
    if i < |subs| {
      var p := subs[..|subs| - 1];
      assert subs[..i] == p[..i];
      EdgesPrefix(mainId, p, i);
    } else {
      assert subs[..i] == subs;
    }
  }

  /** Exactly one edge from the main node per subpart, in subpart order:
      subpart `i`'s edge follows the edges of the subparts before it. */
  lemma MainEdgeAt(mainId: string, subs: seq<Subpart>, i: nat)
    requires i < |subs|
    ensures var at := i + |LeafEdgeStream(subs[..i])|;
      at < |Edges(mainId, subs)| && Edges(mainId, subs)[at] == Edge(mainId, SubpartId(subs[i]))
  {
    EdgesPrefix(mainId, subs, i + 1);
    var q := subs[..i + 1];
    assert q[..|q| - 1] == subs[..i] && q[|q| - 1] == subs[i];
    EdgesCount(mainId, subs[..i]);
    var before, e := Edges(mainId, subs[..i]), Edge(mainId, SubpartId(subs[i]));
    var leafEdges := LeafEdges(subs[i], subs[i].subparts, KeyStream(subs[..i]));
    assert Edges(mainId, q) == before + [e] + leafEdges;
    Concat3Index(before, e, leafEdges, 0);
    assert |before| == i + |LeafEdgeStream(subs[..i])|;
    PrefixIndex(Edges(mainId, q), Edges(mainId, subs), |before|);
  }

  lemma KeysOfEdgesAppend(a: seq<Element>, b: seq<Element>)
    ensures KeysOfEdges(a + b) == KeysOfEdges(a) + KeysOfEdges(b)
  {
  }

  /** The keys of one subpart's leaf edges are the keys of its leaves that
      were not seen before. */
  lemma {:induction false} LeafEdgesKeys(sub: Subpart, leaves: seq<Value>, seen: seq<string>)
    ensures KeysOfEdges(LeafEdges(sub, leaves, seen)) == DedupAfter(seen, LeafKeys(sub, leaves))
  {
    if leaves != [] {
      var p, leaf := leaves[..|leaves| - 1], leaves[|leaves| - 1];
      LeafEdgesKeys(sub, p, seen);
      var ks := LeafKeys(sub, leaves);
      var k := EdgeKey(sub, leaf);
      assert ks[..|ks| - 1] == LeafKeys(sub, p) && ks[|ks| - 1] == k;
      var drawn := !(k in seen || k in LeafKeys(sub, p));
      assert DedupAfter(seen, ks) == DedupAfter(seen, LeafKeys(sub, p)) + (if drawn then [k] else []);
      var e := if drawn then [Edge(SubpartId(sub), LeafId(sub, leaf))] else [];
      assert LeafEdges(sub, leaves, seen) == LeafEdges(sub, p, seen) + e;
      assert KeysOfEdges(e) == if drawn then [k] else [];
      KeysOfEdgesAppend(LeafEdges(sub, p, seen), e);
    }
  }

  /** The drawn leaf edges are keyed, in order, by the distinct keys of all
      the leaves of all the subparts, each at its first occurrence: a leaf
      repeated under a subpart gets a node each time but a single edge. */
  lemma {:induction false} LeafEdgeKeysAreDistinctKeys(subs: seq<Subpart>)
    ensures KeysOfEdges(LeafEdgeStream(subs)) == Dedup(KeyStream(subs))
  {
    if subs != [] {
      var p, sub := subs[..|subs| - 1], subs[|subs| - 1];
      LeafEdgeKeysAreDistinctKeys(p);
      LeafEdgesKeys(sub, sub.subparts, KeyStream(p));
      KeysOfEdgesAppend(LeafEdgeStream(p), LeafEdges(sub, sub.subparts, KeyStream(p)));
      DedupConcat(KeyStream(p), LeafKeys(sub, sub.subparts));
    }
  }

  /** Some node of `es` has id `id`. */
  predicate HasNode(es: seq<Element>, id: string)
  {
    exists i :: 0 <= i < |es| && es[i].Node? && es[i].id == id
  }

  /** Every leaf edge of a subpart goes from the subpart's node to the node
      of one of its leaves. */
  lemma {:induction false} LeafEdgesShape(sub: Subpart, leaves: seq<Value>, seen: seq<string>)
    ensures forall e :: e in LeafEdges(sub, leaves, seen) ==>
              exists j :: 0 <= j < |leaves| && e == Edge(SubpartId(sub), LeafId(sub, leaves[j]))
  {
    if leaves != [] {
      var p := leaves[..|leaves| - 1];
      LeafEdgesShape(sub, p, seen);
      forall e | e in LeafEdges(sub, leaves, seen)
        ensures exists j :: 0 <= j < |leaves| && e == Edge(SubpartId(sub), LeafId(sub, leaves[j]))
      {
        if e in LeafEdges(sub, p, seen) {
          var j :| 0 <= j < |p| && e == Edge(SubpartId(sub), LeafId(sub, p[j]));
          assert leaves[j] == p[j];
        } else {
          assert e == Edge(SubpartId(sub), LeafId(sub, leaves[|leaves| - 1]));
        }
      }
    }
  }

  /** Every edge leaves the main node or a node of the subparts, and ends at
      a node of the subparts. */
  lemma {:induction false} EdgeEndpoints(mainId: string, subs: seq<Subpart>)
    ensures forall e :: e in Edges(mainId, subs) ==>
              && e.Edge?
              && (e.source == mainId || HasNode(Nodes(subs), e.source))
              && HasNode(Nodes(subs), e.target)
  {
    if subs != [] {
      var p, sub := subs[..|subs| - 1], subs[|subs| - 1];
      EdgeEndpoints(mainId, p);
      EdgeEndpointsStep(mainId, p, sub);
      assert subs == p + [sub];
    }
  }

  lemma EdgeEndpointsStep(mainId: string, p: seq<Subpart>, sub: Subpart)
    requires forall e :: e in Edges(mainId, p) ==>
               && e.Edge?
               && (e.source == mainId || HasNode(Nodes(p), e.source))
               && HasNode(Nodes(p), e.target)
    ensures forall e :: e in Edges(mainId, p + [sub]) ==>
              && e.Edge?
              && (e.source == mainId || HasNode(Nodes(p + [sub]), e.source))
              && HasNode(Nodes(p + [sub]), e.target)
  {
    SnocParts(mainId, p, sub);
    LeafEdgesShape(sub, sub.subparts, KeyStream(p));
    BlockEndpoints(mainId, Edges(mainId, p), Nodes(p), sub, LeafEdges(sub, sub.subparts, KeyStream(p)));
  }

  /** The edges of one more subpart end at its node and its leaves' nodes. */
  lemma BlockEndpoints(mainId: string, before: seq<Element>, np: seq<Element>, sub: Subpart, leafEdges: seq<Element>)
    requires forall e :: e in before ==>
               && e.Edge?
               && (e.source == mainId || HasNode(np, e.source))
               && HasNode(np, e.target)
    requires forall e :: e in leafEdges ==>
               exists j :: 0 <= j < |sub.subparts| && e == Edge(SubpartId(sub), LeafId(sub, sub.subparts[j]))
    ensures var ns := np + [Node(SubpartId(sub), sub.name, false)] + LeafNodes(sub);
      forall e :: e in before + [Edge(mainId, SubpartId(sub))] + leafEdges ==>
        && e.Edge?
        && (e.source == mainId || HasNode(ns, e.source))
        && HasNode(ns, e.target)
  {
    var own := Node(SubpartId(sub), sub.name, false);
    var ns := np + [own] + LeafNodes(sub);
    OwnIsNode(np, own, LeafNodes(sub));
    forall e | e in before + [Edge(mainId, SubpartId(sub))] + leafEdges
      ensures && e.Edge?
              && (e.source == mainId || HasNode(ns, e.source))
              && HasNode(ns, e.target)
    {
      if e in before {
        if e.source != mainId {
          HasNodeExtend(np, own, LeafNodes(sub), e.source);
        }
        HasNodeExtend(np, own, LeafNodes(sub), e.target);
      } else if e in leafEdges {
        var j :| 0 <= j < |sub.subparts| && e == Edge(SubpartId(sub), LeafId(sub, sub.subparts[j]));
        LeafIsNode(np, own, sub, j);
      }
    }
  }

  /** `Nodes` and `Edges` of one more subpart. */
  lemma SnocParts(mainId: string, p: seq<Subpart>, sub: Subpart)
    ensures Nodes(p + [sub]) == Nodes(p) + [Node(SubpartId(sub), sub.name, false)] + LeafNodes(sub)
    ensures Edges(mainId, p + [sub])
            == Edges(mainId, p) + [Edge(mainId, SubpartId(sub))] + LeafEdges(sub, sub.subparts, KeyStream(p))
  {
    var subs := p + [sub];
    assert subs[..|subs| - 1] == p && subs[|subs| - 1] == sub;
  }

  lemma HasNodeExtend(a: seq<Element>, x: Element, b: seq<Element>, id: string)
    requires HasNode(a, id)
    ensures HasNode(a + [x] + b, id)
  {
    var i :| 0 <= i < |a| && a[i].Node? && a[i].id == id;
    assert (a + [x] + b)[i] == a[i];
  }

  lemma OwnIsNode(a: seq<Element>, own: Element, b: seq<Element>)
    requires own.Node?
    ensures HasNode(a + [own] + b, own.id)
  {
    Concat3Index(a, own, b, 0);
  }

  lemma LeafIsNode(a: seq<Element>, own: Element, sub: Subpart, j: nat)
    requires j < |sub.subparts|
    ensures HasNode(a + [own] + LeafNodes(sub), LeafId(sub, sub.subparts[j]))
  {
    Concat3Index(a, own, LeafNodes(sub), j);
    assert (a + [own] + LeafNodes(sub))[|a| + 1 + j].id == LeafId(sub, sub.subparts[j]);
  }

  // ---------------------------------------------------------------------------
  // `elements` (line 42)

  /** Every subpart name is text; a numeric name makes `generateSafeId`
      throw while the nodes are built. */
  predicate NamesAreText(subs: seq<Subpart>)
  {
    forall i :: 0 <= i < |subs| ==> subs[i].name.Str?
  }

  /** `[mainNode, ...nodes, ...edges]`, or `None` when building them throws. */
  function Elements(modelName: string, part: Part): Option<seq<Element>>
  {
    if NamesAreText(part.subparts) then
      Some([MainNode(modelName)] + Nodes(part.subparts) + Edges(SafeId(modelName), part.subparts))
    else None
  }

  /** The element list the effect builds before handing it to the graph
      library (lines 13-42). */
  method BuildElements(modelName: string, modelsHierarchy: Part) returns (elements: Option<seq<Element>>)
    ensures elements == Elements(modelName, modelsHierarchy)
    ensures elements.Some? <==> NamesAreText(modelsHierarchy.subparts)
  {
    var mainNode := Node(SafeId(modelName), Str(modelName), true);
    var subs := modelsHierarchy.subparts;
    if !NamesAreText(subs) {
      // `generateSafeId(subpart.name)` throws for a numeric name
      return None;
    }
    var nodes := Nodes(subs);
    var edges := BuildEdges(SafeId(modelName), subs);
    elements := Some([mainNode] + nodes + edges);
  }

  /** The element list: the main node first, with the safe id of the sheet
      name and `main` set; then the subpart and leaf nodes, none of them
      main; then the edges: one per subpart plus one per distinct leaf-edge
      key; and every edge joins two nodes of the list. */
  lemma ElementsShape(modelName: string, part: Part)
    requires NamesAreText(part.subparts)
    ensures var es, subs := Elements(modelName, part).value, part.subparts;
      var nodeCount := |subs| + LeafCount(subs);
      && |es| == 1 + nodeCount + |subs| + |Dedup(KeyStream(subs))|
      && es[0] == Node(SafeId(modelName), Str(modelName), true)
      && (forall i :: 1 <= i <= nodeCount ==> es[i].Node? && !es[i].main)
      && (forall i :: 1 + nodeCount <= i < |es| ==> es[i].Edge?)
      && (forall i :: 0 <= i < |es| && es[i].Edge? ==> HasNode(es, es[i].source) && HasNode(es, es[i].target))
  {
    var subs := part.subparts;
    var mainId := SafeId(modelName);
    NodesCount(subs);
    EdgesCount(mainId, subs);
    LeafEdgeKeysAreDistinctKeys(subs);
    NoSubpartNodeIsMain(subs);
    EdgeEndpoints(mainId, subs);
    ListShape(MainNode(modelName), Nodes(subs), Edges(mainId, subs));
  }

  /** The order and the closure of `[main] + ns + ed` for nodes `ns` and
      edges `ed` between them and the main node. */
  lemma ListShape(main: Element, ns: seq<Element>, ed: seq<Element>)
    requires main.Node?
    requires forall e :: e in ns ==> e.Node? && !e.main
    requires forall e :: e in ed ==>
               && e.Edge?
               && (e.source == main.id || HasNode(ns, e.source))
               && HasNode(ns, e.target)
    ensures var es := [main] + ns + ed;
      && (forall i :: 1 <= i <= |ns| ==> es[i].Node? && !es[i].main)
      && (forall i :: 1 + |ns| <= i < |es| ==> es[i].Edge?)
      && (forall i :: 0 <= i < |es| && es[i].Edge? ==> HasNode(es, es[i].source) && HasNode(es, es[i].target))
  {
    var es := [main] + ns + ed;
    forall i | 1 <= i <= |ns|
      ensures es[i].Node? && !es[i].main
    {
      assert es[i] == ns[i - 1];
    }
    forall i | 1 + |ns| <= i < |es|
      ensures es[i].Edge?
    {
      assert es[i] == ed[i - 1 - |ns|];
    }
    forall i | 0 <= i < |es| && es[i].Edge?
      ensures HasNode(es, es[i].source) && HasNode(es, es[i].target)
    {
      if i > |ns| {
        assert es[i] == ed[i - 1 - |ns|];
        EdgeEndsInList(main, ns, ed, es[i]);
      }
    }
  }

  /** An edge whose ends are the main node's id or ids of `ns` joins two
      nodes of `[main] + ns + ed`. */
  lemma EdgeEndsInList(main: Element, ns: seq<Element>, ed: seq<Element>, e: Element)
    requires main.Node? && e.Edge?
    requires e.source == main.id || HasNode(ns, e.source)
    requires HasNode(ns, e.target)
    ensures HasNode([main] + ns + ed, e.source) && HasNode([main] + ns + ed, e.target)
  {
    var es := [main] + ns + ed;
    assert es[0] == main;
    if e.source != main.id {
      var i :| 0 <= i < |ns| && ns[i].Node? && ns[i].id == e.source;
      assert es[i + 1] == ns[i];
    }
    var k :| 0 <= k < |ns| && ns[k].Node? && ns[k].id == e.target;
    assert es[k + 1] == ns[k];
  }
}
