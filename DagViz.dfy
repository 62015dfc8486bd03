/**
 * The Graphviz export of a workflow: `workflow_to_dot`, which writes five header lines,
 * one line per node, an empty line, one line per dependency edge and a closing brace,
 * joined with newlines; and `get_node_details`, the first node carrying an id.
 */
module DagViz {
  import opened Wrappers
  import opened Text
  import opened Json
  import opened Workflow

  /** Nodes the export can draw: each `actionRef` is a string or absent (anything else makes `split` fail). */
  predicate Drawable(nodes: seq<Node>) {
    forall i :: 0 <= i < |nodes| ==> nodes[i].actionRef.None? || nodes[i].actionRef.value.Str?
  }

  /** `node.get('actionRef', 'unknown')`. */
  function ActionOf(n: Node): string
    requires n.actionRef.None? || n.actionRef.value.Str?
  {
    if n.actionRef.None? then "unknown" else n.actionRef.value.s
  }

  /** `ref.split('.')[-1] if '.' in ref else ref`. */
  function ShortAction(ref: string): string {
    if '.' in ref then LastPiece(ref, ".") else ref
  }

  /**
   * The short action is the part of the ref after its last `'.'`, which holds no `'.'`:
   * the whole ref when it has none.
   */
  lemma ShortActionSuffix(ref: string)
    ensures var short := ShortAction(ref);
            && '.' !in short && EndsWith(ref, short)
            && ('.' !in ref <==> short == ref)
            && ('.' in ref ==> ref[|ref| - |short| - 1] == '.')
  {
    SplitLast(ref, ".");
    if '.' in ref {
      assert LastRun(ref, '.', ShortAction(ref));
    }
  }

  function Label(n: Node): string
    requires n.actionRef.None? || n.actionRef.value.Str?
  {
    n.id + "\\n(" + ShortAction(ActionOf(n)) + ")"
  }

  function NodeLine(n: Node): string
    requires n.actionRef.None? || n.actionRef.value.Str?
  {
    "    \"" + n.id + "\" [label=\"" + Label(n) + "\"];"
  }

  function EdgeLine(e: (string, string)): string {
    "    \"" + e.0 + "\" -> \"" + e.1 + "\";"
  }

  const NodeStyle: string :=
    "    node [shape=box, " + "style=\"rounded,filled\", " + "fillcolor=\"#e8f4f8\", " + "fontname=\"Arial\"];"

  const Header: seq<string> := [
    "digraph workflow {",
    "    rankdir=TB;",
    NodeStyle,
    "    edge [color=\"#666666\"];",
    ""
  ]

  /** The (dependency, node id) pairs of one node, in `dependsOn` order. */
  function Pairs(n: Node): (r: seq<(string, string)>)
    ensures |r| == |n.dependsOn|
    ensures forall j :: 0 <= j < |r| ==> r[j] == (n.dependsOn[j], n.id)
  {
    seq(|n.dependsOn|, j requires 0 <= j < |n.dependsOn| => (n.dependsOn[j], n.id))
  }

  /** Every edge of the workflow: node order, then dependency order. */
  function Edges(nodes: seq<Node>): seq<(string, string)> {
    if nodes == [] then [] else Edges(nodes[..|nodes| - 1]) + Pairs(nodes[|nodes| - 1])
  }

  /** The number of `dependsOn` entries over all nodes. */
  function EdgeCount(nodes: seq<Node>): nat {
    if nodes == [] then 0 else EdgeCount(nodes[..|nodes| - 1]) + |nodes[|nodes| - 1].dependsOn|
  }

  function NodeLines(nodes: seq<Node>): (r: seq<string>)
    requires Drawable(nodes)
    ensures |r| == |nodes|
  {
    seq(|nodes|, i requires 0 <= i < |nodes| => NodeLine(nodes[i]))
  }

  function EdgeLines(edges: seq<(string, string)>): (r: seq<string>)
    ensures |r| == |edges|
  {
    seq(|edges|, k requires 0 <= k < |edges| => EdgeLine(edges[k]))
  }

  /** The lines of the DOT text. */
  function DotLines(nodes: seq<Node>): seq<string>
    requires Drawable(nodes)
  {
    Header + NodeLines(nodes) + [""] + EdgeLines(Edges(nodes)) + ["}"]
  }

  lemma EdgeLinesSnoc(edges: seq<(string, string)>, e: (string, string))
    ensures EdgeLines(edges + [e]) == EdgeLines(edges) + [EdgeLine(e)]
  {
  }

  lemma NodeLinesSnoc(nodes: seq<Node>, i: nat)
    requires Drawable(nodes) && i < |nodes|
    ensures Drawable(nodes[..i]) && Drawable(nodes[..i + 1])
    ensures NodeLines(nodes[..i + 1]) == NodeLines(nodes[..i]) + [NodeLine(nodes[i])]
  {
  }

  /** `workflow_to_dot`: the lines are collected one by one and joined with `'\n'`. */
  method WorkflowToDot(nodes: seq<Node>) returns (dot: string)
    requires Drawable(nodes)
    ensures dot == Join(DotLines(nodes), "\n")
  {
    var lines := Header;
    for i := 0 to |nodes|
      invariant Drawable(nodes[..i])
      invariant lines == Header + NodeLines(nodes[..i])
    {
      NodeLinesSnoc(nodes, i);
      lines := lines + [NodeLine(nodes[i])];
    }
    assert nodes[..|nodes|] == nodes;
    lines := lines + [""];
    var edges := AppendEdges(nodes, lines);
    dot := Join(edges + ["}"], "\n");
  }

  /** The edge loop of `workflow_to_dot`: for each node, one line per dependency. */
  method AppendEdges(nodes: seq<Node>, lines0: seq<string>) returns (lines: seq<string>)
    ensures lines == lines0 + EdgeLines(Edges(nodes))
  {
    lines := lines0;
    for i := 0 to |nodes|
      invariant lines == lines0 + EdgeLines(Edges(nodes[..i]))
    {
      var n := nodes[i];
      ghost var before := Edges(nodes[..i]);
      for j := 0 to |n.dependsOn|
        invariant lines == lines0 + EdgeLines(before + Pairs(n)[..j])
      {
        EdgeLinesSnoc(before + Pairs(n)[..j], (n.dependsOn[j], n.id));
        assert before + Pairs(n)[..j + 1] == before + Pairs(n)[..j] + [(n.dependsOn[j], n.id)];
        lines := lines + [EdgeLine((n.dependsOn[j], n.id))];
      }
      assert nodes[..i + 1][..i] == nodes[..i];
      assert Pairs(n)[..|n.dependsOn|] == Pairs(n);
    }
    assert nodes[..|nodes|] == nodes;
  }

  /** One edge per `dependsOn` entry. */
  lemma {:induction false} EdgesCount(nodes: seq<Node>)
    ensures |Edges(nodes)| == EdgeCount(nodes)
  {
    if nodes != [] {
      EdgesCount(nodes[..|nodes| - 1]);
    }
  }

  /** Node `n` asks for the edge `dep -> id`. */
  predicate Draws(n: Node, dep: string, id: string) {
    n.id == id && dep in n.dependsOn
  }

  lemma PairsOf(n: Node, dep: string, id: string)
    ensures (dep, id) in Pairs(n) <==> Draws(n, dep, id)
  {
    if Draws(n, dep, id) {
      var j :| 0 <= j < |n.dependsOn| && n.dependsOn[j] == dep;
      assert Pairs(n)[j] == (dep, id);
    }
  }

  /** An edge `dep -> id` is drawn exactly when some node with that id depends on `dep`. */
  lemma {:induction false} EdgesOf(nodes: seq<Node>, dep: string, id: string)
    ensures (dep, id) in Edges(nodes) <==> exists i :: 0 <= i < |nodes| && Draws(nodes[i], dep, id)
  {
    if nodes != [] {
      var init := nodes[..|nodes| - 1];
      var n := nodes[|nodes| - 1];
      EdgesOf(init, dep, id);
      PairsOf(n, dep, id);
      assert forall i :: 0 <= i < |init| ==> init[i] == nodes[i];
      if exists i :: 0 <= i < |nodes| && Draws(nodes[i], dep, id) {
        var i :| 0 <= i < |nodes| && Draws(nodes[i], dep, id);
        assert i < |init| ==> Draws(init[i], dep, id);
      }
    }
  }

  /** Where the pieces of `header + nodeLines + [""] + edgeLines + ["}"]` sit. */
  lemma Layout(header: seq<string>, nodeLines: seq<string>, edgeLines: seq<string>, lines: seq<string>)
    requires lines == header + nodeLines + [""] + edgeLines + ["}"]
    ensures |lines| == |header| + |nodeLines| + |edgeLines| + 2
    ensures lines[..|header|] == header && lines[|lines| - 1] == "}" && lines[|header| + |nodeLines|] == ""
    ensures forall i :: 0 <= i < |nodeLines| ==> lines[|header| + i] == nodeLines[i]
    ensures forall k :: 0 <= k < |edgeLines| ==> lines[|header| + |nodeLines| + 1 + k] == edgeLines[k]
  {
  }

  /**
   * The shape of the text: the five header lines, node `i` on line `5 + i`, an empty line,
   * edge `k` on line `6 + |nodes| + k`, and `'}'` last; `7 + |nodes| + EdgeCount` lines in all.
   */
  lemma DotShape(nodes: seq<Node>)
    requires Drawable(nodes)
    ensures var lines := DotLines(nodes);
            && |lines| == 7 + |nodes| + EdgeCount(nodes)
            && lines[..5] == Header && lines[|lines| - 1] == "}" && lines[5 + |nodes|] == ""
            && (forall i :: 0 <= i < |nodes| ==> lines[5 + i] == NodeLine(nodes[i]))
            && (forall k :: 0 <= k < EdgeCount(nodes) ==> lines[6 + |nodes| + k] == EdgeLine(Edges(nodes)[k]))
  {
    assert |Header| == 5;
    EdgesCount(nodes);
    var lines := DotLines(nodes);
    var nl := NodeLines(nodes);
    var edges := Edges(nodes);
    var el := EdgeLines(edges);
    Layout(Header, nl, el, lines);
    forall i | 0 <= i < |nodes| ensures lines[5 + i] == NodeLine(nodes[i]) {
      assert lines[5 + i] == nl[i];
    }
    forall k | 0 <= k < |edges| ensures lines[6 + |nodes| + k] == EdgeLine(edges[k]) {
      assert lines[6 + |nodes| + k] == el[k];
    }
  }

  /** Text that no line break can come from. */
  predicate OneLine(nodes: seq<Node>) {
    forall i :: 0 <= i < |nodes| ==>
      && '\n' !in nodes[i].id
      && (forall j :: 0 <= j < |nodes[i].dependsOn| ==> '\n' !in nodes[i].dependsOn[j])
      && (nodes[i].actionRef.Some? && nodes[i].actionRef.value.Str? ==> '\n' !in nodes[i].actionRef.value.s)
  }

  lemma NoBreakInEdges(nodes: seq<Node>)
    requires OneLine(nodes)
    ensures forall k :: 0 <= k < |Edges(nodes)| ==> '\n' !in Edges(nodes)[k].0 && '\n' !in Edges(nodes)[k].1
  {
    if nodes != [] {
      var init := nodes[..|nodes| - 1];
      assert OneLine(init) by {
        forall i | 0 <= i < |init| ensures init[i] == nodes[i] {
        }
      }
      NoBreakInEdges(init);
    }
  }

  lemma ShortOneLine(a: string)
    requires '\n' !in a
    ensures '\n' !in ShortAction(a)
  {
    ShortActionSuffix(a);
    var short := ShortAction(a);
    assert short == a[|a| - |short|..];
  }

  /** The fixed pieces of a node line hold no line break. */
  lemma PiecesOneLine()
    ensures '\n' !in "unknown" && '\n' !in "\\n(" && '\n' !in ")"
    ensures '\n' !in "    \"" && '\n' !in "\" [label=\"" && '\n' !in "\"];"
  {
    assert '\n' !in "unknown";
    assert '\n' !in "\\n(";
    assert '\n' !in "\" [label=\"";
  }

  lemma NodeLineOneLine(n: Node)
    requires n.actionRef.None? || n.actionRef.value.Str?
    requires '\n' !in n.id && (n.actionRef.Some? ==> '\n' !in n.actionRef.value.s)
    ensures '\n' !in NodeLine(n)
  {
    PiecesOneLine();
    var a := ActionOf(n);
    ShortOneLine(a);
    var caption := Label(n);
    assert '\n' !in caption;
  }

  lemma HeaderOneLine()
    ensures forall k :: 0 <= k < |Header| ==> '\n' !in Header[k]
  {
    assert '\n' !in Header[0];
    assert '\n' !in Header[1];
    assert '\n' !in "    node [shape=box, ";
    assert '\n' !in "style=\"rounded,filled\", ";
    assert '\n' !in "fillcolor=\"#e8f4f8\", ";
    assert '\n' !in "fontname=\"Arial\"];";
    assert '\n' !in Header[3];
  }

  /** No line of the layout breaks when none of its pieces does. */
  lemma LayoutOneLine(header: seq<string>, nodeLines: seq<string>, edgeLines: seq<string>, lines: seq<string>)
    requires lines == header + nodeLines + [""] + edgeLines + ["}"]
    requires forall k :: 0 <= k < |header| ==> '\n' !in header[k]
    requires forall k :: 0 <= k < |nodeLines| ==> '\n' !in nodeLines[k]
    requires forall k :: 0 <= k < |edgeLines| ==> '\n' !in edgeLines[k]
    ensures forall k :: 0 <= k < |lines| ==> '\n' !in lines[k]
  {
    Layout(header, nodeLines, edgeLines, lines);
    forall k | 0 <= k < |lines| ensures '\n' !in lines[k] {
      if k < |header| {
        assert lines[k] == header[k];
      } else if k < |header| + |nodeLines| {
        assert lines[k] == nodeLines[k - |header|];
      } else if |header| + |nodeLines| < k < |lines| - 1 {
        assert lines[k] == edgeLines[k - |header| - |nodeLines| - 1];
      }
    }
  }

  lemma EdgeLineOneLine(e: (string, string))
    requires '\n' !in e.0 && '\n' !in e.1
    ensures '\n' !in EdgeLine(e)
  {
    assert '\n' !in "\" -> \"";
    assert '\n' !in "\";";
  }

  lemma DotLinesOneLine(nodes: seq<Node>)
    requires Drawable(nodes) && OneLine(nodes)
    ensures forall k :: 0 <= k < |DotLines(nodes)| ==> '\n' !in DotLines(nodes)[k]
  {
    var nl := NodeLines(nodes);
    var edges := Edges(nodes);
    var el := EdgeLines(edges);
    HeaderOneLine();
    NoBreakInEdges(nodes);
    forall i | 0 <= i < |nl| ensures '\n' !in nl[i] {
      NodeLineOneLine(nodes[i]);
    }
    forall k | 0 <= k < |el| ensures '\n' !in el[k] {
      EdgeLineOneLine(edges[k]);
    }
    LayoutOneLine(Header, nl, el, DotLines(nodes));
  }

  /** When no id, dependency or action ref holds a newline, splitting the text on `'\n'` gives back its lines. */
  lemma DotSplits(nodes: seq<Node>)
    requires Drawable(nodes) && OneLine(nodes)
    ensures Split(Join(DotLines(nodes), "\n"), "\n") == DotLines(nodes)
  {
    DotLinesOneLine(nodes);
    SplitJoin(DotLines(nodes), "\n");
  }

  // ---------------------------------------------------------------------
  // get_node_details
  // ---------------------------------------------------------------------

  /** The first node with id `x`, if any. */
  function FirstWithId(nodes: seq<Node>, x: string): (r: Option<Node>)
    ensures r.None? <==> x !in IdSet(nodes)
    ensures r.Some? ==> exists i :: 0 <= i < |nodes| && nodes[i] == r.value && r.value.id == x
                                   && forall k :: 0 <= k < i ==> nodes[k].id != x
  {
    if nodes == [] then None
    else if nodes[0].id == x then
      Some(nodes[0])
    else
      var r := FirstWithId(nodes[1..], x);
      assert IdSet(nodes) == IdSet(nodes[1..]) + {nodes[0].id} by {
        assert forall k :: 0 < k < |nodes| ==> nodes[k] == nodes[1..][k - 1];
        assert forall k :: 0 <= k < |nodes[1..]| ==> nodes[1..][k] == nodes[k + 1];
      }
      if r.Some? then
        assert exists i :: 0 <= i < |nodes| && nodes[i] == r.value && r.value.id == x
                          && forall k :: 0 <= k < i ==> nodes[k].id != x by {
          var i :| 0 <= i < |nodes[1..]| && nodes[1..][i] == r.value && r.value.id == x
                   && forall k :: 0 <= k < i ==> nodes[1..][k].id != x;
          assert nodes[i + 1] == r.value;
          forall k | 0 <= k < i + 1 ensures nodes[k].id != x {
            if k > 0 {
              assert nodes[k] == nodes[1..][k - 1];
            }
          }
        }
        r
      else r
  }

  /** `get_node_details`: scans the nodes in order and returns the first with the id (None for `{}`). */
  method GetNodeDetails(nodes: seq<Node>, nodeId: string) returns (r: Option<Node>)
    ensures r == FirstWithId(nodes, nodeId)
  {
    for i := 0 to |nodes|
      invariant FirstWithId(nodes, nodeId) == FirstWithId(nodes[i..], nodeId)
    {
      if nodes[i].id == nodeId {
        return Some(nodes[i]);
      }
      assert nodes[i..][1..] == nodes[i + 1..];
    }
    return None;
  }

  /** Node ids are unique. */
  predicate UniqueIds(nodes: seq<Node>) {
    forall i, j :: 0 <= i < j < |nodes| ==> nodes[i].id != nodes[j].id
  }

  /**
   * With unique ids, the first match is the node the runner's `{n["id"]: n}` map keeps;
   * with duplicates the two can differ, the runner keeping the last.
   */
  lemma FirstIsIndexed(nodes: seq<Node>, x: string)
    requires UniqueIds(nodes) && x in IdSet(nodes)
    ensures FirstWithId(nodes, x) == Some(IdToNode(nodes)[x])
  {
    var r := FirstWithId(nodes, x);
    var i :| 0 <= i < |nodes| && nodes[i] == r.value && r.value.id == x
             && forall k :: 0 <= k < i ==> nodes[k].id != x;
    var last := LastWithId(nodes, x);
    assert last == i;
  }
}
