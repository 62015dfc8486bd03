/**
 * The parsed workflow IR: the fields of a node that the runner and the DOT export read.
 * Reading the YAML/JSON file is not modelled; a workflow is its list of nodes.
 */
module Workflow {
  import opened Wrappers
  import opened Json
  import opened Seqs

  /**
   * One entry of the IR's `nodes` list.
   * `actionRef`, `schemaVersion` and `input` are None when the key is absent;
   * `dependsOn` is `n.get("dependsOn") or []`;
   * `maxAttempts` is `int(retry.get("maxAttempts", 1))` and `timeoutMs` is `int(node.get("timeoutMs") or 0)`.
   */
  datatype Node = Node(
    id: string,
    actionRef: Option<Value>,
    schemaVersion: Option<Value>,
    dependsOn: seq<string>,
    input: Option<Value>,
    maxAttempts: int,
    timeoutMs: int)

  /** The ids of the nodes, as a set. */
  function IdSet(nodes: seq<Node>): set<string> {
    set k | 0 <= k < |nodes| :: nodes[k].id
  }

  lemma IdSetSnoc(nodes: seq<Node>)
    requires |nodes| > 0
    ensures IdSet(nodes) == IdSet(nodes[..|nodes| - 1]) + {nodes[|nodes| - 1].id}
  {
    var init := nodes[..|nodes| - 1];
    forall x | x in IdSet(nodes) ensures x in IdSet(init) + {nodes[|nodes| - 1].id} {
      var k :| 0 <= k < |nodes| && nodes[k].id == x;
      if k < |nodes| - 1 {
        assert init[k].id == x;
      }
    }
    forall x | x in IdSet(init) ensures x in IdSet(nodes) {
      var k :| 0 <= k < |init| && init[k].id == x;
      assert nodes[k].id == x;
    }
  }

  /**
   * The distinct ids in order of first occurrence: the key order of a dict filled by
   * `d.setdefault(n["id"], ...)` for each node in turn.
   */
  function Ids(nodes: seq<Node>): (r: seq<string>)
    ensures NoDup(r) && Elems(r) == IdSet(nodes)
  {
    if nodes == [] then []
    else
      var prev := Ids(nodes[..|nodes| - 1]);
      var x := nodes[|nodes| - 1].id;
      IdSetSnoc(nodes);
      if x in prev then prev else prev + [x]
  }

  /** The position of the last node with id `x`, or -1 when there is none. */
  function LastWithId(nodes: seq<Node>, x: string): (k: int)
    ensures -1 <= k < |nodes|
    ensures k == -1 <==> x !in IdSet(nodes)
    ensures k >= 0 ==> nodes[k].id == x
    ensures forall k' :: k < k' < |nodes| ==> nodes[k'].id != x
  {
    if nodes == [] then -1
    else if nodes[|nodes| - 1].id == x then |nodes| - 1
    else
      IdSetSnoc(nodes);
      LastWithId(nodes[..|nodes| - 1], x)
  }

  /** `{n["id"]: n for n in nodes}`: each id maps to the LAST node that carries it. */
  function IdToNode(nodes: seq<Node>): (m: map<string, Node>)
    ensures m.Keys == IdSet(nodes)
    ensures forall x :: x in m ==> m[x].id == x && m[x] == nodes[LastWithId(nodes, x)]
  {
    map x | x in IdSet(nodes) :: nodes[LastWithId(nodes, x)]
  }
}
