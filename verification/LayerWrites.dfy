/** The write a node publish makes to one layer: its own keys set, every other key kept. */
module LayerWrites {
  import opened Outcomes
  import opened Json
  import opened ConfigTree

  /** A node a write sets: its key and its value. */
  type Node = (string, Json)

  predicate Sets(nodes: seq<Node>, key: string) {
    exists i :: 0 <= i < |nodes| && nodes[i].0 == key
  }

  predicate DistinctKeys(nodes: seq<Node>) {
    forall i, j :: 0 <= i < j < |nodes| ==> nodes[i].0 != nodes[j].0
  }

  /** The first value a write gives `key`. */
  function ValueOf(nodes: seq<Node>, key: string): (value: Option<Json>)
    ensures value.Some? <==> Sets(nodes, key)
    ensures value.Some? ==> (key, value.value) in nodes
  {
    if nodes == [] then None
    else if nodes[0].0 == key then Some(nodes[0].1)
    else
      assert Sets(nodes, key) ==> Sets(nodes[1..], key) by {
        if Sets(nodes, key) {
          var i :| 0 <= i < |nodes| && nodes[i].0 == key;
          assert nodes[1..][i - 1].0 == key;
        }
      }
      ValueOf(nodes[1..], key)
  }

  /** The last value a write gives `key`: the one the layer ends with. */
  function LastOf(nodes: seq<Node>, key: string): (value: Option<Json>)
    ensures value.Some? <==> Sets(nodes, key)
    ensures value.Some? ==> (key, value.value) in nodes
  {
    if nodes == [] then None
    else
      var last := nodes[|nodes| - 1];
      if last.0 == key then Some(last.1)
      else
        assert Sets(nodes, key) ==> Sets(nodes[..|nodes| - 1], key) by {
          if Sets(nodes, key) {
            var i :| 0 <= i < |nodes| && nodes[i].0 == key;
            assert nodes[..|nodes| - 1][i].0 == key;
          }
        }
        LastOf(nodes[..|nodes| - 1], key)
  }

  lemma LastOfAppended(nodes: seq<Node>, node: Node, key: string)
    ensures LastOf(nodes + [node], key) == if node.0 == key then Some(node.1) else LastOf(nodes, key)
  {
    assert (nodes + [node])[..|nodes|] == nodes;
  }

  lemma DistinctFirstIsLast(nodes: seq<Node>, key: string)
    requires DistinctKeys(nodes)
    ensures ValueOf(nodes, key) == LastOf(nodes, key)
  {
    if Sets(nodes, key) {
      var first, last := (key, ValueOf(nodes, key).value), (key, LastOf(nodes, key).value);
      var i :| 0 <= i < |nodes| && nodes[i] == first;
      var j :| 0 <= j < |nodes| && nodes[j] == last;
      assert i == j;
    }
  }

  /** The members a layer ends with. */
  function Written(fields: map<string, Json>, nodes: seq<Node>): (out: map<string, Json>)
    ensures forall key :: key in out <==> key in fields || Sets(nodes, key)
    ensures forall key :: key in out ==>
              out[key] == if Sets(nodes, key) then LastOf(nodes, key).value else fields[key]
  {
    map key | key in fields.Keys + KeysSet(nodes) ::
      if Sets(nodes, key) then LastOf(nodes, key).value else fields[key]
  }

  function KeysSet(nodes: seq<Node>): (keys: set<string>)
    ensures forall key :: key in keys <==> Sets(nodes, key)
  {
    set i | 0 <= i < |nodes| :: nodes[i].0
  }

  /** What a layer write starts from: a missing layer, and one that is no object, are empty. */
  function LayerBefore(before: Option<Tree>, level: Level): map<string, Json> {
    if before.Some? && before.value.Layer(level).Obj? then before.value.Layer(level).fields else map[]
  }

  function LayerAfter(before: Option<Tree>, level: Level, nodes: seq<Node>): Json {
    Obj(Written(LayerBefore(before, level), nodes))
  }

  lemma WrittenStep(fields: map<string, Json>, nodes: seq<Node>, node: Node)
    ensures Written(fields, nodes + [node]) == Written(fields, nodes)[node.0 := node.1]
  {
    hide Written, LastOf;
    forall key
      ensures Sets(nodes + [node], key) <==> Sets(nodes, key) || key == node.0
      ensures LastOf(nodes + [node], key) == if node.0 == key then Some(node.1) else LastOf(nodes, key)
    {
      LastOfAppended(nodes, node, key);
    }
  }

  method LayerWithNodes(before: Option<Tree>, level: Level, nodes: seq<Node>) returns (layer: Json)
    ensures layer == LayerAfter(before, level, nodes)
  {
    var fields := LayerBefore(before, level);
    assert fields == Written(fields, []);
    hide Written;
    for i := 0 to |nodes|
      invariant fields == Written(LayerBefore(before, level), nodes[..i])
    {
      assert nodes[..i + 1] == nodes[..i] + [nodes[i]];
      WrittenStep(LayerBefore(before, level), nodes[..i], nodes[i]);
      fields := fields[nodes[i].0 := nodes[i].1];
    }
    assert nodes[..|nodes|] == nodes;
    layer := Obj(fields);
  }
}
