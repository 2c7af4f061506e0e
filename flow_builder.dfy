/**
 * The chatbot flow builder's graph edits. A flow is its nodes, its edges and
 * the node shown in the properties panel; each edit is a function from the
 * old flow to the new one. Node data values are strings. The clock
 * (`Date.now()`) and the two `Math.random()` draws of a new node's position
 * are parameters.
 */
module FlowBuilder {
  import opened Common
  import opened Strings

  datatype Node = Node(id: string, kind: string, x: real, y: real, data: map<string, string>)

  datatype Edge = Edge(id: string, source: string, target: string)

  datatype Flow = Flow(nodes: seq<Node>, edges: seq<Edge>, selected: Option<Node>)

  predicate HasNode(nodes: seq<Node>, id: string) {
    exists n :: n in nodes && n.id == id
  }

  /** Every edge starts and ends at a node of the flow. */
  predicate EdgesConnected(f: Flow) {
    forall e :: e in f.edges ==> HasNode(f.nodes, e.source) && HasNode(f.nodes, e.target)
  }

  function InitialFlow(): Flow {
    Flow([Node("1", "message", 250.0, 100.0,
               map["label" := "Welcome Message", "content" := "Hello! How can I help you today?", "type" := "text"])],
         [], None)
  }

  lemma InitialFlowConnected()
    ensures EdgesConnected(InitialFlow()) && |InitialFlow().nodes| == 1
  {
  }

  /** The data a new node starts with, by node type. */
  function DefaultData(kind: string): (d: map<string, string>)
    ensures kind == "message" ==> d == map["label" := "New Message", "content" := "", "type" := "text"]
    ensures kind == "condition" ==> d == map["label" := "New Condition", "condition" := "", "variable" := ""]
    ensures kind != "message" && kind != "condition" ==> d == map["label" := "New Action", "action" := "send_message"]
  {
    if kind == "message" then map["label" := "New Message", "content" := "", "type" := "text"]
    else if kind == "condition" then map["label" := "New Condition", "condition" := "", "variable" := ""]
    else map["label" := "New Action", "action" := "send_message"]
  }

  /** `addNode(type)` at time `now` with the random draws `rx` and `ry`. */
  function AddNode(f: Flow, kind: string, now: nat, rx: real, ry: real): (r: Flow)
    requires 0.0 <= rx < 1.0 && 0.0 <= ry < 1.0
    ensures |r.nodes| == |f.nodes| + 1 && r.nodes[..|f.nodes|] == f.nodes
    ensures var n := r.nodes[|f.nodes|];
            && n.id == NatToDecimal(now) && n.kind == kind && n.data == DefaultData(kind)
            && 100.0 <= n.x < 600.0 && 100.0 <= n.y < 500.0
    ensures r.edges == f.edges && r.selected == f.selected
  {
    var node := Node(NatToDecimal(now), kind, rx * 500.0 + 100.0, ry * 400.0 + 100.0, DefaultData(kind));
    f.(nodes := f.nodes + [node])
  }

  /** Adding a node keeps every edge attached. */
  lemma AddNodeKeepsEdgesConnected(f: Flow, kind: string, now: nat, rx: real, ry: real)
    requires 0.0 <= rx < 1.0 && 0.0 <= ry < 1.0
    requires EdgesConnected(f)
    ensures EdgesConnected(AddNode(f, kind, now, rx, ry))
  {
    var r := AddNode(f, kind, now, rx, ry);
    assert forall n :: n in f.nodes ==> n in r.nodes by {
      assert r.nodes == f.nodes + [r.nodes[|f.nodes|]];
    }
  }

  /** `deleteNode(id)`: the node, every edge touching it and the selection go. */
  function DeleteNode(f: Flow, id: string): (r: Flow)
    ensures forall n :: n in r.nodes <==> n in f.nodes && n.id != id
    ensures forall e :: e in r.edges <==> e in f.edges && e.source != id && e.target != id
    ensures r.selected == None
  {
    Flow(Filter(f.nodes, (n: Node) => n.id != id),
         Filter(f.edges, (e: Edge) => e.source != id && e.target != id),
         None)
  }

  /** The nodes and edges that survive a delete keep their order. */
  lemma DeleteNodeKeepsOrder(f: Flow, g: Flow, id: string)
    ensures DeleteNode(Flow(f.nodes + g.nodes, f.edges + g.edges, None), id).nodes
            == DeleteNode(f, id).nodes + DeleteNode(g, id).nodes
    ensures DeleteNode(Flow(f.nodes + g.nodes, f.edges + g.edges, None), id).edges
            == DeleteNode(f, id).edges + DeleteNode(g, id).edges
  {
    FilterAppend(f.nodes, g.nodes, (n: Node) => n.id != id);
    FilterAppend(f.edges, g.edges, (e: Edge) => e.source != id && e.target != id);
  }

  /** If every edge was attached before a delete, every edge is attached after it. */
  lemma DeleteNodeKeepsEdgesConnected(f: Flow, id: string)
    requires EdgesConnected(f)
    ensures EdgesConnected(DeleteNode(f, id))
  {
    var r := DeleteNode(f, id);
    forall e | e in r.edges
      ensures HasNode(r.nodes, e.source) && HasNode(r.nodes, e.target)
    {
      var s :| s in f.nodes && s.id == e.source;
      var t :| t in f.nodes && t.id == e.target;
      assert s in r.nodes && t in r.nodes;
    }
  }

  /** `{ ...node.data, ...newData }`. */
  function Merged(data: map<string, string>, newData: map<string, string>): (m: map<string, string>)
    ensures m.Keys == data.Keys + newData.Keys
    ensures forall k :: k in newData ==> m[k] == newData[k]
    ensures forall k :: k in data && k !in newData ==> m[k] == data[k]
  {
    data + newData
  }

  function UpdatedNode(n: Node, id: string, newData: map<string, string>): Node {
    if n.id == id then n.(data := Merged(n.data, newData)) else n
  }

  /** `updateNodeData(id, newData)`: merges `newData` into the matching nodes; the panel's node is left as it was. */
  function UpdateNodeData(f: Flow, id: string, newData: map<string, string>): (r: Flow)
    ensures |r.nodes| == |f.nodes|
    ensures forall i :: 0 <= i < |f.nodes| ==>
              && r.nodes[i].id == f.nodes[i].id && r.nodes[i].kind == f.nodes[i].kind
              && r.nodes[i].x == f.nodes[i].x && r.nodes[i].y == f.nodes[i].y
              && (f.nodes[i].id != id ==> r.nodes[i] == f.nodes[i])
              && (f.nodes[i].id == id ==> r.nodes[i].data == Merged(f.nodes[i].data, newData))
    ensures r.edges == f.edges && r.selected == f.selected
  {
    f.(nodes := seq(|f.nodes|, i requires 0 <= i < |f.nodes| => UpdatedNode(f.nodes[i], id, newData)))
  }

  /** Updating data never detaches an edge. */
  lemma UpdateKeepsEdgesConnected(f: Flow, id: string, newData: map<string, string>)
    requires EdgesConnected(f)
    ensures EdgesConnected(UpdateNodeData(f, id, newData))
  {
    var r := UpdateNodeData(f, id, newData);
    forall e | e in r.edges
      ensures HasNode(r.nodes, e.source) && HasNode(r.nodes, e.target)
    {
      var s :| s in f.nodes && s.id == e.source;
      var t :| t in f.nodes && t.id == e.target;
      var i :| 0 <= i < |f.nodes| && f.nodes[i] == s;
      var j :| 0 <= j < |f.nodes| && f.nodes[j] == t;
      assert r.nodes[i] in r.nodes && r.nodes[j] in r.nodes;
    }
  }

  /** Two updates of the same field: the later value wins. */
  lemma LastUpdateWins(f: Flow, id: string, field: string, v1: string, v2: string)
    ensures UpdateNodeData(UpdateNodeData(f, id, map[field := v1]), id, map[field := v2])
            == UpdateNodeData(f, id, map[field := v2])
  {
    var a := UpdateNodeData(UpdateNodeData(f, id, map[field := v1]), id, map[field := v2]);
    var b := UpdateNodeData(f, id, map[field := v2]);
    forall i | 0 <= i < |f.nodes|
      ensures a.nodes[i] == b.nodes[i]
    {
      if f.nodes[i].id == id {
        assert a.nodes[i].data == b.nodes[i].data;
      }
    }
  }

  // ---------------------------------------------------------------------
  // The properties panel

  /** `handleUpdate(field, value)`: a one-field update of the panel's node. */
  function HandleUpdate(f: Flow, field: string, value: string): (r: Flow)
    requires f.selected.Some?
    ensures |r.nodes| == |f.nodes| && r.edges == f.edges
    ensures forall i :: 0 <= i < |f.nodes| && f.nodes[i].id == f.selected.value.id ==>
              r.nodes[i].data == f.nodes[i].data[field := value]
    ensures forall i :: 0 <= i < |f.nodes| && f.nodes[i].id != f.selected.value.id ==> r.nodes[i] == f.nodes[i]
  {
    UpdateNodeData(f, f.selected.value.id, map[field := value])
  }

  /** What the panel's text input shows: the field of the panel's node, or "". */
  function Shown(f: Flow, field: string): string
    requires f.selected.Some?
  {
    var d := f.selected.value.data;
    if field in d then d[field] else ""
  }

  /** One keystroke in a panel input: the input reports what it shows plus the typed character. */
  function Keystroke(f: Flow, field: string, c: char): Flow
    requires f.selected.Some?
  {
    HandleUpdate(f, field, Shown(f, field) + [c])
  }

  /**
   * As written, the panel keeps showing the node as it was when clicked, so
   * two keystrokes into the label "X" leave the label "Xb": the first
   * character is lost.
   */
  lemma KeystrokesLoseEarlierCharacters()
    ensures var n := Node("1", "message", 0.0, 0.0, map["label" := "X"]);
            var f := Flow([n], [], Some(n));
            var after := Keystroke(Keystroke(f, "label", 'a'), "label", 'b');
            after.nodes[0].data["label"] == "Xb"
  {
    var n := Node("1", "message", 0.0, 0.0, map["label" := "X"]);
    var f := Flow([n], [], Some(n));
    var once := Keystroke(f, "label", 'a');
    assert once.selected == Some(n);
    assert Shown(once, "label") == "X";
    assert Shown(once, "label") + ['b'] == "Xb";
    var twice := Keystroke(once, "label", 'b');
    assert twice == UpdateNodeData(once, "1", map["label" := "Xb"]);
    assert twice.nodes[0].data == Merged(once.nodes[0].data, map["label" := "Xb"]);
  }

  /** The update with the panel's node refreshed along with the list. */
  function UpdateNodeDataSynced(f: Flow, id: string, newData: map<string, string>): (r: Flow)
    ensures r.nodes == UpdateNodeData(f, id, newData).nodes && r.edges == f.edges
    ensures r.selected == if f.selected.Some? then Some(UpdatedNode(f.selected.value, id, newData)) else None
  {
    var s := if f.selected.Some? then Some(UpdatedNode(f.selected.value, id, newData)) else None;
    UpdateNodeData(f, id, newData).(selected := s)
  }

  function KeystrokeSynced(f: Flow, field: string, c: char): Flow
    requires f.selected.Some?
  {
    UpdateNodeDataSynced(f, f.selected.value.id, map[field := Shown(f, field) + [c]])
  }

  /** With the panel refreshed, typing appends every character to the field of the selected node. */
  lemma {:induction false} SyncedKeystrokesAppend(f: Flow, field: string, typed: string)
    requires f.selected.Some?
    ensures var r := TypeSynced(f, field, typed);
            r.selected.Some? && r.selected.value.id == f.selected.value.id
            && Shown(r, field) == Shown(f, field) + typed
    decreases |typed|
  {
    if typed != [] {
      var once := KeystrokeSynced(f, field, typed[0]);
      assert Shown(once, field) == Shown(f, field) + [typed[0]];
      SyncedKeystrokesAppend(once, field, typed[1..]);
      assert typed == [typed[0]] + typed[1..];
    }
  }

  function TypeSynced(f: Flow, field: string, typed: string): (r: Flow)
    requires f.selected.Some?
    ensures r.selected.Some?
    decreases |typed|
  {
    if typed == [] then f else TypeSynced(KeystrokeSynced(f, field, typed[0]), field, typed[1..])
  }

  /** In the list, the selected node's field then holds everything typed. */
  lemma SyncedKeystrokesReachList(f: Flow, field: string, a: char, b: char, i: nat)
    requires f.selected.Some? && i < |f.nodes| && f.nodes[i] == f.selected.value
    ensures var r := KeystrokeSynced(KeystrokeSynced(f, field, a), field, b);
            field in r.nodes[i].data && r.nodes[i].data[field] == Shown(f, field) + [a] + [b]
  {
  }
}
