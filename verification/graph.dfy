/** The controller's graph reconciliation: the node store (`$scope.nodes`) and
    the rendered view, reduced to what the reconciliation touches — vertex ids,
    the edges handed to the renderer, and the classes each element carries. */
module Graph {
  import opened Wrappers

  /** An entry of an "add" batch. `state` is present when the announcement
      already carries one; absent reads as `undefined`. */
  datatype NodeRecord = NodeRecord(id: string, depends: seq<string>, state: Option<string>)

  /** An entry of an "update" batch. */
  datatype NodeState = NodeState(id: string, state: Option<string>)

  type Store = map<string, NodeRecord>

  /** An edge as the renderer holds it. The renderer gives every added edge a
      fresh identity, so two edges may join the same pair of vertices. */
  datatype Edge = Edge(source: string, target: string, classes: set<string>)

  /** The rendered graph: each vertex id with its classes, and the edges. */
  datatype View = View(vertices: map<string, set<string>>, edges: seq<Edge>)

  datatype GraphState = GraphState(nodes: Store, view: View)

  const StateClasses: set<string> := {"unknown", "stopped", "running"}

  const EmptyGraph := GraphState(map[], View(map[], []))

  /** The state class a state value leaves on an element: itself when it is one
      of the three, nothing otherwise. */
  function StateOnly(state: Option<string>): (r: set<string>) {
    if state.Some? && state.value in StateClasses then {state.value} else {}
  }

  /** The (source, target) pairs of a sequence of edges, in order. */
  function Ends(edges: seq<Edge>): (r: seq<(string, string)>)
    ensures |r| == |edges|
  {
    seq(|edges|, i requires 0 <= i < |edges| => (edges[i].source, edges[i].target))
  }

  /** The ids occurring in a batch. */
  function Ids(batch: seq<NodeRecord>): (r: set<string>) {
    set i | 0 <= i < |batch| :: batch[i].id
  }

  /** The ids of a non-empty batch: its first id and the ids of the rest. */
  lemma IdsCons(batch: seq<NodeRecord>)
    requires batch != []
    ensures Ids(batch) == {batch[0].id} + Ids(batch[1..])
  {
    forall x | x in Ids(batch) ensures x in {batch[0].id} + Ids(batch[1..]) {
      var i :| 0 <= i < |batch| && batch[i].id == x;
      if i > 0 { assert batch[1..][i - 1] == batch[i]; }
    }
    forall x | x in Ids(batch[1..]) ensures x in Ids(batch) {
      var i :| 0 <= i < |batch[1..]| && batch[1..][i].id == x;
      assert batch[i + 1] == batch[1..][i];
    }
  }

  /** Entry `i` is the last one in the batch with its id. */
  predicate LastOccurrence(batch: seq<NodeRecord>, i: int)
    requires 0 <= i < |batch|
  {
    forall j :: i < j < |batch| ==> batch[j].id != batch[i].id
  }

  /** Every id of a batch has a last occurrence. */
  lemma {:induction false} HasLastOccurrence(batch: seq<NodeRecord>, id: string)
    requires id in Ids(batch)
    ensures exists i :: 0 <= i < |batch| && batch[i].id == id && LastOccurrence(batch, i)
  {
    var n := |batch| - 1;
    if batch[n].id == id {
      assert LastOccurrence(batch, n);
    } else {
      var front := batch[..n];
      var k :| 0 <= k < |batch| && batch[k].id == id;
      assert k < n && front[k] == batch[k];
      assert id in Ids(front);
      HasLastOccurrence(front, id);
      var i :| 0 <= i < |front| && front[i].id == id && LastOccurrence(front, i);
      assert batch[i] == front[i];
      assert LastOccurrence(batch, i);
    }
  }

  // ---------------------------------------------------------------------------
  // setState

  /** `setState(elem, stateClass)`: drop the three state classes, then add the
      given one. The element ends up with exactly the requested state class
      (none when the value is another string), and no other class changes
      except that a non-state value is added as a class. An absent value
      (`undefined`) is taken to add nothing, as the renderer's `addClass`
      treats it. */
  function SetState(classes: set<string>, state: Option<string>): (r: set<string>)
    ensures r * StateClasses == StateOnly(state)
    ensures forall c :: c !in StateClasses && Some(c) != state ==> (c in r <==> c in classes)
    ensures state.Some? ==> state.value in r
  {
    var cleared := classes - StateClasses;
    if state.Some? then cleared + {state.value} else cleared
  }

  /** Setting a state twice is setting it once, and a later state class
      replaces an earlier one. */
  lemma SetStateLastWins(classes: set<string>, first: Option<string>, second: Option<string>)
    requires first.None? || first.value in StateClasses
    ensures SetState(SetState(classes, first), second) == SetState(classes, second)
  {
    var a := SetState(SetState(classes, first), second);
    var b := SetState(classes, second);
    forall c
      ensures c in a <==> c in b
    {
      if c in StateClasses {
        assert c in a <==> c in a * StateClasses;
        assert c in b <==> c in b * StateClasses;
      }
    }
  }

  // ---------------------------------------------------------------------------
  // addNodes

  /** The store loop of `addNodes`: each entry overwrites the store under its
      id, in batch order, so the last entry with an id wins. */
  function StoreAll(store: Store, batch: seq<NodeRecord>): (r: Store)
    ensures r.Keys == store.Keys + Ids(batch)
    ensures forall k :: k in store && k !in Ids(batch) ==> r[k] == store[k]
    ensures forall i :: 0 <= i < |batch| && LastOccurrence(batch, i) ==> r[batch[i].id] == batch[i]
    decreases |batch|
  {
    if batch == [] then
      store
    else
      var rest := batch[1..];
      IdsCons(batch);
      var r := StoreAll(store[batch[0].id := batch[0]], rest);
      assert forall i :: 0 < i < |batch| && LastOccurrence(batch, i) ==> LastOccurrence(rest, i - 1) && rest[i - 1] == batch[i];
      assert LastOccurrence(batch, 0) ==> batch[0].id !in Ids(rest);
      r
  }

  /** The vertices `addNodes` stages: every batch entry whose id the view does
      not hold yet. The test reads the view as it was before the batch, so a
      repeated id is staged once per entry. */
  function StagedVertices(view: View, batch: seq<NodeRecord>): (r: seq<string>)
    ensures forall x :: x in r <==> x in Ids(batch) && x !in view.vertices
  {
    if batch == [] then []
    else
      IdsCons(batch);
      (if batch[0].id !in view.vertices then [batch[0].id] else []) + StagedVertices(view, batch[1..])
  }

  /** The dependency edges of one node, in `depends` order. */
  function DependencyEdges(node: NodeRecord): (r: seq<(string, string)>)
    ensures |r| == |node.depends|
    ensures forall e :: e in r <==> e.0 == node.id && e.1 in node.depends
  {
    var r := seq(|node.depends|, i requires 0 <= i < |node.depends| => (node.id, node.depends[i]));
    assert forall t :: t in node.depends ==> (node.id, t) in r by {
      forall t | t in node.depends ensures (node.id, t) in r {
        var i :| 0 <= i < |node.depends| && node.depends[i] == t;
        assert r[i] == (node.id, t);
      }
    }
    r
  }

  /** The edges `addNodes` stages: the dependency edges of every entry whose
      vertex the view lacked before the batch, whether or not the target is
      known. */
  function StagedEdges(view: View, batch: seq<NodeRecord>): (r: seq<(string, string)>)
    ensures forall e :: e in r ==> e.0 in Ids(batch) && e.0 !in view.vertices
    ensures forall e :: e in r ==>
      exists i :: 0 <= i < |batch| && batch[i].id == e.0 && e.0 !in view.vertices && e.1 in batch[i].depends
    ensures forall i, t :: 0 <= i < |batch| && batch[i].id !in view.vertices && t in batch[i].depends ==> (batch[i].id, t) in r
    ensures Ids(batch) <= view.vertices.Keys ==> r == []
  {
    if batch == [] then []
    else
      var rest := StagedEdges(view, batch[1..]);
      IdsCons(batch);
      assert batch[0].id in Ids(batch);
      assert forall i :: 0 < i < |batch| ==> batch[1..][i - 1] == batch[i];
      assert Ids(batch) <= view.vertices.Keys ==> Ids(batch[1..]) <= view.vertices.Keys;
      (if batch[0].id !in view.vertices then DependencyEdges(batch[0]) else []) + rest
  }

  /** The batched `cy.add`: new vertices without classes (an id the view already
      holds is refused), and the staged edges appended without classes. */
  function AddElements(view: View, vertexIds: seq<string>, edges: seq<(string, string)>): (r: View)
    ensures r.vertices.Keys == view.vertices.Keys + (set x | x in vertexIds)
    ensures forall k :: k in view.vertices ==> r.vertices[k] == view.vertices[k]
    ensures forall k :: k in r.vertices && k !in view.vertices ==> r.vertices[k] == {}
    ensures |r.edges| == |view.edges| + |edges|
    ensures r.edges[..|view.edges|] == view.edges
    ensures Ends(r.edges) == Ends(view.edges) + edges
    ensures forall i :: |view.edges| <= i < |r.edges| ==> r.edges[i].classes == {}
  {
    var added := map x | x in vertexIds && x !in view.vertices :: {};
    var newEdges := seq(|edges|, i requires 0 <= i < |edges| => Edge(edges[i].0, edges[i].1, {}));
    var r := View(view.vertices + added, view.edges + newEdges);
    assert Ends(r.edges) == Ends(view.edges) + edges by {
      assert forall i :: 0 <= i < |view.edges| ==> r.edges[i] == view.edges[i];
      assert forall i :: |view.edges| <= i < |r.edges| ==> r.edges[i] == newEdges[i - |view.edges|];
    }
    r
  }

  // ---------------------------------------------------------------------------
  // updateNodes

  /** The edge has the vertex as an endpoint (`connectedEdges`). */
  predicate Incident(e: Edge, id: string) {
    e.source == id || e.target == id
  }

  /** `setState` on the neighbourhood of one vertex: the vertex itself, when the
      view holds it, and every edge incident to it. */
  function SetNeighbourhood(view: View, id: string, state: Option<string>): (r: View)
    ensures r.vertices.Keys == view.vertices.Keys
    ensures forall k :: k in view.vertices && k != id ==> r.vertices[k] == view.vertices[k]
    ensures id in view.vertices ==> r.vertices[id] == SetState(view.vertices[id], state)
    ensures |r.edges| == |view.edges|
    ensures forall i :: 0 <= i < |view.edges| && !Incident(view.edges[i], id) ==> r.edges[i] == view.edges[i]
    ensures forall i :: 0 <= i < |view.edges| && Incident(view.edges[i], id) ==>
      r.edges[i] == view.edges[i].(classes := SetState(view.edges[i].classes, state))
  {
    var vertices := if id in view.vertices then view.vertices[id := SetState(view.vertices[id], state)] else view.vertices;
    var edges := seq(|view.edges|, i requires 0 <= i < |view.edges| =>
      if Incident(view.edges[i], id) then view.edges[i].(classes := SetState(view.edges[i].classes, state))
      else view.edges[i]);
    View(vertices, edges)
  }

  /** The state carried by the last update whose id is in `ids`, if any. */
  function LastTouch(updates: seq<NodeState>, ids: set<string>): (r: Option<Option<string>>)
    decreases |updates|
  {
    if updates == [] then None
    else if updates[|updates| - 1].id in ids then Some(updates[|updates| - 1].state)
    else LastTouch(updates[..|updates| - 1], ids)
  }

  /** Every state value of an update batch that is present. */
  function Tokens(updates: seq<NodeState>): (r: set<string>) {
    set i | 0 <= i < |updates| && updates[i].state.Some? :: updates[i].state.value
  }

  /** How an element's classes relate before and after an update batch, given
      the state of the last update touching it: untouched elements keep their
      classes; touched ones carry exactly that update's state class, keep every
      class that no update of the batch names, and carry the state value. */
  ghost predicate Recoloured(before: set<string>, after: set<string>, last: Option<Option<string>>, tokens: set<string>) {
    match last
    case None => after == before
    case Some(state) =>
      && after * StateClasses == StateOnly(state)
      && (forall c :: c !in StateClasses && c !in tokens ==> (c in after <==> c in before))
      && (state.Some? ==> state.value in after)
  }

  /** Every update of a batch names a node of the store. */
  predicate AllKnown(nodes: Store, updates: seq<NodeState>) {
    forall i :: 0 <= i < |updates| ==> updates[i].id in nodes
  }

  /** One iteration of `updateNodes`: record the state in the store, then set it
      on the neighbourhood. The store read throws for an unknown id. */
  function ApplyUpdate(g: GraphState, u: NodeState): (r: GraphState)
    requires u.id in g.nodes
    ensures r.nodes == g.nodes[u.id := g.nodes[u.id].(state := u.state)]
    ensures r.view == SetNeighbourhood(g.view, u.id, u.state)
  {
    GraphState(g.nodes[u.id := g.nodes[u.id].(state := u.state)], SetNeighbourhood(g.view, u.id, u.state))
  }

  lemma RecolouredStep(before: set<string>, mid: set<string>, after: set<string>,
                       last: Option<Option<string>>, tokens: set<string>, touched: bool, state: Option<string>)
    requires Recoloured(before, mid, last, tokens)
    requires touched ==> after == SetState(mid, state)
    requires !touched ==> after == mid
    ensures Recoloured(before, after, if touched then Some(state) else last,
                       tokens + (if state.Some? then {state.value} else {}))
  {
  }

  lemma UpdateStoreStep(nodes: Store, front: seq<NodeState>, u: NodeState, mid: Store, r: Store)
    requires mid.Keys == nodes.Keys && u.id in nodes
    requires forall k :: k in nodes ==> mid[k] == nodes[k].(state := LastTouch(front, {k}).GetOr(nodes[k].state))
    requires r == mid[u.id := mid[u.id].(state := u.state)]
    ensures r.Keys == nodes.Keys
    ensures forall k :: k in nodes ==>
      r[k] == nodes[k].(state := LastTouch(front + [u], {k}).GetOr(nodes[k].state))
  {
    assert (front + [u])[..|front|] == front;
  }

  lemma UpdateViewStep(view: View, front: seq<NodeState>, u: NodeState, mid: View, r: View)
    requires mid.vertices.Keys == view.vertices.Keys
    requires Ends(mid.edges) == Ends(view.edges)
    requires forall k :: k in view.vertices ==>
      Recoloured(view.vertices[k], mid.vertices[k], LastTouch(front, {k}), Tokens(front))
    requires forall i :: 0 <= i < |view.edges| ==>
      Recoloured(view.edges[i].classes, mid.edges[i].classes,
                 LastTouch(front, {view.edges[i].source, view.edges[i].target}), Tokens(front))
    requires r == SetNeighbourhood(mid, u.id, u.state)
    ensures r.vertices.Keys == view.vertices.Keys
    ensures Ends(r.edges) == Ends(view.edges)
    ensures forall k :: k in view.vertices ==>
      Recoloured(view.vertices[k], r.vertices[k], LastTouch(front + [u], {k}), Tokens(front + [u]))
    ensures forall i :: 0 <= i < |view.edges| ==>
      Recoloured(view.edges[i].classes, r.edges[i].classes,
                 LastTouch(front + [u], {view.edges[i].source, view.edges[i].target}), Tokens(front + [u]))
  {
    var updates := front + [u];
    assert updates[..|front|] == front;
    var extra := if u.state.Some? then {u.state.value} else {};
    assert Tokens(updates) == Tokens(front) + extra by {
      assert forall i :: 0 <= i < |front| ==> updates[i] == front[i];
      assert updates[|front|] == u;
    }
    forall k | k in view.vertices
      ensures Recoloured(view.vertices[k], r.vertices[k], LastTouch(updates, {k}), Tokens(updates))
    {
      RecolouredStep(view.vertices[k], mid.vertices[k], r.vertices[k],
                     LastTouch(front, {k}), Tokens(front), u.id == k, u.state);
    }
    forall i | 0 <= i < |view.edges|
      ensures Recoloured(view.edges[i].classes, r.edges[i].classes,
                         LastTouch(updates, {view.edges[i].source, view.edges[i].target}), Tokens(updates))
    {
      var e := view.edges[i];
      assert Ends(mid.edges)[i] == Ends(view.edges)[i];
      assert Incident(mid.edges[i], u.id) <==> u.id in {e.source, e.target};
      RecolouredStep(e.classes, mid.edges[i].classes, r.edges[i].classes,
                     LastTouch(front, {e.source, e.target}), Tokens(front), u.id in {e.source, e.target}, u.state);
    }
    assert Ends(r.edges) == Ends(mid.edges) by {
      assert forall i :: 0 <= i < |mid.edges| ==> Ends(r.edges)[i] == Ends(mid.edges)[i];
    }
  }

  /** `updateNodes(nodeUpdates)`, entries applied in order. Store states and
      element classes follow the last update touching them — a vertex is
      touched by updates naming it, an edge by updates naming either endpoint —
      and nothing else in the store or the view changes. */
  function UpdateNodes(g: GraphState, updates: seq<NodeState>): (r: GraphState)
    requires AllKnown(g.nodes, updates)
    ensures r.nodes.Keys == g.nodes.Keys
    ensures forall k :: k in g.nodes ==>
      r.nodes[k] == g.nodes[k].(state := LastTouch(updates, {k}).GetOr(g.nodes[k].state))
    ensures r.view.vertices.Keys == g.view.vertices.Keys
    ensures Ends(r.view.edges) == Ends(g.view.edges)
    ensures forall k :: k in g.view.vertices ==>
      Recoloured(g.view.vertices[k], r.view.vertices[k], LastTouch(updates, {k}), Tokens(updates))
    ensures forall i :: 0 <= i < |g.view.edges| ==>
      Recoloured(g.view.edges[i].classes, r.view.edges[i].classes,
                 LastTouch(updates, {g.view.edges[i].source, g.view.edges[i].target}), Tokens(updates))
    decreases |updates|
  {
    if updates == [] then
      g
    else
      var n := |updates| - 1;
      var front := updates[..n];
      var u := updates[n];
      assert updates == front + [u];
      assert AllKnown(g.nodes, front) by {
        assert forall i :: 0 <= i < |front| ==> front[i] == updates[i];
      }
      var mid := UpdateNodes(g, front);
      var r := ApplyUpdate(mid, u);
      UpdateStoreStep(g.nodes, front, u, mid.nodes, r.nodes);
      UpdateViewStep(g.view, front, u, mid.view, r.view);
      r
  }

  /** The update entries `addNodes` re-applies: each record's id and state. */
  function StatesOf(batch: seq<NodeRecord>): (r: seq<NodeState>)
    ensures |r| == |batch|
    ensures forall i :: 0 <= i < |batch| ==> r[i] == NodeState(batch[i].id, batch[i].state)
  {
    seq(|batch|, i requires 0 <= i < |batch| => NodeState(batch[i].id, batch[i].state))
  }

  /** The state entry `i` holds once the entries before it have been applied,
      when it is the object the store holds: the store loop left the last entry
      of each id in the store, and `updateNodes` writes each earlier entry's
      state into that same object. It is the state of the latest earlier entry
      with the same id, or the entry's own when there is none. */
  function SettledState(batch: seq<NodeRecord>, i: int): (r: Option<string>)
    requires 0 <= i < |batch|
  {
    LastTouch(StatesOf(batch[..i]), {batch[i].id}).GetOr(batch[i].state)
  }

  /** The update entries `updateNodes(nodes)` actually applies inside
      `addNodes`: an entry that is not the last with its id carries its own
      state; the last one carries the state already written into it. */
  function AliasedStates(batch: seq<NodeRecord>): (r: seq<NodeState>)
    ensures |r| == |batch|
    ensures forall i :: 0 <= i < |batch| ==> r[i].id == batch[i].id
  {
    seq(|batch|, i requires 0 <= i < |batch| =>
      NodeState(batch[i].id, if LastOccurrence(batch, i) then SettledState(batch, i) else batch[i].state))
  }

  /** The last update naming an id is the one `LastTouch` finds for it. */
  lemma {:induction false} LastTouchAt(us: seq<NodeState>, i: int)
    requires 0 <= i < |us|
    requires forall j :: i < j < |us| ==> us[j].id != us[i].id
    ensures LastTouch(us, {us[i].id}) == Some(us[i].state)
    decreases |us|
  {
    var n := |us| - 1;
    if i < n {
      var front := us[..n];
      assert front[i] == us[i];
      LastTouchAt(front, i);
    }
  }

  /** No update names an id that no entry carries. */
  lemma {:induction false} LastTouchAbsent(us: seq<NodeState>, k: string)
    requires forall j :: 0 <= j < |us| ==> us[j].id != k
    ensures LastTouch(us, {k}) == None
    decreases |us|
  {
    if us != [] {
      LastTouchAbsent(us[..|us| - 1], k);
    }
  }

  /** The state `LastTouch` finds is the state of one of the updates. */
  lemma {:induction false} LastTouchFrom(us: seq<NodeState>, ids: set<string>)
    ensures LastTouch(us, ids).Some? ==> exists j :: 0 <= j < |us| && LastTouch(us, ids) == Some(us[j].state)
    decreases |us|
  {
    if us != [] && us[|us| - 1].id !in ids {
      var front := us[..|us| - 1];
      LastTouchFrom(front, ids);
      if LastTouch(front, ids).Some? {
        var j :| 0 <= j < |front| && LastTouch(front, ids) == Some(front[j].state);
        assert us[j] == front[j];
      }
    }
  }

  /** In the aliased entries, the last entry with an id carries its settled state. */
  lemma AliasedLast(batch: seq<NodeRecord>, i: int)
    requires 0 <= i < |batch| && LastOccurrence(batch, i)
    ensures LastTouch(AliasedStates(batch), {batch[i].id}) == Some(SettledState(batch, i))
  {
    LastTouchAt(AliasedStates(batch), i);
  }

  /** No aliased entry names an id the batch lacks. */
  lemma AliasedAbsent(batch: seq<NodeRecord>, k: string)
    requires k !in Ids(batch)
    ensures LastTouch(AliasedStates(batch), {k}) == None
  {
    var us := AliasedStates(batch);
    assert forall j :: 0 <= j < |us| ==> us[j].id != k by {
      forall j | 0 <= j < |us| ensures us[j].id != k {
        assert batch[j].id in Ids(batch);
      }
    }
    LastTouchAbsent(us, k);
  }

  /** Aliasing only moves states between entries: every aliased state is the
      state of some entry of the batch. */
  lemma AliasedStatesFromBatch(batch: seq<NodeRecord>, i: int)
    requires 0 <= i < |batch|
    ensures exists j :: 0 <= j < |batch| && AliasedStates(batch)[i].state == batch[j].state
  {
    if LastOccurrence(batch, i) {
      var us := StatesOf(batch[..i]);
      LastTouchFrom(us, {batch[i].id});
      if LastTouch(us, {batch[i].id}).Some? {
        var j :| 0 <= j < |us| && LastTouch(us, {batch[i].id}) == Some(us[j].state);
        assert us[j].state == batch[j].state;
      }
    }
  }

  lemma AddNodesStore(before: Store, batch: seq<NodeRecord>, stored: Store, after: Store)
    requires stored == StoreAll(before, batch)
    requires after.Keys == stored.Keys
    requires forall k :: k in stored ==>
      after[k] == stored[k].(state := LastTouch(AliasedStates(batch), {k}).GetOr(stored[k].state))
    ensures after.Keys == before.Keys + Ids(batch)
    ensures forall k :: k in before && k !in Ids(batch) ==> after[k] == before[k]
    ensures forall i :: 0 <= i < |batch| && LastOccurrence(batch, i) ==>
      after[batch[i].id] == batch[i].(state := SettledState(batch, i))
  {
    forall i | 0 <= i < |batch| && LastOccurrence(batch, i)
      ensures after[batch[i].id] == batch[i].(state := SettledState(batch, i))
    {
      AliasedLast(batch, i);
    }
    forall k | k in before && k !in Ids(batch)
      ensures after[k] == before[k]
    {
      AliasedAbsent(batch, k);
    }
  }

  lemma AddNodesVertices(before: View, batch: seq<NodeRecord>, added: View, after: View)
    requires added.vertices.Keys == before.vertices.Keys + Ids(batch)
    requires forall k :: k in before.vertices ==> added.vertices[k] == before.vertices[k]
    requires forall k :: k in added.vertices && k !in before.vertices ==> added.vertices[k] == {}
    requires after.vertices.Keys == added.vertices.Keys
    requires forall k :: k in added.vertices ==>
      Recoloured(added.vertices[k], after.vertices[k], LastTouch(AliasedStates(batch), {k}), Tokens(AliasedStates(batch)))
    ensures forall k :: k in before.vertices && k !in Ids(batch) ==> after.vertices[k] == before.vertices[k]
    ensures forall k :: k in before.vertices ==>
      Recoloured(before.vertices[k], after.vertices[k], LastTouch(AliasedStates(batch), {k}), Tokens(AliasedStates(batch)))
    ensures forall k :: k in after.vertices && k !in before.vertices ==>
      Recoloured({}, after.vertices[k], LastTouch(AliasedStates(batch), {k}), Tokens(AliasedStates(batch)))
    ensures forall i :: 0 <= i < |batch| && LastOccurrence(batch, i) ==>
      after.vertices[batch[i].id] * StateClasses == StateOnly(SettledState(batch, i))
  {
    forall i | 0 <= i < |batch| && LastOccurrence(batch, i)
      ensures after.vertices[batch[i].id] * StateClasses == StateOnly(SettledState(batch, i))
    {
      AliasedLast(batch, i);
      assert batch[i].id in Ids(batch);
    }
    forall k | k in before.vertices && k !in Ids(batch)
      ensures after.vertices[k] == before.vertices[k]
    {
      AliasedAbsent(batch, k);
    }
  }

  lemma AddNodesEdges(before: seq<Edge>, added: seq<Edge>, after: seq<Edge>, updates: seq<NodeState>)
    requires |before| <= |added|
    requires added[..|before|] == before
    requires forall i :: |before| <= i < |added| ==> added[i].classes == {}
    requires Ends(after) == Ends(added)
    requires forall i :: 0 <= i < |added| ==>
      Recoloured(added[i].classes, after[i].classes,
                 LastTouch(updates, {added[i].source, added[i].target}), Tokens(updates))
    ensures forall i :: 0 <= i < |before| ==>
      Recoloured(before[i].classes, after[i].classes,
                 LastTouch(updates, {before[i].source, before[i].target}), Tokens(updates))
    ensures forall i :: |before| <= i < |after| ==>
      Recoloured({}, after[i].classes,
                 LastTouch(updates, {after[i].source, after[i].target}), Tokens(updates))
  {
    forall i | 0 <= i < |after|
      ensures after[i].source == added[i].source && after[i].target == added[i].target
    {
      assert Ends(after)[i] == Ends(added)[i];
    }
    forall i | 0 <= i < |before|
      ensures added[i] == before[i]
    {
      assert added[..|before|][i] == added[i];
    }
  }

  lemma AddNodesView(before: View, batch: seq<NodeRecord>, added: View, after: View)
    requires added == AddElements(before, StagedVertices(before, batch), StagedEdges(before, batch))
    requires after.vertices.Keys == added.vertices.Keys
    requires Ends(after.edges) == Ends(added.edges)
    requires forall k :: k in added.vertices ==>
      Recoloured(added.vertices[k], after.vertices[k], LastTouch(AliasedStates(batch), {k}), Tokens(AliasedStates(batch)))
    requires forall i :: 0 <= i < |added.edges| ==>
      Recoloured(added.edges[i].classes, after.edges[i].classes,
                 LastTouch(AliasedStates(batch), {added.edges[i].source, added.edges[i].target}), Tokens(AliasedStates(batch)))
    ensures after.vertices.Keys == before.vertices.Keys + Ids(batch)
    ensures forall k :: k in before.vertices && k !in Ids(batch) ==> after.vertices[k] == before.vertices[k]
    ensures forall k :: k in before.vertices ==>
      Recoloured(before.vertices[k], after.vertices[k], LastTouch(AliasedStates(batch), {k}), Tokens(AliasedStates(batch)))
    ensures forall k :: k in after.vertices && k !in before.vertices ==>
      Recoloured({}, after.vertices[k], LastTouch(AliasedStates(batch), {k}), Tokens(AliasedStates(batch)))
    ensures forall i :: 0 <= i < |batch| && LastOccurrence(batch, i) ==>
      after.vertices[batch[i].id] * StateClasses == StateOnly(SettledState(batch, i))
    ensures Ends(after.edges) == Ends(before.edges) + StagedEdges(before, batch)
    ensures forall i :: 0 <= i < |before.edges| ==>
      Recoloured(before.edges[i].classes, after.edges[i].classes,
                 LastTouch(AliasedStates(batch), {before.edges[i].source, before.edges[i].target}), Tokens(AliasedStates(batch)))
    ensures forall i :: |before.edges| <= i < |after.edges| ==>
      Recoloured({}, after.edges[i].classes,
                 LastTouch(AliasedStates(batch), {after.edges[i].source, after.edges[i].target}), Tokens(AliasedStates(batch)))
  {
    assert added.vertices.Keys == before.vertices.Keys + Ids(batch);
    AddNodesVertices(before, batch, added, after);
    AddNodesEdges(before.edges, added.edges, after.edges, AliasedStates(batch));
  }

  /** `addNodes(nodes)`: store every entry (the last one with an id is the
      object the store keeps), stage and add the vertices and dependency edges
      of the entries the view lacked, then run `updateNodes` over the same
      entries. Because the store holds the batch's own objects, an earlier entry
      with a repeated id writes its state into the last one before the loop
      reaches it, so a repeated id settles on the state of its second-to-last
      entry. Every batch id ends up in the store and in the view; store entries
      and vertices that are not in the batch are unchanged; every element, old
      or staged, carries the classes the aliased updates leave on it; the
      edges before the call are kept in order and the staged ones follow. */
  function AddNodes(g: GraphState, batch: seq<NodeRecord>): (r: GraphState)
    ensures r.nodes.Keys == g.nodes.Keys + Ids(batch)
    ensures forall k :: k in g.nodes && k !in Ids(batch) ==> r.nodes[k] == g.nodes[k]
    ensures forall i :: 0 <= i < |batch| && LastOccurrence(batch, i) ==>
      r.nodes[batch[i].id] == batch[i].(state := SettledState(batch, i))
    ensures r.view.vertices.Keys == g.view.vertices.Keys + Ids(batch)
    ensures forall k :: k in g.view.vertices && k !in Ids(batch) ==> r.view.vertices[k] == g.view.vertices[k]
    ensures forall k :: k in g.view.vertices ==>
      Recoloured(g.view.vertices[k], r.view.vertices[k], LastTouch(AliasedStates(batch), {k}), Tokens(AliasedStates(batch)))
    ensures forall k :: k in r.view.vertices && k !in g.view.vertices ==>
      Recoloured({}, r.view.vertices[k], LastTouch(AliasedStates(batch), {k}), Tokens(AliasedStates(batch)))
    ensures forall i :: 0 <= i < |batch| && LastOccurrence(batch, i) ==>
      r.view.vertices[batch[i].id] * StateClasses == StateOnly(SettledState(batch, i))
    ensures Ends(r.view.edges) == Ends(g.view.edges) + StagedEdges(g.view, batch)
    ensures forall i :: 0 <= i < |g.view.edges| ==>
      Recoloured(g.view.edges[i].classes, r.view.edges[i].classes,
                 LastTouch(AliasedStates(batch), {g.view.edges[i].source, g.view.edges[i].target}), Tokens(AliasedStates(batch)))
    ensures forall i :: |g.view.edges| <= i < |r.view.edges| ==>
      Recoloured({}, r.view.edges[i].classes,
                 LastTouch(AliasedStates(batch), {r.view.edges[i].source, r.view.edges[i].target}), Tokens(AliasedStates(batch)))
  {
    var nodes := StoreAll(g.nodes, batch);
    var view := AddElements(g.view, StagedVertices(g.view, batch), StagedEdges(g.view, batch));
    var updates := AliasedStates(batch);
    assert AllKnown(nodes, updates);
    var r := UpdateNodes(GraphState(nodes, view), updates);
    AddNodesStore(g.nodes, batch, nodes, r.nodes);
    AddNodesView(g.view, batch, view, r.view);
    r
  }

  // ---------------------------------------------------------------------------
  // Repeated delivery

  /** Every state value of an update batch is absent or one of the three state classes. */
  predicate StatesAreClasses(updates: seq<NodeState>) {
    forall i :: 0 <= i < |updates| ==> updates[i].state.None? || updates[i].state.value in StateClasses
  }

  lemma RecolouredTwice(before: set<string>, mid: set<string>, after: set<string>,
                        last: Option<Option<string>>, tokens: set<string>)
    requires tokens <= StateClasses
    requires Recoloured(before, mid, last, tokens)
    requires Recoloured(mid, after, last, tokens)
    ensures after == mid
  {
    if last.Some? {
      forall c
        ensures c in after <==> c in mid
      {
        if c in StateClasses {
          assert c in after <==> c in after * StateClasses;
          assert c in mid <==> c in mid * StateClasses;
        }
      }
    }
  }

  /** Recolouring vertices a second time with the same state-class updates
      leaves them as the first time did. */
  lemma VerticesSettle(before: map<string, set<string>>, mid: map<string, set<string>>,
                       after: map<string, set<string>>, updates: seq<NodeState>)
    requires Tokens(updates) <= StateClasses
    requires mid.Keys == before.Keys && after.Keys == mid.Keys
    requires forall k :: k in before ==> Recoloured(before[k], mid[k], LastTouch(updates, {k}), Tokens(updates))
    requires forall k :: k in mid ==> Recoloured(mid[k], after[k], LastTouch(updates, {k}), Tokens(updates))
    ensures after == mid
  {
    forall k | k in mid
      ensures after[k] == mid[k]
    {
      RecolouredTwice(before[k], mid[k], after[k], LastTouch(updates, {k}), Tokens(updates));
    }
  }

  /** Recolouring edges a second time with the same state-class updates
      leaves them as the first time did. */
  lemma EdgesSettle(before: seq<Edge>, mid: seq<Edge>, after: seq<Edge>, updates: seq<NodeState>)
    requires Tokens(updates) <= StateClasses
    requires Ends(mid) == Ends(before) && Ends(after) == Ends(mid)
    requires forall i :: 0 <= i < |before| ==>
      Recoloured(before[i].classes, mid[i].classes, LastTouch(updates, {before[i].source, before[i].target}), Tokens(updates))
    requires forall i :: 0 <= i < |mid| ==>
      Recoloured(mid[i].classes, after[i].classes, LastTouch(updates, {mid[i].source, mid[i].target}), Tokens(updates))
    ensures after == mid
  {
    forall i | 0 <= i < |mid|
      ensures after[i] == mid[i]
    {
      var e := before[i];
      assert Ends(mid)[i] == Ends(before)[i];
      assert Ends(after)[i] == Ends(mid)[i];
      RecolouredTwice(e.classes, mid[i].classes, after[i].classes,
                      LastTouch(updates, {e.source, e.target}), Tokens(updates));
    }
  }

  /** Re-applying an update batch to a view it has already been applied to
      changes nothing, provided its states are the wire protocol's three state
      values. The view's outcome does not depend on the store. */
  lemma UpdateViewSettles(g: GraphState, h: GraphState, updates: seq<NodeState>)
    requires AllKnown(g.nodes, updates) && AllKnown(h.nodes, updates)
    requires StatesAreClasses(updates)
    requires h.view == UpdateNodes(g, updates).view
    ensures UpdateNodes(h, updates).view == h.view
  {
    var y := UpdateNodes(h, updates);
    assert Tokens(updates) <= StateClasses;
    VerticesSettle(g.view.vertices, h.view.vertices, y.view.vertices, updates);
    EdgesSettle(g.view.edges, h.view.edges, y.view.edges, updates);
  }

  /** Delivering the same update batch twice has the effect of delivering it
      once, provided its states are the wire protocol's three state values. */
  lemma UpdateNodesIdempotent(g: GraphState, updates: seq<NodeState>)
    requires AllKnown(g.nodes, updates)
    requires StatesAreClasses(updates)
    ensures UpdateNodes(UpdateNodes(g, updates), updates) == UpdateNodes(g, updates)
  {
    var x := UpdateNodes(g, updates);
    UpdateViewSettles(g, x, updates);
    assert UpdateNodes(x, updates).nodes == x.nodes;
  }

  /** Once every batch id is a vertex, staging finds nothing to add. */
  lemma NothingStaged(view: View, batch: seq<NodeRecord>)
    requires Ids(batch) <= view.vertices.Keys
    ensures AddElements(view, StagedVertices(view, batch), StagedEdges(view, batch)) == view
  {
    var staged := StagedVertices(view, batch);
    var r := AddElements(view, staged, StagedEdges(view, batch));
    assert (set x | x in staged) == {};
    assert r.vertices == view.vertices;
    assert r.edges == r.edges[..|view.edges|];
  }

  /** The aliased states of a batch whose states are the three state values
      are state values too. */
  lemma AliasedStatesAreClasses(batch: seq<NodeRecord>)
    requires StatesAreClasses(StatesOf(batch))
    ensures StatesAreClasses(AliasedStates(batch))
  {
    var updates := AliasedStates(batch);
    forall i | 0 <= i < |updates|
      ensures updates[i].state.None? || updates[i].state.value in StateClasses
    {
      AliasedStatesFromBatch(batch, i);
      var j :| 0 <= j < |batch| && updates[i].state == batch[j].state;
      assert StatesOf(batch)[j].state == batch[j].state;
    }
  }

  /** `addNodes` is `updateNodes` with the aliased states, run after the
      store loop and the batched add. */
  lemma AddNodesUnfold(g: GraphState, batch: seq<NodeRecord>)
    ensures AllKnown(StoreAll(g.nodes, batch), AliasedStates(batch))
    ensures AddNodes(g, batch) ==
      UpdateNodes(GraphState(StoreAll(g.nodes, batch),
                             AddElements(g.view, StagedVertices(g.view, batch), StagedEdges(g.view, batch))),
                  AliasedStates(batch))
  {
    assert AllKnown(StoreAll(g.nodes, batch), AliasedStates(batch));
  }

  /** Two stores that agree outside the batch and hold the same settled entry
      for every batch id are the same store. */
  lemma SettledStoresAgree(x: Store, y: Store, batch: seq<NodeRecord>)
    requires x.Keys == y.Keys && Ids(batch) <= x.Keys
    requires forall k :: k in x && k !in Ids(batch) ==> y[k] == x[k]
    requires forall i :: 0 <= i < |batch| && LastOccurrence(batch, i) ==>
      x[batch[i].id] == batch[i].(state := SettledState(batch, i))
    requires forall i :: 0 <= i < |batch| && LastOccurrence(batch, i) ==>
      y[batch[i].id] == batch[i].(state := SettledState(batch, i))
    ensures y == x
  {
    forall k | k in x
      ensures y[k] == x[k]
    {
      if k in Ids(batch) {
        HasLastOccurrence(batch, k);
      }
    }
  }

  /** Delivering the same "add" batch twice has the effect of delivering it
      once: the second delivery stages no vertex and no edge, stores the
      batch's entries again and re-applies the same aliased states, which
      settle every entry where the first delivery left it. */
  lemma AddNodesIdempotent(g: GraphState, batch: seq<NodeRecord>)
    requires StatesAreClasses(StatesOf(batch))
    ensures AddNodes(AddNodes(g, batch), batch) == AddNodes(g, batch)
  {
    var updates := AliasedStates(batch);
    AliasedStatesAreClasses(batch);
    var first := GraphState(StoreAll(g.nodes, batch),
                            AddElements(g.view, StagedVertices(g.view, batch), StagedEdges(g.view, batch)));
    AddNodesUnfold(g, batch);
    var x := AddNodes(g, batch);
    AddNodesUnfold(x, batch);
    NothingStaged(x.view, batch);
    var second := GraphState(StoreAll(x.nodes, batch), x.view);
    var y := AddNodes(x, batch);
    UpdateViewSettles(first, second, updates);
    SettledStoresAgree(x.nodes, y.nodes, batch);
    assert y == GraphState(x.nodes, x.view);
  }

  /** A second delivery of a batch adds no vertex and no edge, whatever the
      states it carries. */
  lemma AddNodesAddsNothingTwice(g: GraphState, batch: seq<NodeRecord>)
    ensures AddNodes(AddNodes(g, batch), batch).view.vertices.Keys == AddNodes(g, batch).view.vertices.Keys
    ensures Ends(AddNodes(AddNodes(g, batch), batch).view.edges) == Ends(AddNodes(g, batch).view.edges)
  {
    var x := AddNodes(g, batch);
    assert Ids(batch) <= x.view.vertices.Keys;
    var y := AddNodes(x, batch);
    assert StagedEdges(x.view, batch) == [];
    assert Ends(y.view.edges) == Ends(x.view.edges) + [];
  }

  /** Each dependency of an entry whose vertex was absent becomes an edge,
      even when its target is not a known node. */
  lemma AddNodesEdgesComplete(g: GraphState, batch: seq<NodeRecord>, i: int, t: string)
    requires 0 <= i < |batch| && batch[i].id !in g.view.vertices && t in batch[i].depends
    ensures (batch[i].id, t) in Ends(AddNodes(g, batch).view.edges)
  {
    var staged := StagedEdges(g.view, batch);
    assert (batch[i].id, t) in staged;
    InSuffix(Ends(g.view.edges), staged, Ends(AddNodes(g, batch).view.edges));
  }

  lemma InSuffix(front: seq<(string, string)>, back: seq<(string, string)>, whole: seq<(string, string)>)
    requires whole == front + back
    ensures forall e :: e in back ==> e in whole
  {
  }

  /** The dependencies of an entry whose vertex already exists are not staged:
      re-announcing a known node with a new dependency adds no edge. */
  lemma KnownNodeNewDependencyIgnored()
    ensures var g := AddNodes(EmptyGraph, [NodeRecord("api", [], None)]);
            Ends(AddNodes(g, [NodeRecord("api", ["db"], None)]).view.edges) == []
  {
    var first := [NodeRecord("api", [], None)];
    var again := [NodeRecord("api", ["db"], None)];
    assert first[0].id == "api" && Ids(first) == {"api"};
    assert again[0].id == "api" && Ids(again) == {"api"};
    var g := AddNodes(EmptyGraph, first);
    assert DependencyEdges(first[0]) == [];
    assert StagedEdges(EmptyGraph.view, first) == [];
    assert Ends(g.view.edges) == [];
    assert "api" in g.view.vertices;
    var r := AddNodes(g, again);
    assert StagedEdges(g.view, again) == [];
    assert Ends(r.view.edges) == Ends(g.view.edges) + [];
  }

  /** Two entries with the same new id in one batch are both staged, because
      the view is consulted before the batched add: their edges are added
      twice while the vertex is added once. */
  lemma DuplicateIdStagedTwice(empty: GraphState, batch: seq<NodeRecord>)
    requires empty == EmptyGraph && batch == [NodeRecord("api", ["db"], None), NodeRecord("api", ["db"], None)]
    ensures var r := AddNodes(empty, batch);
            && r.view.vertices.Keys == {"api"}
            && Ends(r.view.edges) == [("api", "db"), ("api", "db")]
  {
    DuplicateStaging(batch[0]);
    AddNodesKeys(empty, batch, {"api"});
  }

  /** The ids `addNodes` leaves in the store and the view, named. */
  lemma AddNodesKeys(g: GraphState, batch: seq<NodeRecord>, ids: set<string>)
    requires g == EmptyGraph && Ids(batch) == ids
    ensures AddNodes(g, batch).nodes.Keys == ids
    ensures AddNodes(g, batch).view.vertices.Keys == ids
    ensures Ends(AddNodes(g, batch).view.edges) == StagedEdges(g.view, batch)
  {
    assert Ends(g.view.edges) == [];
  }

  lemma DuplicateStaging(n: NodeRecord)
    requires n == NodeRecord("api", ["db"], None)
    ensures Ids([n, n]) == {"api"}
    ensures StagedEdges(EmptyGraph.view, [n, n]) == [("api", "db"), ("api", "db")]
  {
    var batch := [n, n];
    assert batch[0].id == "api";
    assert DependencyEdges(n) == [("api", "db")];
    assert batch[1..] == [n];
    assert StagedEdges(EmptyGraph.view, [n]) == [("api", "db")];
  }

  /** A repeated id with different states settles on the state of its earlier
      entry: the first entry's "stopped" is written into the object the store
      holds, which is the second entry, before the loop reaches it, so its
      "running" is never applied. */
  lemma RepeatedIdKeepsEarlierState(empty: GraphState, batch: seq<NodeRecord>)
    requires empty == EmptyGraph
    requires batch == [NodeRecord("a", [], Some("stopped")), NodeRecord("a", [], Some("running"))]
    ensures var r := AddNodes(empty, batch);
            && "a" in r.nodes && r.nodes["a"].state == Some("stopped")
            && "a" in r.view.vertices && r.view.vertices["a"] * StateClasses == {"stopped"}
  {
    assert batch[1].id == "a" && LastOccurrence(batch, 1);
    assert batch[..1] == [batch[0]];
    assert StatesOf([batch[0]]) == [NodeState("a", Some("stopped"))];
    assert SettledState(batch, 1) == Some("stopped");
    assert "a" in Ids(batch);
  }
}
