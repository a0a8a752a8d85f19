/** The dashboard controller: the three callbacks it registers, how a decoded
    inbound frame reaches them, and what each does to the session — the
    callback table, the node store and the view. */
module Controller {
  import opened Wrappers
  import opened Json
  import Registry
  import opened Graph
  import Commands

  /** The callbacks the controller registers. */
  datatype Handler = AddNodesHandler | UpdateNodesHandler | LogForNodeHandler

  datatype Session = Session(callbacks: map<string, Handler>, graph: GraphState)

  /** The session once the controller has registered its callbacks for
      "add", "update" and "log", before any frame arrives. */
  function Start(): (r: Session)
    ensures r.callbacks == map["add" := AddNodesHandler, "update" := UpdateNodesHandler, "log" := LogForNodeHandler]
    ensures r.graph == EmptyGraph
  {
    var none: map<string, Handler> := map[];
    var add := Registry.Register(none, Registry.Data(JString("add")), Registry.Function(AddNodesHandler));
    var update := Registry.Register(add.table, Registry.Data(JString("update")), Registry.Function(UpdateNodesHandler));
    var log := Registry.Register(update.table, Registry.Data(JString("log")), Registry.Function(LogForNodeHandler));
    Session(log.table, EmptyGraph)
  }

  // ---------------------------------------------------------------------------
  // Payload decoding

  /** Decodes every element of an array, failing if any element fails. */
  function DecodeEach<T>(items: seq<Json>, decode: Json -> Option<T>): (r: Option<seq<T>>)
    ensures r.Some? <==> forall i :: 0 <= i < |items| ==> decode(items[i]).Some?
    ensures r.Some? ==> |r.value| == |items| && forall i :: 0 <= i < |items| ==> r.value[i] == decode(items[i]).value
  {
    if items == [] then
      Some([])
    else
      var rest := DecodeEach(items[1..], decode);
      assert forall i :: 1 <= i < |items| ==> items[1..][i - 1] == items[i];
      match decode(items[0])
      case None => None
      case Some(x) =>
        match rest
        case None => None
        case Some(xs) => Some([x] + xs)
  }

  function DecodeString(j: Json): (r: Option<string>) {
    if j.JString? then Some(j.s) else None
  }

  /** The optional `state` member: absent reads as `undefined`, a string is kept,
      anything else is not a state. */
  function DecodeState(fields: map<string, Json>): (r: Option<Option<string>>) {
    if "state" !in fields then Some(None)
    else if fields["state"].JString? then Some(Some(fields["state"].s))
    else None
  }

  /** An "add" entry `{id, depends, state?}`. */
  function DecodeRecord(j: Json): (r: Option<NodeRecord>) {
    if j.JObject? && "id" in j.fields && j.fields["id"].JString?
       && "depends" in j.fields && j.fields["depends"].JArray?
    then
      match (DecodeEach(j.fields["depends"].items, DecodeString), DecodeState(j.fields))
      case (Some(depends), Some(state)) => Some(NodeRecord(j.fields["id"].s, depends, state))
      case _ => None
    else
      None
  }

  /** An "update" entry `{id, state?}`. */
  function DecodeUpdate(j: Json): (r: Option<NodeState>) {
    if j.JObject? && "id" in j.fields && j.fields["id"].JString? then
      match DecodeState(j.fields)
      case Some(state) => Some(NodeState(j.fields["id"].s, state))
      case None => None
    else
      None
  }

  /** A batch payload: an array of entries. */
  function DecodeBatch<T>(payload: Option<Json>, decode: Json -> Option<T>): (r: Option<seq<T>>) {
    if payload.Some? && payload.value.JArray? then DecodeEach(payload.value.items, decode) else None
  }

  // ---------------------------------------------------------------------------
  // Frame handling

  /** What a frame did when it did not fault. */
  datatype Effect =
    | MalformedFrame(reason: Registry.Malformation)
    | UnknownEvent(eventName: string)
    | Reconciled
    | LogEntry(nodeId: Option<Json>, line: Option<Json>)   // the `logEntry` broadcast

  /** Why a callback throws. */
  datatype Fault =
    | BadPayload        // the payload is not a batch of well-formed entries
    | UnknownNode       // an update names a node the store does not hold
    | NoLogEntry        // the log payload is `undefined` or `null`

  /** The session after one frame, or the fault a callback throws. The state a
      throwing callback leaves behind is not described. */
  datatype Outcome = Continue(session: Session, effect: Effect) | Failed(fault: Fault)

  /** Runs one registered callback on a frame's payload. */
  function Invoke(s: Session, handler: Handler, payload: Option<Json>): Outcome {
    match handler
    case AddNodesHandler => InvokeAdd(s, payload)
    case UpdateNodesHandler => InvokeUpdate(s, payload)
    case LogForNodeHandler => InvokeLog(s, payload)
  }

  /** `addNodes` on the payload. */
  function InvokeAdd(s: Session, payload: Option<Json>): Outcome {
    match DecodeBatch(payload, DecodeRecord)
    case None => Failed(BadPayload)
    case Some(batch) => Continue(s.(graph := AddNodes(s.graph, batch)), Reconciled)
  }

  /** `updateNodes` on the payload; the store read throws for an unknown id. */
  function InvokeUpdate(s: Session, payload: Option<Json>): Outcome {
    match DecodeBatch(payload, DecodeUpdate)
    case None => Failed(BadPayload)
    case Some(updates) =>
      if AllKnown(s.graph.nodes, updates) then Continue(s.(graph := UpdateNodes(s.graph, updates)), Reconciled)
      else Failed(UnknownNode)
  }

  /** `logForNode`: broadcast the entry's `nodeId` and `line`; reading them off
      `undefined` or `null` throws, off any other non-object reads `undefined`. */
  function InvokeLog(s: Session, payload: Option<Json>): (r: Outcome)
    ensures r.Failed? <==> payload.None? || payload.value.JNull?
    ensures r.Failed? ==> r.fault == NoLogEntry
    ensures r.Continue? ==> r.session == s && r.effect.LogEntry?
    ensures payload.Some? && payload.value.JObject? ==>
      && r.Continue? && r.effect.LogEntry?
      && r.effect.nodeId == (if "nodeId" in payload.value.fields then Some(payload.value.fields["nodeId"]) else None)
      && r.effect.line == (if "line" in payload.value.fields then Some(payload.value.fields["line"]) else None)
    ensures payload.Some? && !payload.value.JNull? && !payload.value.JObject? ==> r == Continue(s, LogEntry(None, None))
  {
    if payload.None? || payload.value.JNull? then Failed(NoLogEntry)
    else if payload.value.JObject? then
      Continue(s, LogEntry(Field(payload.value.fields, "nodeId"), Field(payload.value.fields, "line")))
    else
      Continue(s, LogEntry(None, None))
  }

  /** One inbound frame, already decoded from JSON. Malformed frames and frames
      for unregistered names change nothing; the callback table never changes;
      a log entry leaves the graph alone; a callback runs only for a
      registered name. */
  function HandleFrame(s: Session, frame: Json): (r: Outcome)
    ensures Registry.EventName(frame).None? ==> r.Continue? && r.session == s && r.effect.MalformedFrame?
    ensures Registry.EventName(frame).Some? && Registry.EventName(frame).value !in s.callbacks ==>
      r == Continue(s, UnknownEvent(Registry.EventName(frame).value))
    ensures r.Continue? ==> r.session.callbacks == s.callbacks
    ensures r.Continue? && r.effect.LogEntry? ==> r.session == s
    ensures r.Failed? ==> Registry.EventName(frame).Some? && Registry.EventName(frame).value in s.callbacks
  {
    match Registry.DispatchFrame(s.callbacks, frame)
    case Malformed(reason) => Continue(s, MalformedFrame(reason))
    case Unknown(eventName) => Continue(s, UnknownEvent(eventName))
    case Invoked(handler, payload) => Invoke(s, handler, payload)
  }

  // ---------------------------------------------------------------------------
  // Properties

  /** The consistency the controller keeps: the store and the view know the
      same node ids, each record sits under its own id, and every edge leaves a
      known vertex (its target may not be known yet). */
  ghost predicate Consistent(g: GraphState) {
    && g.nodes.Keys == g.view.vertices.Keys
    && (forall k :: k in g.nodes ==> g.nodes[k].id == k)
    && (forall i :: 0 <= i < |g.view.edges| ==> g.view.edges[i].source in g.view.vertices)
  }

  lemma StartConsistent()
    ensures Consistent(Start().graph)
  {
  }

  lemma AddNodesConsistent(g: GraphState, batch: seq<NodeRecord>)
    requires Consistent(g)
    ensures Consistent(AddNodes(g, batch))
  {
    var r := AddNodes(g, batch);
    forall k | k in r.nodes
      ensures r.nodes[k].id == k
    {
      if k in Ids(batch) {
        HasLastOccurrence(batch, k);
      }
    }
    var staged := StagedEdges(g.view, batch);
    forall i | 0 <= i < |r.view.edges|
      ensures r.view.edges[i].source in r.view.vertices
    {
      if i < |g.view.edges| {
        assert Ends(r.view.edges)[i] == Ends(g.view.edges)[i];
      } else {
        assert Ends(r.view.edges)[i] == staged[i - |g.view.edges|];
        assert staged[i - |g.view.edges|] in staged;
      }
    }
  }

  lemma UpdateNodesConsistent(g: GraphState, updates: seq<NodeState>)
    requires Consistent(g) && AllKnown(g.nodes, updates)
    ensures Consistent(UpdateNodes(g, updates))
  {
    var r := UpdateNodes(g, updates);
    forall i | 0 <= i < |r.view.edges|
      ensures r.view.edges[i].source in r.view.vertices
    {
      assert Ends(r.view.edges)[i] == Ends(g.view.edges)[i];
    }
  }

  /** Every frame that does not fault keeps the session consistent. */
  lemma HandleFrameConsistent(s: Session, frame: Json)
    requires Consistent(s.graph)
    ensures HandleFrame(s, frame).Continue? ==> Consistent(HandleFrame(s, frame).session.graph)
  {
    var d := Registry.DispatchFrame(s.callbacks, frame);
    if d.Invoked? {
      match d.handler
      case AddNodesHandler =>
        var batch := DecodeBatch(d.payload, DecodeRecord);
        if batch.Some? { AddNodesConsistent(s.graph, batch.value); }
      case UpdateNodesHandler =>
        var updates := DecodeBatch(d.payload, DecodeUpdate);
        if updates.Some? && AllKnown(s.graph.nodes, updates.value) {
          UpdateNodesConsistent(s.graph, updates.value);
        }
      case LogForNodeHandler =>
    }
  }

  /** An update frame faults exactly when one of its entries names a node the
      store does not hold. */
  lemma UpdateFaultsOnUnknownNode(s: Session, updates: seq<Json>)
    requires "update" in s.callbacks && s.callbacks["update"] == UpdateNodesHandler
    requires DecodeEach(updates, DecodeUpdate).Some?
    ensures var r := HandleFrame(s, JArray([JString("update"), JArray(updates)]));
            r.Failed? <==> exists i :: 0 <= i < |updates| && DecodeUpdate(updates[i]).value.id !in s.graph.nodes
  {
    var frame := JArray([JString("update"), JArray(updates)]);
    var payload := Some(JArray(updates));
    assert Registry.DispatchFrame(s.callbacks, frame) == Registry.Invoked(UpdateNodesHandler, payload);
    assert HandleFrame(s, frame) == InvokeUpdate(s, payload);
    var us := DecodeEach(updates, DecodeUpdate).value;
    assert DecodeBatch(payload, DecodeUpdate) == Some(us);
    assert forall i :: 0 <= i < |updates| ==> us[i] == DecodeUpdate(updates[i]).value;
    assert InvokeUpdate(s, payload).Failed? <==> !AllKnown(s.graph.nodes, us);
  }

  /** The command frames the controller sends are dropped as unknown if they
      ever come back in: no command name is a registered event. */
  lemma EchoedCommandIsUnknown(c: Commands.Command, nodeId: string)
    ensures HandleFrame(Start(), Commands.Encode(c, nodeId)) == Continue(Start(), UnknownEvent(Commands.Name(c)))
  {
  }

  /** A decoded "add" entry with no state, as the server announces nodes. */
  function Announce(id: string, depends: seq<string>): Json {
    JObject(map["id" := JString(id), "depends" := JArray(seq(|depends|, i requires 0 <= i < |depends| => JString(depends[i])))])
  }

  const ScenarioAdd := JArray([JString("add"), JArray([Announce("db", []), Announce("api", ["db"])])])
  const ScenarioUpdate := JArray([JString("update"), JArray([JObject(map["id" := JString("api"), "state" := JString("running")])])])
  const ScenarioBatch := [NodeRecord("db", [], None), NodeRecord("api", ["db"], None)]

  lemma ScenarioAddDispatch(s: Session)
    requires "add" in s.callbacks && s.callbacks["add"] == AddNodesHandler
    ensures HandleFrame(s, ScenarioAdd) == Continue(s.(graph := AddNodes(s.graph, ScenarioBatch)), Reconciled)
  {
    var addPayload := [Announce("db", []), Announce("api", ["db"])];
    ScenarioPayload(addPayload);
    assert Registry.DispatchFrame(s.callbacks, ScenarioAdd) == Registry.Invoked(AddNodesHandler, Some(JArray(addPayload)));
  }

  lemma ScenarioPayload(addPayload: seq<Json>)
    requires addPayload == [Announce("db", []), Announce("api", ["db"])]
    ensures DecodeBatch(Some(JArray(addPayload)), DecodeRecord) == Some(ScenarioBatch)
  {
    ScenarioRecord("db", []);
    ScenarioRecord("api", ["db"]);
    assert DecodeEach(addPayload, DecodeRecord).value == ScenarioBatch;
  }

  lemma ScenarioRecord(id: string, depends: seq<string>)
    ensures DecodeRecord(Announce(id, depends)) == Some(NodeRecord(id, depends, None))
  {
    var items := Announce(id, depends).fields["depends"].items;
    assert forall i :: 0 <= i < |items| ==> DecodeString(items[i]) == Some(depends[i]);
    assert DecodeEach(items, DecodeString).value == depends;
  }

  lemma ScenarioAddGraph(empty: GraphState, batch: seq<NodeRecord>)
    requires empty == EmptyGraph && batch == ScenarioBatch
    ensures var g := AddNodes(empty, batch);
      && g.nodes.Keys == {"db", "api"}
      && g.view.vertices.Keys == {"db", "api"}
      && Ends(g.view.edges) == [("api", "db")]
      && g.view.vertices["db"] * StateClasses == {}
  {
    ScenarioAddKeys(empty, batch);
    ScenarioAddEdges(empty, batch);
    ScenarioAddNoState(empty, batch);
  }

  lemma ScenarioAddKeys(empty: GraphState, batch: seq<NodeRecord>)
    requires empty == EmptyGraph && batch == ScenarioBatch
    ensures AddNodes(empty, batch).nodes.Keys == {"db", "api"}
    ensures AddNodes(empty, batch).view.vertices.Keys == {"db", "api"}
  {
    ScenarioStaging();
    AddNodesKeys(empty, batch, {"db", "api"});
  }

  lemma ScenarioAddEdges(empty: GraphState, batch: seq<NodeRecord>)
    requires empty == EmptyGraph && batch == ScenarioBatch
    ensures Ends(AddNodes(empty, batch).view.edges) == [("api", "db")]
  {
    ScenarioStaging();
  }

  lemma ScenarioAddNoState(empty: GraphState, batch: seq<NodeRecord>)
    requires empty == EmptyGraph && batch == ScenarioBatch
    ensures AddNodes(empty, batch).view.vertices["db"] * StateClasses == {}
  {
    ScenarioStaging();
    assert LastOccurrence(batch, 0) by {
      assert batch[1].id == "api";
    }
  }

  lemma ScenarioStaging()
    ensures ScenarioBatch[0].id == "db"
    ensures Ids(ScenarioBatch) == {"db", "api"}
    ensures StagedEdges(EmptyGraph.view, ScenarioBatch) == [("api", "db")]
  {
    var db := NodeRecord("db", [], None);
    var api := NodeRecord("api", ["db"], None);
    var batch := ScenarioBatch;
    assert batch[0].id == "db" && batch[1].id == "api";
    assert StagedEdges(EmptyGraph.view, [api]) == [("api", "db")];
    assert batch[1..] == [api];
    assert DependencyEdges(db) == [];
  }

  const ScenarioUpdates := [NodeState("api", Some("running"))]

  lemma ScenarioUpdateDispatch(s: Session)
    requires "update" in s.callbacks && s.callbacks["update"] == UpdateNodesHandler
    requires "api" in s.graph.nodes
    ensures HandleFrame(s, ScenarioUpdate) == Continue(s.(graph := UpdateNodes(s.graph, ScenarioUpdates)), Reconciled)
  {
    var entry := JObject(map["id" := JString("api"), "state" := JString("running")]);
    assert DecodeUpdate(entry) == Some(ScenarioUpdates[0]);
    assert DecodeEach([entry], DecodeUpdate).value == ScenarioUpdates;
    assert Registry.DispatchFrame(s.callbacks, ScenarioUpdate) == Registry.Invoked(UpdateNodesHandler, Some(JArray([entry])));
  }

  lemma ScenarioUpdateGraph(g: GraphState, updates: seq<NodeState>)
    requires updates == ScenarioUpdates
    requires g.nodes.Keys == {"db", "api"}
    requires g.view.vertices.Keys == {"db", "api"}
    requires Ends(g.view.edges) == [("api", "db")]
    requires g.view.vertices["db"] * StateClasses == {}
    ensures AllKnown(g.nodes, updates)
    ensures var h := UpdateNodes(g, updates);
      && h.nodes["api"].state == Some("running")
      && h.view.vertices["api"] * StateClasses == {"running"}
      && h.view.edges[0].classes * StateClasses == {"running"}
      && h.view.vertices["db"] * StateClasses == {}
  {
    assert AllKnown(g.nodes, updates);
    var update := updates[0];
    assert LastTouch(updates, {"api"}) == Some(Some("running"));
    assert LastTouch(updates, {"db"}) == None;
    assert g.view.edges[0].source == "api" by { assert Ends(g.view.edges)[0] == ("api", "db"); }
    assert LastTouch(updates, {g.view.edges[0].source, g.view.edges[0].target}) == Some(Some("running"));
  }

  /** Two nodes announced, then one of them reported running: the store and
      the view hold both, the one dependency edge exists, and the running class
      lands on the reported node and its edge only. The announcement carries no
      state, and an absent state adds no class, so the other node has no state
      class at all. */
  lemma DashboardScenario(start: Session)
    requires start == Session(Start().callbacks, EmptyGraph)
    ensures var added := HandleFrame(start, ScenarioAdd);
      && added.Continue?
      && added.session.graph.nodes.Keys == {"db", "api"}
      && added.session.graph.view.vertices.Keys == {"db", "api"}
      && Ends(added.session.graph.view.edges) == [("api", "db")]
      && var updated := HandleFrame(added.session, ScenarioUpdate);
      && updated.Continue?
      && "api" in updated.session.graph.nodes
      && updated.session.graph.nodes["api"].state == Some("running")
      && "api" in updated.session.graph.view.vertices && "db" in updated.session.graph.view.vertices
      && updated.session.graph.view.vertices["api"] * StateClasses == {"running"}
      && updated.session.graph.view.vertices["db"] * StateClasses == {}
      && |updated.session.graph.view.edges| == 1
      && updated.session.graph.view.edges[0].classes * StateClasses == {"running"}
  {
    ScenarioAddFrame(start);
    var added := HandleFrame(start, ScenarioAdd).session;
    ScenarioUpdateDispatch(added);
    ScenarioUpdateGraph(added.graph, ScenarioUpdates);
  }

  lemma ScenarioAddFrame(start: Session)
    requires start == Session(Start().callbacks, EmptyGraph)
    ensures var added := HandleFrame(start, ScenarioAdd);
      && added.Continue?
      && added.session.callbacks == start.callbacks
      && added.session.graph.nodes.Keys == {"db", "api"}
      && added.session.graph.view.vertices.Keys == {"db", "api"}
      && Ends(added.session.graph.view.edges) == [("api", "db")]
      && added.session.graph.view.vertices["db"] * StateClasses == {}
  {
    ScenarioAddDispatch(start);
    ScenarioAddGraph(EmptyGraph, ScenarioBatch);
  }
}
