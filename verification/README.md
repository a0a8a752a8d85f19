# digraph-web client synchronisation, in Dafny

The dashboard in `app/assets/js/main.js` shows a directed graph of managed
nodes, each with a lifecycle state (unknown, stopped or running). It keeps
that graph in step with a server over one websocket. This project models the
client-side synchronisation logic of that file as pure functions over
immutable values. The websocket, Angular and Cytoscape layers are left out.

- `Wrappers`: `Option`. `None` stands for JavaScript's `undefined`.
- `Json`: decoded JSON values, as `JSON.parse` returns them.
- `Registry`: the websocket factory's callback table.
  - `Register` models `registerCallbackForEvent`: it rejects a non-string
    name and a non-function callback, and it warns when it overwrites.
  - `DispatchFrame` models `onmessage`. The result is `Malformed`,
    `Unknown` or `Invoked(handler, data[1])`.
- `Graph`: the node store `$scope.nodes` and the rendered view, with
  `addNodes`, `setState` and `updateNodes`.
  - The view holds each vertex id with its classes, plus the sequence of
    edges handed to the renderer, each with its classes.
  - Every added edge gets a fresh identity, so two edges may join the same
    pair of vertices.
- `Commands`: the outbound `[commandName, nodeId]` messages for
  `startNode`, `stopNode`, `subscribeNode` and `unsubscribeNode`.
- `Controller`: the three callbacks the controller registers, and
  `HandleFrame`, which takes one decoded frame through dispatch and the
  callback to the next session.

The model follows the code. Where the code does something other than the
obvious intent, the model does what the code does:

- An "add" entry always overwrites the store entry under its id
  (main.js:280). The model does not insert only absent ids.
- A vertex and its dependency edges are staged only when the view lacks the
  vertex (main.js:288). Re-announcing a known node with a new dependency adds
  no edge (`Graph.KnownNodeNewDependencyIgnored`).
- The test at main.js:288 reads the view before the one batched `cy.add`.
  So two entries with the same new id in one batch both have their edges
  staged. The vertex is added once and its edges twice
  (`Graph.DuplicateIdStagedTwice`).
- `updateNodes` reads `$scope.nodes[id].state`, which throws for an id the
  store lacks (main.js:321). `Graph.UpdateNodes` therefore requires every id
  to be known. `Controller.HandleFrame` turns such a frame into
  `Failed(UnknownNode)`. The model does not skip the entry.
- `addNodes` re-applies `updateNodes` to its own batch (main.js:307). The
  store holds the batch's own entry objects (main.js:280), and `updateNodes`
  writes each state into the stored object (main.js:321). So an earlier entry
  with a repeated id overwrites the state of the last entry before the loop
  reaches it. A repeated id settles on the state of its second-to-last entry,
  and the last entry's own state is never applied
  (`Graph.RepeatedIdKeepsEarlierState`). The model feeds `updateNodes` these
  aliased states (`Graph.AliasedStates`).

## Model

| member | source | states |
|---|---|---|
| Registry.Register | app/assets/js/main.js:80-93 | A non-string name or a non-function callback leaves the table unchanged and reports which check failed. Otherwise the name is bound to the callback and every other binding is kept. The overwrite warning is raised exactly when the name was already bound. |
| Registry.DispatchFrame | app/assets/js/main.js:26-50 | The frame is malformed exactly when it lacks the wire shape (an array whose first element is a string). It is "not an array" exactly when it is not an array. It is unknown exactly when the name is unregistered. Otherwise it invokes exactly the callback registered for the name, with `data[1]` (undefined when missing). |
| Registry.RegisterThenDispatch | app/assets/js/main.js:41-48 | After a callback is registered under a name, a frame `[name, p]` invokes that callback with `p`, whatever was bound before. |
| Registry.RegisterPreservesOtherNames | app/assets/js/main.js:80-93 | Registering under one name does not change how frames for any other name are dispatched. |
| Graph.SetState | app/assets/js/main.js:310-315 | All three state classes are removed and a present value is added as a class. So the element carries exactly the requested state class when the value is one of the three, and no state class when it is another string. Every class that is neither a state class nor the requested value keeps its membership. |
| Graph.SetStateLastWins | app/assets/js/main.js:310-315 | Setting a state after a state class (or after no state) is the same as setting only the later one, so the last state wins. |
| Graph.StoreAll | app/assets/js/main.js:279-281 | The store gains exactly the batch ids. Ids outside the batch keep their records. Each id maps to the last batch entry carrying it. |
| Graph.StagedVertices | app/assets/js/main.js:287-291 | A vertex is staged exactly when its id is in the batch and not in the view as it was before the batch. |
| Graph.StagedEdges | app/assets/js/main.js:287-300 | Every staged edge comes from an entry whose id the view lacked, and its target is one of that entry's dependencies. Every dependency of such an entry is staged. Nothing is staged once every batch id is a vertex. |
| Graph.AddElements | app/assets/js/main.js:302 | The batched add adds the staged ids as vertices with no classes and leaves existing vertices untouched. It keeps the old edges in order and appends the staged edges with no classes. |
| Graph.UpdateNodes | app/assets/js/main.js:317-327 | Each store record's state, and each element's state class, is that of the last update touching it. A vertex is touched by updates naming it. An edge is touched by updates naming either endpoint. Untouched records and elements do not change. No vertex or edge is added or removed. |
| Graph.AddNodes | app/assets/js/main.js:278-308 | Every batch id is in the store and is a vertex. Its store record is its last entry, with the state that entry holds once the earlier entries with its id have written into it. Nodes and vertices outside the batch are unchanged. The old edges are kept in order and the staged ones follow. Every old vertex and edge, and every staged one (which starts with no classes), carries the classes the aliased updates leave on it: the state class of the last update touching it. Each batch vertex carries the settled state class of its last entry. |
| Graph.RepeatedIdKeepsEarlierState | app/assets/js/main.js:279-281 | For the batch `[a stopped, a running]`, the stored record and the vertex end up "stopped", because the first entry writes its state into the stored second entry. |
| Graph.UpdateViewSettles | app/assets/js/main.js:317-327 | Re-applying an update batch of state classes to a view it has already been applied to changes nothing, whatever the store holds. |
| Graph.UpdateNodesIdempotent | app/assets/js/main.js:317-327 | Delivering the same update batch twice gives the same store and view as delivering it once, when its states are absent or state classes. |
| Graph.AddNodesIdempotent | app/assets/js/main.js:278-308 | Delivering the same add batch twice gives the same store and view as delivering it once, when its states are absent or state classes. The repeated ids settle on the same states both times. |
| Graph.AddNodesAddsNothingTwice | app/assets/js/main.js:287-302 | A second delivery of any add batch adds no vertex and no edge. |
| Graph.AddNodesEdgesComplete | app/assets/js/main.js:292-299 | Each dependency of an entry whose vertex was absent becomes an edge from that entry, even when the target is unknown. |
| Graph.KnownNodeNewDependencyIgnored | app/assets/js/main.js:288-300 | Re-announcing a known node with a new dependency adds no edge. |
| Graph.DuplicateIdStagedTwice | app/assets/js/main.js:287-302 | Two entries with the same new id in one batch give one vertex and the edge twice. |
| Commands.Encode | app/assets/js/main.js:356-370 | Each command is a two-element array. It carries the command name where inbound frames carry the event name, and the node id as the second element. |
| Commands.EncodeDecode | app/assets/js/main.js:356-370 | Decoding an encoded command returns the command and node id. Every message that decodes is the encoding of its decoding. |
| Commands.NameInjective | app/assets/js/main.js:356-370 | The four commands have four distinct names. |
| Commands.CommandsAreWellFormedFrames | app/assets/js/main.js:356-370 | An outbound command passes the inbound shape check. A dispatcher invokes the handler registered for its name with the node id, or reports the name as unknown. |
| Controller.Start | app/assets/js/main.js:337-339 | After startup the table binds exactly "add", "update" and "log" to `addNodes`, `updateNodes` and `logForNode`, and the graph is empty. |
| Controller.InvokeLog | app/assets/js/main.js:329-331 | `logForNode` throws exactly when the payload is undefined or null. Otherwise the session is unchanged and the broadcast carries the entry's `nodeId` and `line`, each undefined when missing or when the payload is not an object. |
| Controller.HandleFrame | app/assets/js/main.js:26-50 | A malformed frame and an unregistered name leave the session unchanged. The callback table never changes. A log entry leaves the graph alone. A callback can fault only for a registered name. |
| Controller.StartConsistent | app/assets/js/main.js:266 | The empty start graph is consistent. |
| Controller.AddNodesConsistent | app/assets/js/main.js:278-308 | `addNodes` keeps the store and the view on the same ids and each record under its own id. Every edge still leaves a known vertex. |
| Controller.UpdateNodesConsistent | app/assets/js/main.js:317-327 | `updateNodes` keeps that consistency. |
| Controller.HandleFrameConsistent | app/assets/js/main.js:26-50 | Every frame that does not fault keeps the session consistent. |
| Controller.UpdateFaultsOnUnknownNode | app/assets/js/main.js:321 | A well-formed update frame faults exactly when some entry names a node the store lacks. |
| Controller.EchoedCommandIsUnknown | app/assets/js/main.js:337-339 | A command frame received by the client is dropped as an unknown event, because no command name is registered. |
| Controller.DashboardScenario | app/assets/js/main.js:278-327 | Announce db and api (api depends on db), then report api running. The store and view hold both nodes and the single edge api→db. "running" lands on api and its edge. db, announced without a state, ends with no state class. |

## Left out

- Websocket construction, the `isConnected` poll and `send` (main.js:18, 52-73, 99-104). They are network I/O. Inbound frames are taken as already decoded values.
- `JSON.parse` and `JSON.stringify`. A parse exception at main.js:28 is uncaught and lies outside this logic. Commands are modelled as the JSON value before stringification. JSON numbers are integers here, because only the shape of a frame matters.
- Angular digest cycles and broadcast fan-out (main.js:47, 210-237, 330, 341-347). `logForNode` is modelled as the `LogEntry` effect it broadcasts, and listeners are not modelled.
- The Cytoscape setup, stylesheet, `colorsForState`, layout, fit and selection (`nodeClicked`, the select and unselect events) (main.js:5-9, 128-199, 304, 349-354). These are the rendering library. The view is reduced to vertex ids, edges and classes.
- How the renderer treats an edge whose target is not a vertex. The model keeps every edge handed to `cy.add`, with its endpoints as given.
- Graph.SetState: an absent state (`undefined`, passed to `addClass` at main.js:314) is taken to add no class. That is how the renderer's `addClass` treats `undefined`, which is not part of this model. The same assumption gives db no state class in `Controller.DashboardScenario`.
- Class strings with spaces. `addClass` would split them into several classes. The model adds a state value as one class.
- The `nodeListItem` directive and Bootstrap collapse handlers (main.js:201-259). They are DOM code.
- The `toArray` filter (main.js:109-125). It depends on JavaScript key enumeration and on mutating its input.
- Payload decoding is stricter than JavaScript's duck typing. An entry must be an object with a string `id`, an array of string `depends` (add entries only), and an absent or string `state`. Any other payload is `Failed(BadPayload)`. JavaScript would coerce some of these values or throw partway through.
- Controller.HandleFrame: a throwing callback is modelled as a `Failed` outcome with no session. The store and view mutations made before the throw are not described.
- Property names that JavaScript objects treat specially (such as `__proto__` as a node id in `$scope.nodes`) are ordinary keys here.
