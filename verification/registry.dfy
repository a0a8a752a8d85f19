/** The websocket factory's callback table: registration of one handler per
    event name, and validation plus dispatch of every decoded inbound frame.
    Frames on the wire are `[eventName, payload]`; the handler type `H` is left
    abstract, the controller instantiates it with its three callbacks. */
module Registry {
  import opened Wrappers
  import opened Json

  /** A JavaScript value handed to `registerCallbackForEvent`: plain data, a
      function (one of the handlers), or `undefined`. */
  datatype JsValue<H> = Data(json: Json) | Function(callback: H) | Undefined

  predicate IsString<H>(v: JsValue<H>) {
    v.Data? && v.json.JString?
  }

  predicate IsFunction<H>(v: JsValue<H>) {
    v.Function?
  }

  /** What registration reports on the console. */
  datatype Notice =
    | Stored             // silently stored under a fresh name
    | OverwriteWarning   // stored, replacing an earlier callback (a warning, not an error)
    | NameNotString      // rejected: the event name is not a string
    | CallbackNotFunction // rejected: the callback is not a function

  datatype Registration<H> = Registration(table: map<string, H>, notice: Notice)

  /** `registerCallbackForEvent(eventName, callback)`. A rejected call leaves the
      table as it was; an accepted one binds the name to the callback, keeps
      every other binding, and warns exactly when a binding is replaced. */
  function Register<H>(table: map<string, H>, eventName: JsValue<H>, callback: JsValue<H>): (r: Registration<H>)
    ensures !IsString(eventName) ==> r.table == table && r.notice == NameNotString
    ensures IsString(eventName) && !IsFunction(callback) ==> r.table == table && r.notice == CallbackNotFunction
    ensures IsString(eventName) && IsFunction(callback) ==>
      && r.table.Keys == table.Keys + {eventName.json.s}
      && r.table[eventName.json.s] == callback.callback
      && (forall k :: k in table && k != eventName.json.s ==> r.table[k] == table[k])
      && (r.notice == OverwriteWarning <==> eventName.json.s in table)
      && (r.notice == OverwriteWarning || r.notice == Stored)
  {
    if !IsString(eventName) then
      Registration(table, NameNotString)
    else if !IsFunction(callback) then
      Registration(table, CallbackNotFunction)
    else
      var name := eventName.json.s;
      // only functions are ever stored, so the truthiness test on the old entry is membership
      var notice := if name in table then OverwriteWarning else Stored;
      Registration(table[name := callback.callback], notice)
  }

  /** The wire shape of a frame: an array whose first element is a string.
      Yields that event name. */
  function EventName(frame: Json): (r: Option<string>) {
    if frame.JArray? && |frame.items| > 0 && frame.items[0].JString? then
      Some(frame.items[0].s)
    else
      None
  }

  datatype Malformation = NotAnArray | NameNotAString

  /** What `onmessage` does with one decoded frame. */
  datatype Dispatch<H> =
    | Malformed(reason: Malformation)
    | Unknown(eventName: string)
    | Invoked(handler: H, payload: Option<Json>)

  /** `ws.onmessage` after `JSON.parse`: drop a frame that is not an array or
      whose first element is not a string, drop an unregistered name, and
      otherwise invoke the one registered callback with `data[1]`. */
  function DispatchFrame<H>(table: map<string, H>, frame: Json): (r: Dispatch<H>)
    ensures r.Malformed? <==> EventName(frame).None?
    ensures r.Malformed? ==> (r.reason == NotAnArray <==> !frame.JArray?)
    ensures r.Unknown? <==> EventName(frame).Some? && EventName(frame).value !in table
    ensures r.Unknown? ==> r.eventName == EventName(frame).value
    ensures r.Invoked? <==> EventName(frame).Some? && EventName(frame).value in table
    ensures r.Invoked? ==> r.handler == table[EventName(frame).value] && r.payload == At(frame.items, 1)
  {
    if !frame.JArray? then
      Malformed(NotAnArray)
    else
      var eventName := At(frame.items, 0);
      if !(eventName.Some? && eventName.value.JString?) then
        Malformed(NameNotAString)
      else if eventName.value.s !in table then
        Unknown(eventName.value.s)
      else
        Invoked(table[eventName.value.s], At(frame.items, 1))
  }

  /** A callback registered under a name is what a frame carrying that name
      reaches, whatever was registered there before. */
  lemma RegisterThenDispatch<H>(table: map<string, H>, name: string, h: H, payload: Json)
    ensures DispatchFrame(Register(table, Data(JString(name)), Function(h)).table, JArray([JString(name), payload]))
            == Invoked(h, Some(payload))
  {
  }

  /** Registering under one name does not change how frames for any other
      name are dispatched. */
  lemma RegisterPreservesOtherNames<H>(table: map<string, H>, eventName: JsValue<H>, callback: JsValue<H>, frame: Json)
    requires EventName(frame).Some?
    requires !(IsString(eventName) && eventName.json.s == EventName(frame).value)
    ensures DispatchFrame(Register(table, eventName, callback).table, frame) == DispatchFrame(table, frame)
  {
  }
}
