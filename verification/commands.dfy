/** The controller's outbound command surface: each command is sent as the
    two-element array `[commandName, nodeId]`. */
module Commands {
  import opened Wrappers
  import opened Json
  import Registry

  datatype Command = StartNode | StopNode | SubscribeNode | UnsubscribeNode

  /** The command name written on the wire. */
  function Name(c: Command): string {
    match c
    case StartNode => "startNode"
    case StopNode => "stopNode"
    case SubscribeNode => "subscribeNode"
    case UnsubscribeNode => "unsubscribeNode"
  }

  /** The message `startNode`, `stopNode`, `subscribeNode` or `unsubscribeNode`
      hands to `JSON.stringify` for a node. */
  function Encode(c: Command, nodeId: string): (r: Json)
    ensures Registry.EventName(r) == Some(Name(c))
    ensures r.JArray? && |r.items| == 2 && At(r.items, 1) == Some(JString(nodeId))
  {
    JArray([JString(Name(c)), JString(nodeId)])
  }

  /** The command a name stands for, if any. */
  function CommandNamed(name: string): (r: Option<Command>)
    ensures r.Some? ==> Name(r.value) == name
    ensures (exists c :: Name(c) == name) ==> r.Some?
  {
    if name == "startNode" then Some(StartNode)
    else if name == "stopNode" then Some(StopNode)
    else if name == "subscribeNode" then Some(SubscribeNode)
    else if name == "unsubscribeNode" then Some(UnsubscribeNode)
    else None
  }

  /** Reads a command message back: a two-element array of a command name and
      a node id string. */
  function Decode(j: Json): Option<(Command, string)> {
    if j.JArray? && |j.items| == 2 && j.items[0].JString? && j.items[1].JString? then
      match CommandNamed(j.items[0].s)
      case Some(c) => Some((c, j.items[1].s))
      case None => None
    else
      None
  }

  /** Distinct commands carry distinct names. */
  lemma NameInjective(c: Command, d: Command)
    ensures Name(c) == Name(d) ==> c == d
  {
  }

  /** Decoding an encoded command gives back the command and the node id, and
      every message that decodes is the encoding of what it decodes to. */
  lemma EncodeDecode(c: Command, nodeId: string, j: Json)
    ensures Decode(Encode(c, nodeId)) == Some((c, nodeId))
    ensures Decode(j).Some? ==> Encode(Decode(j).value.0, Decode(j).value.1) == j
  {
    if Decode(j).Some? {
      assert j.items == [j.items[0], j.items[1]];
    }
  }

  /** Every outbound command passes the inbound frame shape check: a
      dispatcher never drops one as malformed, and one whose name is
      registered reaches its handler with the node id as payload. */
  lemma CommandsAreWellFormedFrames<H>(table: map<string, H>, c: Command, nodeId: string)
    ensures !Registry.DispatchFrame(table, Encode(c, nodeId)).Malformed?
    ensures Name(c) in table ==>
      Registry.DispatchFrame(table, Encode(c, nodeId)) == Registry.Invoked(table[Name(c)], Some(JString(nodeId)))
    ensures Name(c) !in table ==>
      Registry.DispatchFrame(table, Encode(c, nodeId)) == Registry.Unknown(Name(c))
  {
  }
}
