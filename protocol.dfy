/*
 * The request/response records exchanged between a peer and the indexing
 * server, and the server's table of action names.  JSON encoding is not
 * modelled: a request is a record whose optional fields stand for keys that
 * may be absent from the JSON object.
 */
module Protocol {

  datatype Option<+T> = None | Some(value: T)

  type PeerId = string
  type TopicName = string

  /** A peer's address as the server stores it: the request's `ip` and `port`, either of which may be absent. */
  datatype Address = Address(ip: Option<string>, port: Option<int>)

  /** One message-log entry: `(index, sender, content)`. */
  datatype Entry = Entry(index: int, sender: PeerId, content: string)

  /** A request object `{action, peer_id, topic?, content?, ip?, port?, last_read?}`. */
  datatype Request = Request(
    action: Option<string>,
    peerId: Option<PeerId>,
    topic: Option<TopicName>,
    content: Option<string>,
    ip: Option<string>,
    port: Option<int>,
    lastRead: Option<int>)

  /** A request carrying only `action` and `peer_id`. */
  function Bare(action: string, peerId: Option<PeerId>): Request {
    Request(Some(action), peerId, None, None, None, None, None)
  }

  /** The `status` values the server sends. */
  datatype Status =
    | Registered | LoggedIn | Unregistered
    | TopicCreated | TopicDeleted | Subscribed
    | MessageSent | MessagesRetrieved
    | SubscribedTopics | CreatedTopics | Success | Error

  /** The `host_peer` field: an `{id, ip, port}` object after a subscription, a bare id from `get_topic_host`. */
  datatype HostPeer = HostAddress(id: PeerId, ip: Option<string>, port: Option<int>) | HostId(id: PeerId)

  /** A response object `{status, message?, host_peer?, messages?, topics?}`. */
  datatype Response = Response(
    status: Status,
    message: Option<string>,
    hostPeer: Option<HostPeer>,
    messages: Option<seq<Entry>>,
    topics: Option<seq<TopicName>>)

  /** A response with a status and a human-readable message. */
  function Done(status: Status, text: string): Response {
    Response(status, Some(text), None, None, None)
  }

  /** An `error` response. */
  function Failure(text: string): Response {
    Done(Error, text)
  }

  /**
   * What a connection does with one request: write one response, or close
   * without answering because the handler raised.
   */
  datatype Reply = Sent(response: Response) | Closed

  /** Python truthiness of an optional string field: present and non-empty. */
  predicate Present(field: Option<string>) {
    field.Some? && field.value != ""
  }

  /** The ten actions the server dispatches. */
  datatype Action =
    | RegisterAction | UnregisterAction
    | CreateTopicAction | DeleteTopicAction
    | SubscribeAction | SendMessageAction | GetMessagesAction
    | ViewSubscribedTopicsAction | ViewCreatedTopicsAction | GetTopicHostAction

  /** The wire name of each action. */
  function ActionName(a: Action): string {
    match a
    case RegisterAction => "register"
    case UnregisterAction => "unregister"
    case CreateTopicAction => "create_topic"
    case DeleteTopicAction => "delete_topic"
    case SubscribeAction => "subscribe"
    case SendMessageAction => "send_message"
    case GetMessagesAction => "get_messages"
    case ViewSubscribedTopicsAction => "view_subscribed_topics"
    case ViewCreatedTopicsAction => "view_created_topics"
    case GetTopicHostAction => "get_topic_host"
  }

  /** The server's action table: the handler for a name, or None for an unknown action. */
  function ParseAction(name: string): (r: Option<Action>)
    ensures r.Some? ==> ActionName(r.value) == name
  {
    if name == "register" then Some(RegisterAction)
    else if name == "unregister" then Some(UnregisterAction)
    else if name == "create_topic" then Some(CreateTopicAction)
    else if name == "delete_topic" then Some(DeleteTopicAction)
    else if name == "subscribe" then Some(SubscribeAction)
    else if name == "send_message" then Some(SendMessageAction)
    else if name == "get_messages" then Some(GetMessagesAction)
    else if name == "view_subscribed_topics" then Some(ViewSubscribedTopicsAction)
    else if name == "view_created_topics" then Some(ViewCreatedTopicsAction)
    else if name == "get_topic_host" then Some(GetTopicHostAction)
    else None
  }

  /** Every action's name is in the table and leads back to that action; no other name does. */
  lemma ParseActionInverse(name: string, a: Action)
    ensures ParseAction(name) == Some(a) <==> name == ActionName(a)
  {
    match a
    case RegisterAction =>
    case UnregisterAction =>
    case CreateTopicAction =>
    case DeleteTopicAction =>
    case SubscribeAction =>
    case SendMessageAction =>
    case GetMessagesAction =>
    case ViewSubscribedTopicsAction =>
    case ViewCreatedTopicsAction =>
    case GetTopicHostAction =>
  }

  /** Whether the connection handler passes a request on to the action table. */
  predicate Dispatchable(req: Request) {
    Present(req.action) && Present(req.peerId)
  }
}
