/*
 * The peer's side of the protocol: the requests it sends to the indexing
 * server and the little state it keeps between requests, namely the topics
 * it believes it is subscribed to and, per topic, the index of the last
 * message it has read.  Sending and receiving are not modelled: each
 * operation takes the server's answer as a parameter and returns the
 * request it sent.
 */
module PeerClient {
  import opened Protocol
  import opened Registry

  // ---------------------------------------------------------------------
  // Requests
  // ---------------------------------------------------------------------

  /** `{"action": "register", "peer_id", "ip", "port"}`: dispatched to `register` and passed on exactly when the id is non-empty. */
  function RegisterRequest(peerId: PeerId, ip: string, port: int): (r: Request)
    ensures r.action.Some? && ParseAction(r.action.value) == Some(RegisterAction)
    ensures Dispatchable(r) <==> peerId != ""
    ensures r.peerId == Some(peerId) && r.ip == Some(ip) && r.port == Some(port)
  {
    Request(Some("register"), Some(peerId), None, None, Some(ip), Some(port), None)
  }

  /** `{"action": "unregister", "peer_id"}`. */
  function UnregisterRequest(peerId: Option<PeerId>): (r: Request)
    ensures r.action.Some? && ParseAction(r.action.value) == Some(UnregisterAction)
    ensures Dispatchable(r) <==> peerId.Some? && peerId.value != ""
    ensures r.peerId == peerId
  {
    Bare("unregister", peerId)
  }

  /** `{"action": "create_topic", "topic", "peer_id"}`: the server sees the topic field exactly when the name is non-empty. */
  function CreateTopicRequest(peerId: Option<PeerId>, topic: TopicName): (r: Request)
    ensures r.action.Some? && ParseAction(r.action.value) == Some(CreateTopicAction)
    ensures Dispatchable(r) <==> peerId.Some? && peerId.value != ""
    ensures r.peerId == peerId && r.topic == Some(topic)
    ensures Present(r.topic) <==> topic != ""
  {
    Bare("create_topic", peerId).(topic := Some(topic))
  }

  /** `{"action": "delete_topic", "topic", "peer_id"}`. */
  function DeleteTopicRequest(peerId: Option<PeerId>, topic: TopicName): (r: Request)
    ensures r.action.Some? && ParseAction(r.action.value) == Some(DeleteTopicAction)
    ensures Dispatchable(r) <==> peerId.Some? && peerId.value != ""
    ensures r.peerId == peerId && r.topic == Some(topic)
    ensures Present(r.topic) <==> topic != ""
  {
    Bare("delete_topic", peerId).(topic := Some(topic))
  }

  /** `{"action": "send_message", "topic", "content", "peer_id"}`. */
  function SendMessageRequest(peerId: Option<PeerId>, topic: TopicName, content: string): (r: Request)
    ensures r.action.Some? && ParseAction(r.action.value) == Some(SendMessageAction)
    ensures Dispatchable(r) <==> peerId.Some? && peerId.value != ""
    ensures r.peerId == peerId && r.topic == Some(topic) && r.content == Some(content)
    ensures Present(r.topic) && Present(r.content) <==> topic != "" && content != ""
  {
    Bare("send_message", peerId).(topic := Some(topic), content := Some(content))
  }

  /** `{"action": "subscribe", "topic", "peer_id"}`. */
  function SubscribeRequest(peerId: Option<PeerId>, topic: TopicName): (r: Request)
    ensures r.action.Some? && ParseAction(r.action.value) == Some(SubscribeAction)
    ensures Dispatchable(r) <==> peerId.Some? && peerId.value != ""
    ensures r.peerId == peerId && r.topic == Some(topic)
    ensures Present(r.topic) <==> topic != ""
  {
    Bare("subscribe", peerId).(topic := Some(topic))
  }

  /** `{"action": "get_messages", "topic", "peer_id", "last_read"}`: the server reads back the cursor it carries. */
  function GetMessagesRequest(peerId: Option<PeerId>, topic: TopicName, lastRead: int): (r: Request)
    ensures r.action.Some? && ParseAction(r.action.value) == Some(GetMessagesAction)
    ensures Dispatchable(r) <==> peerId.Some? && peerId.value != ""
    ensures r.peerId == peerId && r.topic == Some(topic)
    ensures LastRead(r) == lastRead
  {
    Bare("get_messages", peerId).(topic := Some(topic), lastRead := Some(lastRead))
  }

  // ---------------------------------------------------------------------
  // Read cursors
  // ---------------------------------------------------------------------

  /** The stored cursor of a topic, -1 when none has been stored yet. */
  function Cursor(cursors: map<TopicName, int>, topic: TopicName): int {
    if topic in cursors then cursors[topic] else -1
  }

  /** The messages of a reply, the empty list when the field is absent. */
  function MessagesOf(resp: Response): seq<Entry> {
    if resp.messages.Some? then resp.messages.value else []
  }

  /** The cursors after reading `msgs` of `topic`: the last one's index, or unchanged when there are none. */
  function Advanced(cursors: map<TopicName, int>, topic: TopicName, msgs: seq<Entry>): map<TopicName, int> {
    if msgs == [] then cursors else cursors[topic := msgs[|msgs| - 1].index]
  }

  /**
   * The loop over the retrieved messages, storing each one's index as the
   * topic's cursor in turn: the last index stored wins, and no other
   * topic's cursor is touched.
   */
  method FollowMessages(cursors: map<TopicName, int>, topic: TopicName, msgs: seq<Entry>)
    returns (r: map<TopicName, int>)
    ensures r == Advanced(cursors, topic, msgs)
    ensures forall t :: t != topic ==> (t in r <==> t in cursors) && (t in r ==> r[t] == cursors[t])
  {
    r := cursors;
    var i := 0;
    while i < |msgs|
      invariant 0 <= i <= |msgs|
      invariant r == Advanced(cursors, topic, msgs[..i])
    {
      assert msgs[..i + 1][i] == msgs[i];
      r := r[topic := msgs[i].index];
      i := i + 1;
    }
    assert msgs[..i] == msgs;
  }

  /**
   * A pull against a server log: with cursor k, a non-empty answer moves the
   * cursor to the log's last index, which lies above k; an empty answer
   * means the log holds nothing above k, and the cursors stay as they were.
   */
  lemma PullReachesLogEnd(cursors: map<TopicName, int>, topic: TopicName, log: seq<Entry>)
    requires WellIndexed(log)
    ensures var k := Cursor(cursors, topic);
      var msgs := NewMessages(log, k);
      && (msgs != [] <==> log != [] && k < |log| - 1)
      && (msgs != [] ==> Advanced(cursors, topic, msgs)[topic] == |log| - 1 > k)
      && (msgs == [] ==> Advanced(cursors, topic, msgs) == cursors)
  {
    var k := Cursor(cursors, topic);
    RetrievedSuffix(log, k, k);
    TailFrom(cursors, topic, log, k);
  }

  /** The suffix of a server log above cursor k is empty, or ends with the log's last entry, index |log|-1 > k. */
  lemma TailFrom(cursors: map<TopicName, int>, topic: TopicName, log: seq<Entry>, k: int)
    requires WellIndexed(log)
    ensures var msgs := log[Clip(k + 1, |log|)..];
      && (msgs != [] <==> log != [] && k < |log| - 1)
      && (msgs != [] ==> Advanced(cursors, topic, msgs)[topic] == |log| - 1 > k)
  {
    var c := Clip(k + 1, |log|);
    var msgs := log[c..];
    if log != [] && k < |log| - 1 {
      assert c == k + 1 || c == 0;
      assert msgs[|msgs| - 1] == log[|log| - 1];
    } else if log != [] {
      assert c == |log|;
    }
  }

  // ---------------------------------------------------------------------
  // The interactive peer
  // ---------------------------------------------------------------------

  /** Whitespace as the id prompt strips it (the ASCII whitespace characters). */
  predicate IsSpace(c: char) {
    c == ' ' || c == '\t' || c == '\n' || c == '\r' || c == '\U{0B}' || c == '\U{0C}'
  }

  /** An id the prompt accepts: something other than whitespace. */
  predicate NotBlank(s: string) {
    exists i :: 0 <= i < |s| && !IsSpace(s[i])
  }

  /** The interactive peer: its id once registered, its own address, and its subscription and cursor state. */
  class PeerNode {
    var peerId: Option<PeerId>
    var peerIp: string
    var peerPort: int
    var subscribedTopics: set<TopicName>
    var lastReadIndex: map<TopicName, int>

    /** A fresh peer listening at `ip`:`port`, with no id yet, no subscriptions and no cursors. */
    constructor(ip: string, port: int)
      ensures peerId.None? && peerIp == ip && peerPort == port
      ensures subscribedTopics == {} && lastReadIndex == map[]
    {
      peerId := None;
      peerIp, peerPort := ip, port;
      subscribedTopics, lastReadIndex := {}, map[];
    }

    /**
     * `register`: adopt the id entered at the prompt, send it with this
     * peer's address, and succeed exactly when the server answers
     * `registered` or `logged_in`.
     */
    method Register(entered: string, resp: Response) returns (sent: Request, ok: bool)
      requires NotBlank(entered)
      modifies this
      ensures peerId == Some(entered)
      ensures sent == RegisterRequest(entered, peerIp, peerPort) && Dispatchable(sent)
      ensures ok <==> resp.status == Registered || resp.status == LoggedIn
      ensures peerIp == old(peerIp) && peerPort == old(peerPort)
      ensures subscribedTopics == old(subscribedTopics) && lastReadIndex == old(lastReadIndex)
    {
      peerId := Some(entered);
      sent := RegisterRequest(entered, peerIp, peerPort);
      ok := resp.status == Registered || resp.status == LoggedIn;
    }

    /** `deregister`: send this peer's id and succeed exactly when the server answers `unregistered`. */
    method Deregister(resp: Response) returns (sent: Request, ok: bool)
      ensures sent == UnregisterRequest(peerId)
      ensures ok <==> resp.status == Unregistered
    {
      sent := UnregisterRequest(peerId);
      ok := resp.status == Unregistered;
    }

    /** `create_topic`: ask for a topic hosted by this peer; nothing is kept locally. */
    method CreateTopic(name: TopicName, resp: Response) returns (sent: Request)
      ensures sent == CreateTopicRequest(peerId, name)
    {
      sent := CreateTopicRequest(peerId, name);
    }

    /** `delete_topic`: ask for the topic's removal; nothing is kept locally. */
    method DeleteTopic(name: TopicName, resp: Response) returns (sent: Request)
      ensures sent == DeleteTopicRequest(peerId, name)
    {
      sent := DeleteTopicRequest(peerId, name);
    }

    /** `send_message_to_topic`: publish `content` to the topic; nothing is kept locally. */
    method SendMessageToTopic(name: TopicName, content: string, resp: Response) returns (sent: Request)
      ensures sent == SendMessageRequest(peerId, name, content)
    {
      sent := SendMessageRequest(peerId, name, content);
    }

    /** `subscribe_topic`: the topic joins the local set exactly when the server answers `subscribed`. */
    method SubscribeTopic(name: TopicName, resp: Response) returns (sent: Request)
      modifies this
      ensures sent == SubscribeRequest(peerId, name)
      ensures subscribedTopics == if resp.status == Subscribed then old(subscribedTopics) + {name} else old(subscribedTopics)
      ensures peerId == old(peerId) && lastReadIndex == old(lastReadIndex)
      ensures peerIp == old(peerIp) && peerPort == old(peerPort)
    {
      sent := SubscribeRequest(peerId, name);
      if resp.status == Subscribed {
        subscribedTopics := subscribedTopics + {name};
      }
    }

    /**
     * `pull_messages`: a topic not subscribed locally sends nothing and
     * changes nothing.  Otherwise the request carries the stored cursor (or
     * -1), and a `messages_retrieved` answer moves the cursor to the last
     * message's index; an empty answer or any other status leaves it.
     */
    method PullMessages(name: TopicName, resp: Response) returns (sent: Option<Request>)
      modifies this
      ensures name !in old(subscribedTopics) ==> sent.None? && lastReadIndex == old(lastReadIndex)
      ensures name in old(subscribedTopics) ==>
        && sent == Some(GetMessagesRequest(peerId, name, Cursor(old(lastReadIndex), name)))
        && lastReadIndex == if resp.status == MessagesRetrieved
             then Advanced(old(lastReadIndex), name, MessagesOf(resp))
             else old(lastReadIndex)
      ensures peerId == old(peerId) && subscribedTopics == old(subscribedTopics)
      ensures peerIp == old(peerIp) && peerPort == old(peerPort)
    {
      if name !in subscribedTopics {
        sent := None;
        return;
      }
      var lastRead := Cursor(lastReadIndex, name);
      sent := Some(GetMessagesRequest(peerId, name, lastRead));
      if resp.status == MessagesRetrieved {
        var msgs := MessagesOf(resp);
        lastReadIndex := FollowMessages(lastReadIndex, name, msgs);
      }
    }
  }
}
