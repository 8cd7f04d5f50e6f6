/*
 * A peer talking to the indexing server: the request the peer builds is
 * handled by the server, and the server's answer drives the peer's state.
 * The round trips below compose the two sides; the scenarios follow one
 * registry through a sequence of requests.
 */
module Session {
  import opened Protocol
  import opened Sequences
  import opened Registry
  import opened PeerClient

  /**
   * A subscriber pulling with its stored cursor k: the server answers
   * `messages_retrieved`, and following that answer moves the cursor to
   * the last index of the topic's log when the log goes beyond k, and
   * leaves every cursor as it was otherwise.
   */
  lemma CursorFollowsServer(server: IndexingServer, peerId: PeerId, t: TopicName, cursors: map<TopicName, int>)
    requires server.Valid()
    requires t in server.topics && peerId in server.topics[t].subscribers
    ensures var resp := server.GetMessages(GetMessagesRequest(Some(peerId), t, Cursor(cursors, t)), peerId);
      resp.status == MessagesRetrieved
    ensures var resp := server.GetMessages(GetMessagesRequest(Some(peerId), t, Cursor(cursors, t)), peerId);
      var log := server.messages[t];
      var k := Cursor(cursors, t);
      Advanced(cursors, t, MessagesOf(resp)) == if log != [] && k < |log| - 1 then cursors[t := |log| - 1] else cursors
  {
    PulledSuffix(server, peerId, t, Cursor(cursors, t));
    TailFrom(cursors, t, server.messages[t], Cursor(cursors, t));
  }

  /** The answer to a subscriber's pull with cursor k: the topic's log from index k+1 on. */
  lemma PulledSuffix(server: IndexingServer, peerId: PeerId, t: TopicName, k: int)
    requires server.Valid()
    requires t in server.topics && peerId in server.topics[t].subscribers
    ensures t in server.messages && WellIndexed(server.messages[t])
    ensures var resp := server.GetMessages(GetMessagesRequest(Some(peerId), t, k), peerId);
      resp.status == MessagesRetrieved && MessagesOf(resp) == server.messages[t][Clip(k + 1, |server.messages[t]|)..]
  {
    var req := GetMessagesRequest(Some(peerId), t, k);
    assert Present(req.topic) && LastRead(req) == k;
  }

  /**
   * Registration end to end: whatever the registry holds, a peer entering a
   * non-blank id is registered (or logged back in) and reports success.
   */
  method RegisterRoundTrip(server: IndexingServer, node: PeerNode, entered: string) returns (ok: bool)
    requires server.Valid() && NotBlank(entered)
    modifies server, node
    ensures server.Valid()
    ensures ok && node.peerId == Some(entered) && entered in server.peers
  {
    var req := RegisterRequest(entered, node.peerIp, node.peerPort);
    var reply := server.HandleRequest(req);
    var sent;
    sent, ok := node.Register(entered, reply.response);
  }

  /**
   * Subscription end to end: for an existing topic whose host is
   * registered, the peer ends up subscribed on both sides, so the server
   * will answer its pulls.
   */
  method SubscribeRoundTrip(server: IndexingServer, node: PeerNode, t: TopicName)
    requires server.Valid()
    requires node.peerId.Some? && node.peerId.value != ""
    requires t in server.topics && server.topics[t].host in server.peers
    modifies server, node
    ensures server.Valid()
    ensures node.peerId == old(node.peerId) && t in node.subscribedTopics && t in server.topics
    ensures node.peerId.value in server.topics[t].subscribers
  {
    var req := SubscribeRequest(node.peerId, t);
    var reply := server.HandleRequest(req);
    var sent := node.SubscribeTopic(t, reply.response);
  }

  /**
   * A pull end to end: the server does not change, and the peer's cursor
   * for the topic moves to the log's last index when the log goes beyond
   * it, and stays otherwise.
   */
  method PullRoundTrip(server: IndexingServer, node: PeerNode, t: TopicName)
    requires server.Valid()
    requires node.peerId.Some? && node.peerId.value != ""
    requires t in node.subscribedTopics
    requires t in server.topics && node.peerId.value in server.topics[t].subscribers
    modifies server, node
    ensures unchanged(server)
    ensures var log := server.messages[t];
      var k := Cursor(old(node.lastReadIndex), t);
      node.lastReadIndex == if log != [] && k < |log| - 1 then old(node.lastReadIndex)[t := |log| - 1] else old(node.lastReadIndex)
  {
    var req := GetMessagesRequest(node.peerId, t, Cursor(node.lastReadIndex, t));
    var reply := server.HandleRequest(req);
    CursorFollowsServer(server, node.peerId.value, t, node.lastReadIndex);
    var sent := node.PullMessages(t, reply.response);
  }

  /** A fresh registry where "a" and then "b" registered and "a" created the topic "news". */
  method TwoPeersOneTopic() returns (server: IndexingServer)
    ensures fresh(server) && server.Valid()
    ensures server.peerOrder == ["a", "b"] && server.topicOrder == ["news"]
    ensures server.topics == map["news" := Topic("a", {})]
    ensures server.messages == map["news" := []]
  {
    server := new IndexingServer();
    var _ := server.RegisterPeer(RegisterRequest("a", "127.0.0.1", 5001), "a");
    assert server.peerOrder == ["a"];
    var _ := server.RegisterPeer(RegisterRequest("b", "127.0.0.1", 5002), "b");
    assert server.peerOrder == ["a", "b"] && server.topics == map[];
    var _ := server.CreateTopic(CreateTopicRequest(Some("a"), "news"), "a");
  }

  /**
   * Host handover: "a" and then "b" register, "a" creates a topic and
   * leaves; the topic survives and its host is now "b".
   */
  method HandoverScenario() returns (host: Response)
    ensures host == Response(Success, None, Some(HostId("b")), None, None)
  {
    var server := TwoPeersOneTopic();
    var _ := server.UnregisterPeer(UnregisterRequest(Some("a")), "a");
    assert Without(["a", "b"], "a") == ["b"] by {
      assert ["a", "b"][1..] == ["b"];
    }
    DepartureEffects(["news"], map["news" := Topic("a", {})], ["b"], "a", "news");
    host := server.GetTopicHost(Bare("get_topic_host", Some("b")).(topic := Some("news")), "b");
  }

  /** A fresh registry where only "a" registered and created the topic "news". */
  method OnePeerOneTopic() returns (server: IndexingServer)
    ensures fresh(server) && server.Valid()
    ensures server.peerOrder == ["a"] && server.topicOrder == ["news"]
    ensures server.topics == map["news" := Topic("a", {})]
    ensures server.messages == map["news" := []]
  {
    server := new IndexingServer();
    var _ := server.RegisterPeer(RegisterRequest("a", "127.0.0.1", 5001), "a");
    assert server.peerOrder == ["a"] && server.topics == map[];
    var _ := server.CreateTopic(CreateTopicRequest(Some("a"), "news"), "a");
  }

  /** The registry of `OnePeerOneTopic` after "a" published "hello" to "news". */
  method OnePeerOneMessage() returns (server: IndexingServer)
    ensures fresh(server) && server.Valid()
    ensures server.peerOrder == ["a"] && server.topicOrder == ["news"]
    ensures server.topics == map["news" := Topic("a", {})]
    ensures server.messages == map["news" := [Entry(0, "a", "hello")]]
  {
    server := OnePeerOneTopic();
    var req := SendMessageRequest(Some("a"), "news", "hello");
    var _ := server.SendMessage(req, "a");
    assert server.messages == map["news" := []]["news" := [] + [Entry(0, "a", req.content.value)]];
    assert [] + [Entry(0, "a", "hello")] == [Entry(0, "a", "hello")];
  }

  /**
   * No host left: the only peer creates a topic, publishes to it and
   * leaves; the topic and its log are gone together.
   */
  method LastPeerScenario() returns (created: Response, logs: map<TopicName, seq<Entry>>)
    ensures created == Response(CreatedTopics, None, None, None, Some([]))
    ensures logs == map[]
  {
    var server := OnePeerOneMessage();
    var _ := server.UnregisterPeer(UnregisterRequest(Some("a")), "a");
    assert Without(["a"], "a") == [];
    DepartureEffects(["news"], map["news" := Topic("a", {})], [], "a", "news");
    created := server.ViewCreatedTopics("a");
    logs := server.messages;
  }

  /** The registry of `TwoPeersOneTopic` after "b" subscribed to "news". */
  method SubscribedPair() returns (server: IndexingServer)
    ensures fresh(server) && server.Valid()
    ensures server.topics == map["news" := Topic("a", {"b"})]
    ensures server.messages == map["news" := []]
  {
    server := TwoPeersOneTopic();
    var req := SubscribeRequest(Some("b"), "news");
    var _ := server.SubscribeTopic(req, "b");
    assert server.topics == map["news" := Topic("a", {} + {"b"})];
    assert {} + {"b"} == {"b"};
  }

  /** The registry of `SubscribedPair` after "a" published "hello" to "news". */
  method HelloPublished() returns (server: IndexingServer)
    ensures fresh(server) && server.Valid()
    ensures server.topics == map["news" := Topic("a", {"b"})]
    ensures server.messages == map["news" := [Entry(0, "a", "hello")]]
  {
    server := SubscribedPair();
    var hello := SendMessageRequest(Some("a"), "news", "hello");
    var _ := server.SendMessage(hello, "a");
    assert server.messages == map["news" := []]["news" := [] + [Entry(0, "a", hello.content.value)]];
    assert [] + [Entry(0, "a", "hello")] == [Entry(0, "a", "hello")];
  }

  /**
   * Publishing and pulling: "b" subscribes to a topic of "a"; after "a"
   * publishes "hello", a pull from -1 returns that one entry; after "a"
   * publishes "world", a pull from 0 returns only the new entry, and a
   * pull from 1 returns nothing.
   */
  method PublishScenario() returns (first: Response, second: Response, third: Response)
    ensures first.messages == Some([Entry(0, "a", "hello")])
    ensures second.messages == Some([Entry(1, "a", "world")])
    ensures third.messages == Some([])
  {
    var server := HelloPublished();
    first := server.GetMessages(GetMessagesRequest(Some("b"), "news", -1), "b");
    assert [Entry(0, "a", "hello")][0..] == [Entry(0, "a", "hello")];
    var world := SendMessageRequest(Some("a"), "news", "world");
    var _ := server.SendMessage(world, "a");
    var log := [Entry(0, "a", "hello"), Entry(1, "a", "world")];
    assert server.messages["news"] == [Entry(0, "a", "hello")] + [Entry(1, "a", world.content.value)] == log;
    second := server.GetMessages(GetMessagesRequest(Some("b"), "news", 0), "b");
    assert log[1..] == [Entry(1, "a", "world")];
    third := server.GetMessages(GetMessagesRequest(Some("b"), "news", 1), "b");
    assert log[2..] == [];
  }
}
