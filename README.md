# Pub-Sub indexing server and peer, in Dafny

This project models the publish/subscribe bus of `Pub-Sub_Async`. It has two sides:

- **The indexing server** keeps the registry: the registered peers with their addresses, the topics with their host peer and their subscribers, and one append-only message log per topic. Each request carries an `action` and a `peer_id`. It goes through the request check and the action table to one handler, and the handler runs to completion without suspending.
- **The peer** builds the requests and keeps two pieces of local state: the topics it subscribed to, and a read cursor per topic. It decides on its own whether to send a pull at all, and it moves the cursor from the server's answer.

The files, each a module:

- `protocol.dfy` (`Protocol`) holds the request and response records, the status values, the `Reply` of a connection (a response, or a connection closed because the handler raised), and the action table.
- `sequences.dfy` (`Sequences`) is Python's dict insertion order: a key sequence without repetitions kept beside each map.
- `registry.dfy` (`Registry`) is the class `IndexingServer`, with one method or function per handler. Next to it sit the functions that specify the `unregister` pass and the message filter, and the lemmas about them.
- `peer_client.dfy` (`PeerClient`) is the interactive `PeerNode` of `peer_node.py`, the request builders, and the loop that follows the cursors.
- `test_peer_client.dfy` (`TestPeerClient`) is the `PeerNode` variant of `peer_node_test.py` that the load tests drive.
- `session.dfy` (`Session`) composes the two sides:
  - round trips in which the peer's request is handled by the server and the answer updates the peer;
  - scenarios that follow one registry through a series of requests.

Invariant of the registry (`Registry.Consistent`, kept by every method of the server):

- the order sequences list exactly the keys of their maps, each once;
- peer ids and topic names are non-empty;
- every topic has a log and every log has a topic;
- every log holds the indices 0..N-1 in append order.

## Model

| member | source | states |
|---|---|---|
| Protocol.ParseAction | Code/indexing_server.py:51-67 | an action found in the table is the one whose wire name is the requested name |
| Protocol.ParseActionInverse | Code/indexing_server.py:52-63 | the table maps a name to an action exactly when the name is that action's wire name, for all ten actions |
| Registry.SelectNewHost | Code/indexing_server.py:98-100 | a replacement host, when there is one, is a remaining peer and differs from the departing one |
| Registry.SelectNewHostFirst | Code/indexing_server.py:98-100 | there is no replacement exactly when every peer is the departing one; otherwise the replacement is the first other peer in registration order, so with the departing peer already removed it is simply the first peer |
| Registry.DepartureOutcome | Code/indexing_server.py:83-94 | a topic the departing peer hosted survives exactly when a peer remains, and its new host is then the earliest remaining peer; other topics keep their host; the departing peer leaves every surviving subscriber set |
| Registry.Surviving | Code/indexing_server.py:83-93 | the topics left after a departure are exactly the topics of the scan that are kept |
| Registry.Released | Code/indexing_server.py:83-94 | the topic table after a departure never gains a topic |
| Registry.ReleasedOutside | Code/indexing_server.py:83-94 | a topic the scan has not reached keeps its record |
| Registry.ReleasedInside | Code/indexing_server.py:83-94 | a scanned topic stays exactly when it is kept, and then holds its re-hosted record with the departing peer removed from its subscribers |
| Registry.SurvivorsReleased | Code/indexing_server.py:83-93 | the surviving topic order lists exactly the keys of the released table, each once |
| Registry.ReleaseTopics | Code/indexing_server.py:83-94 | the loop over the snapshot of topics produces the released table and the surviving order, keeps every surviving log untouched, and drops the logs of deleted topics |
| Registry.ReleaseTopic | Code/indexing_server.py:84-94 | one step of the loop: a kept topic is re-hosted or left with its host and loses the departing subscriber; a topic with no remaining host is deleted together with its log and its place in the order |
| Registry.DepartureEffects | Code/indexing_server.py:83-100 | after `unregister`, a topic survives exactly when another peer hosts it or some peer remains; a re-hosted topic goes to the earliest remaining peer, never to the departed one; other hosts are unchanged; subscribers lose exactly the departed peer |
| Registry.DepartureConsistent | Code/indexing_server.py:78-95 | the departure keeps the registry invariant |
| Registry.NewMessages | Code/indexing_server.py:177-181 | an entry is returned exactly when it is in the log with an index above `last_read`, and the result is no longer than the log |
| Registry.NewMessagesIndexed | Code/indexing_server.py:177-181 | on a log indexed from n, the returned entries are one suffix of the log, starting at `last_read + 1 - n` clipped to the log |
| Registry.RetrievedSuffix | Code/indexing_server.py:167-183 | on a server log, `get_messages` returns exactly the entries from index `last_read + 1` on, in log order; a larger cursor returns a suffix of what a smaller one returns |
| Registry.RetrievedAscending | Code/indexing_server.py:177-181 | the entries returned lie above the cursor and their indices ascend strictly |
| Registry.TopicsSubscribedBy | Code/indexing_server.py:186 | a topic is listed exactly when it exists and the peer is among its subscribers; from an order without repetitions no topic is listed twice |
| Registry.IndexingServer.constructor | Code/indexing_server.py:12-19 | a new server has no peers, topics or logs |
| Registry.IndexingServer.RegisterPeer | Code/indexing_server.py:69-76 | a known id gets `logged_in` and nothing changes, so the stored address is kept; a new id is stored with the request's address, appended to the registration order, and gets `registered` |
| Registry.IndexingServer.UnregisterPeer | Code/indexing_server.py:78-96 | an unknown id is an error with no change; otherwise the peer is removed from the peers and their order, and the topics, their order and the logs become the released table, the survivors and the untouched surviving logs; the invariant is kept |
| Registry.IndexingServer.CreateTopic | Code/indexing_server.py:102-111 | a missing or empty name is an error, and so is a name in use, both with no change; otherwise the topic is created with the requester as host, whether registered or not, with no subscribers and an empty log, and appended to the topic order |
| Registry.IndexingServer.DeleteTopic | Code/indexing_server.py:113-125 | a missing name, an unknown topic or a requester that is not the host is an error with no change; otherwise the topic, its place in the order and its log are removed together |
| Registry.IndexingServer.SubscribeTopic | Code/indexing_server.py:127-141 | a missing name or an unknown topic is an error with no change; otherwise the requester joins the subscribers, which is a no-op if already there; the answer carries the host's id and address, or, when the host is not a registered peer, the connection closes after the subscription was recorded |
| Registry.IndexingServer.SendMessage | Code/indexing_server.py:143-164 | a missing or empty topic or content, or an unknown topic, is an error with no change; otherwise the entry (N, sender, content) is appended to the topic's log of length N, whoever the sender is |
| Registry.IndexingServer.GetMessages | Code/indexing_server.py:167-183 | a missing name, an unknown topic or a non-subscriber is an error; otherwise the answer holds the log from index `last_read + 1` on, where `last_read` defaults to -1 |
| Registry.IndexingServer.ViewSubscribedTopics | Code/indexing_server.py:185-188 | the listed topics are exactly those whose subscribers include the requester, each once |
| Registry.IndexingServer.ViewCreatedTopics | Code/indexing_server.py:190-193 | every existing topic is listed once, in creation order, whoever asks |
| Registry.IndexingServer.GetTopicHost | Code/indexing_server.py:195-202 | a missing name or an unknown topic is an error; otherwise the answer is the current host's id |
| Registry.IndexingServer.ProcessAction | Code/indexing_server.py:51-67 | an unknown action is an error naming it, with no change; each of the ten names has exactly the effect of its own handler (`ActionDone`), and the four queries change nothing; `register` always succeeds and leaves the peer registered; `subscribe` to a topic with a registered host succeeds and records the subscriber; only `subscribe` can close the connection |
| Registry.IndexingServer.HandleRequest | Code/indexing_server.py:36-41 | a request without a non-empty `action` and `peer_id` gets the validation error and changes nothing; any other request has exactly the effect its action has in the table (`ActionDone`) |
| PeerClient.RegisterRequest | Code/peer_node.py:83 | the request is dispatched to `register` with the id and this peer's address, and passes the server's check exactly when the id is non-empty |
| PeerClient.UnregisterRequest | Code/peer_node.py:95 | the request is dispatched to `unregister` for this peer's id |
| PeerClient.CreateTopicRequest | Code/peer_node.py:115 | the request is dispatched to `create_topic`, and the server sees a topic name exactly when the name is non-empty |
| PeerClient.DeleteTopicRequest | Code/peer_node.py:123 | the request is dispatched to `delete_topic`, and the server sees a topic name exactly when the name is non-empty |
| PeerClient.SendMessageRequest | Code/peer_node.py:131 | the request is dispatched to `send_message`, and the server accepts its fields exactly when topic and content are non-empty |
| PeerClient.SubscribeRequest | Code/peer_node.py:139 | the request is dispatched to `subscribe`, and the server sees a topic name exactly when the name is non-empty |
| PeerClient.GetMessagesRequest | Code/peer_node.py:152-158 | the request is dispatched to `get_messages`, and the server reads back the cursor it carries |
| PeerClient.FollowMessages | Code/peer_node.py:160-166 | storing each retrieved index in turn leaves the last message's index as the topic's cursor, no change when there are no messages, and every other topic's cursor untouched |
| PeerClient.PullReachesLogEnd | Code/peer_node.py:160-166 | against a server log, a pull from cursor k returns something exactly when the log goes beyond k; the cursor then becomes the log's last index, which lies above k, so the cursor only grows |
| PeerClient.PeerNode.constructor | Code/peer_node.py:14-25 | a new peer has no id, no subscriptions and no cursors |
| PeerClient.PeerNode.Register | Code/peer_node.py:73-92 | the entered id, which is never blank, is adopted and sent with this peer's address in a request the server dispatches; success exactly on `registered` or `logged_in`; subscriptions and cursors unchanged |
| PeerClient.PeerNode.Deregister | Code/peer_node.py:94-104 | sends this peer's id; success exactly on `unregistered` |
| PeerClient.PeerNode.CreateTopic | Code/peer_node.py:114-120 | sends a `create_topic` request for the name under this peer's id |
| PeerClient.PeerNode.DeleteTopic | Code/peer_node.py:122-128 | sends a `delete_topic` request for the name under this peer's id |
| PeerClient.PeerNode.SendMessageToTopic | Code/peer_node.py:130-136 | sends a `send_message` request with the topic and the content under this peer's id |
| PeerClient.PeerNode.SubscribeTopic | Code/peer_node.py:138-145 | the topic joins the local set exactly when the answer is `subscribed`; id, address and cursors are unchanged |
| PeerClient.PeerNode.PullMessages | Code/peer_node.py:147-170 | a topic not subscribed locally sends nothing and changes nothing; otherwise the request carries the stored cursor or -1, and a `messages_retrieved` answer moves the cursor to the last message's index, while an empty answer or another status leaves it; id, address and subscriptions are unchanged |
| TestPeerClient.CreateTopicResult | Code/peer_node_test.py:128-132 | `topic_created` gives the fixed success text, `error` gives the server's message, and any other status gives "Unknown error" |
| TestPeerClient.AlreadyExistsReported | Code/Test_1.py:36-41 | creating an existing topic hands back a text containing "already exists", which is what the load test looks for |
| TestPeerClient.CreatedNotMistaken | Code/peer_node_test.py:128-129 | the success text never contains "already exists", so the load test cannot mistake a creation for a collision |
| TestPeerClient.PeerNode.constructor | Code/peer_node_test.py:14-25 | a new peer has no id, no subscriptions and no cursors |
| TestPeerClient.PeerNode.Register | Code/peer_node_test.py:81-96 | with no id or an empty id nothing is sent and the result is false; otherwise the preset id is sent in a request the server dispatches, and the result is true exactly on `registered` or `logged_in` |
| TestPeerClient.PeerNode.CreateTopic | Code/peer_node_test.py:121-132 | sends the `create_topic` request and hands back the outcome text for the answer |
| TestPeerClient.PeerNode.SubscribeTopic | Code/peer_node_test.py:156-163 | the topic joins the local set exactly when the answer is `subscribed`; id, address and cursors are unchanged |
| TestPeerClient.PeerNode.PullMessages | Code/peer_node_test.py:165-192 | an unsubscribed topic gives None with no request and no change; otherwise the stored cursor or -1 is sent; `messages_retrieved` gives the list, empty or not, and moves the cursor to the last index when non-empty; another status gives None and leaves the cursor; id, address and subscriptions are unchanged |
| Session.CursorFollowsServer | Code/peer_node.py:147-170 | a subscriber's pull with its stored cursor k is answered `messages_retrieved`, and following the answer sets the cursor to the log's last index when the log goes beyond k, and leaves all cursors alone otherwise |
| Session.RegisterRoundTrip | Code/peer_node.py:81-92 | from any consistent registry, registering a non-blank id succeeds, and the id is then registered on the server |
| Session.SubscribeRoundTrip | Code/peer_node.py:138-145 | subscribing to an existing topic with a registered host leaves the peer subscribed both locally and on the server |
| Session.PullRoundTrip | Code/peer_node.py:147-170 | a pull changes nothing on the server and moves the peer's cursor to the end of the topic's log when the log goes beyond it |
| Session.HandoverScenario | Code/indexing_server.py:83-100 | "a" and "b" register, "a" creates a topic and leaves; the topic's host is then "b" |
| Session.LastPeerScenario | Code/indexing_server.py:89-93 | the only peer creates a topic, publishes to it and leaves; no topic and no log remain |
| Session.PublishScenario | Code/indexing_server.py:159-181 | a subscriber pulling from -1 after "hello" gets (0, a, hello); after "world", pulling from 0 gets only (1, a, world), and pulling from 1 gets nothing |

## Left out

- The connection loop of `handle_client` (Code/indexing_server.py:27-49) is not modelled: sockets, asyncio, the 4096-byte reads and the serving of many connections. Each request is one atomic call of `HandleRequest`. This is I/O and cooperative concurrency, and no handler suspends in the middle of a change.
- JSON encoding and decoding are replaced by records. A non-string `topic`, a `null` `last_read`, or an undecodable payload cannot be expressed.
- Of the exceptions a handler can raise, only the unguarded host lookup of `subscribe` is modelled, as `Reply.Closed`. Missing `message` keys read while printing on the peer side are not modelled either.
- The peers file (`load_registered_peers`, `save_registered_peers`) and the configuration loading are file I/O. The server starts empty, so the registration order is the order of `register` requests.
- Logging and every `print` are output only.
- The peer's listening server, `handle_pull_messages` (a stub that always answers "Topic not found"), `find_available_port`, `connect_to_server`, `close`, the menus and the signal handlers are sockets and console I/O. The chosen port is a constructor parameter.
- `get_peer_id` is console input. Its result appears as the precondition `NotBlank` of `PeerClient.PeerNode.Register`, which approximates Python's `strip()` by the ASCII whitespace characters.
- `view_subscribed_topics` and `view_created_topics` on the peer only print. The server-side queries are modelled.
- The peer methods take the server's `Response` as a parameter. A connection closed by the server (which makes the peer's JSON decoding raise) is not fed to them.
- `send_message` of `peer_node_test.py` (lines 110-119) reconnects when there is no writer; this is socket handling. That file's `deregister` (lines 98-108) returns the same success flag as `PeerClient.PeerNode.Deregister`. Its `delete_topic`, `send_message_to_topic` and views print only. The requests of all four are the builders of `PeerClient`.
- Code/Test_1.py, Code/Test_2.py and Code/Test_3.py launch processes, measure wall-clock latency and plot. Only the "already exists" check of Code/Test_1.py is used.
- Registry.IndexingServer.UnregisterPeer: its ensures states the new tables through `Released` and `Surviving`. The per-topic consequences (re-hosting to the first remaining peer, deletion with the log, subscriber removal) are proved in `Registry.DepartureEffects` rather than spelled out in the method's own contract.
- Registry.IndexingServer.ViewSubscribedTopics: the ensures states membership and no repetition, not the order. The order is that of `Registry.TopicsSubscribedBy` over the creation order.

## Behaviour worth knowing

These points of the code may surprise a reader; the model follows the code in each.

- One might expect every topic's host to be a registered peer. `create_topic` does not check that the requester is registered (Code/indexing_server.py:108), so a topic can be hosted by an unknown id. A later `subscribe` then fails on the host's address lookup after the subscriber has been added (Code/indexing_server.py:133-135).
- One might expect subscriber sets to hold only registered peers. `subscribe` adds any requesting id, registered or not, and `unregister` removes only the departing peer.
- The replacement host is not just any surviving peer: it is the first remaining peer in registration order (Code/indexing_server.py:99-100).
- The peer stores whatever index its answer ends with, so its cursor does not grow by any check of its own. It only grows because the server's answers lie above the cursor (`PeerClient.PullReachesLogEnd`).
- Publishing also fails on an empty `topic` or empty `content`, not only on an unknown topic (Code/indexing_server.py:148).
