/*
 * The variant of the peer that the load tests drive.  The test sets the
 * peer's id directly instead of prompting for it, and the operations return
 * their outcome to the caller instead of only printing it.
 */
module TestPeerClient {
  import opened Protocol
  import opened Registry
  import opened PeerClient

  /** The outcome `create_topic` hands back for the server's answer. */
  function CreateTopicResult(resp: Response): (r: Option<string>)
    ensures resp.status == TopicCreated ==> r == Some("Topic created successfully")
    ensures resp.status == Error ==> r == resp.message
    ensures resp.status != TopicCreated && resp.status != Error ==> r == Some("Unknown error")
  {
    if resp.status == TopicCreated then Some("Topic created successfully")
    else if resp.status == Error then resp.message
    else Some("Unknown error")
  }

  /** `s` begins with `prefix`. */
  predicate StartsWith(s: string, prefix: string) {
    |prefix| <= |s| && s[..|prefix|] == prefix
  }

  /** `sub` occurs in `s` as a contiguous piece (Python's `sub in s`). */
  predicate Contains(s: string, sub: string) {
    StartsWith(s, sub) || (s != [] && Contains(s[1..], sub))
  }

  /** A piece of the tail of a string is a piece of the whole string. */
  lemma {:induction false} ContainsInTail(a: string, b: string, sub: string)
    requires Contains(b, sub)
    ensures Contains(a + b, sub)
  {
    if a != [] {
      assert (a + b)[1..] == a[1..] + b;
      ContainsInTail(a[1..], b, sub);
    } else {
      assert a + b == b;
    }
  }

  /** A string lacking one of the characters of `sub` does not contain `sub`. */
  lemma {:induction false} MissingCharacter(s: string, sub: string, c: char)
    requires c in sub && c !in s
    ensures !Contains(s, sub)
  {
    assert !StartsWith(s, sub) by {
      if |sub| <= |s| {
        var i :| 0 <= i < |sub| && sub[i] == c;
        assert s[..|sub|][i] == s[i] && s[i] in s;
      }
    }
    if s != [] {
      assert forall x :: x in s[1..] ==> x in s;
      MissingCharacter(s[1..], sub, c);
    }
  }

  /**
   * Creating a topic that already exists hands the caller a text containing
   * "already exists", which is how the load test recognises that case.
   */
  lemma AlreadyExistsReported(t: TopicName)
    ensures var r := CreateTopicResult(Failure(AlreadyExists(t)));
      r.Some? && Contains(r.value, "already exists")
  {
    var head := "Topic " + Quoted(t) + " ";
    var tail := "already exists.";
    assert AlreadyExists(t) == head + tail;
    assert StartsWith(tail, "already exists");
    ContainsInTail(head, tail, "already exists");
  }

  /** A created topic is reported with a fixed text, which never contains "already exists". */
  lemma CreatedNotMistaken(resp: Response)
    requires resp.status == TopicCreated
    ensures var r := CreateTopicResult(resp); r.Some? && !Contains(r.value, "already exists")
  {
    assert "already exists"[9] == 'x';
    MissingCharacter("Topic created successfully", "already exists", 'x');
  }

  /** The test peer: an id preset by the test (or none), its own address, and its subscription and cursor state. */
  class PeerNode {
    var peerId: Option<PeerId>
    var peerIp: string
    var peerPort: int
    var subscribedTopics: set<TopicName>
    var lastReadIndex: map<TopicName, int>

    /** A fresh peer listening at `ip`:`port`, with no id yet, no subscriptions and no cursors. */
    constructor(ip: string, port: int)
      ensures peerId.None? && peerIp == ip && peerPort == port
      ensures subscribedTopics == {} && lastReadIndex == map[]
    {
      peerId := None;
      peerIp, peerPort := ip, port;
      subscribedTopics, lastReadIndex := {}, map[];
    }

    /**
     * `register`: with no id set (or an empty one) nothing is sent and the
     * result is false; otherwise the id is sent with this peer's address and
     * the result is true exactly when the server answers `registered` or
     * `logged_in`.
     */
    method Register(resp: Response) returns (sent: Option<Request>, ok: bool)
      ensures peerId.None? || peerId.value == "" ==> sent.None? && !ok
      ensures peerId.Some? && peerId.value != "" ==>
        && sent == Some(RegisterRequest(peerId.value, peerIp, peerPort))
        && Dispatchable(sent.value)
        && (ok <==> resp.status == Registered || resp.status == LoggedIn)
    {
      if peerId.None? || peerId.value == "" {
        sent, ok := None, false;
        return;
      }
      sent := Some(RegisterRequest(peerId.value, peerIp, peerPort));
      ok := resp.status == Registered || resp.status == LoggedIn;
    }

    /** `create_topic`: ask for a topic hosted by this peer and hand back the outcome text. */
    method CreateTopic(name: TopicName, resp: Response) returns (sent: Request, result: Option<string>)
      ensures sent == CreateTopicRequest(peerId, name)
      ensures result == CreateTopicResult(resp)
    {
      sent := CreateTopicRequest(peerId, name);
      if resp.status == TopicCreated {
        result := Some("Topic created successfully");
      } else if resp.status == Error {
        result := resp.message;
      } else {
        result := Some("Unknown error");
      }
    }

    /** `subscribe_topic`: the topic joins the local set exactly when the server answers `subscribed`. */
    method SubscribeTopic(name: TopicName, resp: Response) returns (sent: Request)
      modifies this
      ensures sent == SubscribeRequest(peerId, name)
      ensures subscribedTopics == if resp.status == Subscribed then old(subscribedTopics) + {name} else old(subscribedTopics)
      ensures peerId == old(peerId) && lastReadIndex == old(lastReadIndex)
      ensures peerIp == old(peerIp) && peerPort == old(peerPort)
    {
      sent := SubscribeRequest(peerId, name);
      if resp.status == Subscribed {
        subscribedTopics := subscribedTopics + {name};
      }
    }

    /**
     * `pull_messages`: a topic not subscribed locally gives None, with no
     * request and no change.  Otherwise the request carries the stored
     * cursor (or -1); a `messages_retrieved` answer gives its list (empty or
     * not) and moves the cursor to the last message's index; any other
     * status gives None and leaves the cursor.
     */
    method PullMessages(name: TopicName, resp: Response) returns (sent: Option<Request>, result: Option<seq<Entry>>)
      modifies this
      ensures name !in old(subscribedTopics) ==>
        sent.None? && result.None? && lastReadIndex == old(lastReadIndex)
      ensures name in old(subscribedTopics) ==>
        sent == Some(GetMessagesRequest(peerId, name, Cursor(old(lastReadIndex), name)))
      ensures name in old(subscribedTopics) && resp.status == MessagesRetrieved ==>
        && result == Some(MessagesOf(resp))
        && lastReadIndex == Advanced(old(lastReadIndex), name, MessagesOf(resp))
      ensures name in old(subscribedTopics) && resp.status != MessagesRetrieved ==>
        result.None? && lastReadIndex == old(lastReadIndex)
      ensures peerId == old(peerId) && subscribedTopics == old(subscribedTopics)
      ensures peerIp == old(peerIp) && peerPort == old(peerPort)
    {
      if name !in subscribedTopics {
        sent, result := None, None;
        return;
      }
      var lastRead := Cursor(lastReadIndex, name);
      sent := Some(GetMessagesRequest(peerId, name, lastRead));
      if resp.status != MessagesRetrieved {
        result := None;
        return;
      }
      var msgs := MessagesOf(resp);
      if msgs != [] {
        lastReadIndex := FollowMessages(lastReadIndex, name, msgs);
        result := Some(msgs);
      } else {
        result := Some([]);
      }
    }
  }
}
