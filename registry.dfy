/*
 * The indexing server's registry: registered peers, topics with their host
 * and subscribers, and one append-only message log per topic.  Each handler
 * runs to completion without suspending, so each is one atomic method here.
 */
module Registry {
  import opened Protocol
  import opened Sequences

  /** A topic's record: its hosting peer and the set of its subscribers. */
  datatype Topic = Topic(host: PeerId, subscribers: set<PeerId>)

  /** The entries of `log` carry the indices n, n+1, n+2, ... in order. */
  predicate IndexedFrom(log: seq<Entry>, n: int) {
    forall i :: 0 <= i < |log| ==> log[i].index == n + i
  }

  /** A topic's log as the server keeps it: indices 0..N-1, no gaps, in append order. */
  predicate WellIndexed(log: seq<Entry>) {
    IndexedFrom(log, 0)
  }

  /** `j` clipped into 0..n. */
  function Clip(j: int, n: nat): (r: nat)
    ensures r <= n
  {
    if j < 0 then 0 else if j > n then n else j
  }

  /** The `last_read` a request carries, -1 when the field is absent. */
  function LastRead(req: Request): int {
    if req.lastRead.Some? then req.lastRead.value else -1
  }

  // ---------------------------------------------------------------------
  // Host assignment
  // ---------------------------------------------------------------------

  /**
   * The replacement host: the first peer, in registration order, other than
   * `oldHost`, or None when there is no such peer.
   */
  function SelectNewHost(order: seq<PeerId>, oldHost: PeerId): (r: Option<PeerId>)
    ensures r.Some? ==> r.value in order && r.value != oldHost
  {
    if order == [] then None
    else if order[0] != oldHost then Some(order[0])
    else SelectNewHost(order[1..], oldHost)
  }

  /**
   * The replacement is the peer at the first position not taken by
   * `oldHost`; there is none exactly when every peer is `oldHost`.  With
   * `oldHost` already gone it is simply the first peer.
   */
  lemma {:induction false} SelectNewHostFirst(order: seq<PeerId>, oldHost: PeerId)
    ensures SelectNewHost(order, oldHost).None? <==> forall p :: p in order ==> p == oldHost
    ensures SelectNewHost(order, oldHost).Some? ==>
      exists i :: 0 <= i < |order| && order[i] == SelectNewHost(order, oldHost).value && forall j :: 0 <= j < i ==> order[j] == oldHost
    ensures oldHost !in order ==> SelectNewHost(order, oldHost) == if order == [] then None else Some(order[0])
  {
    if order != [] && order[0] == oldHost {
      assert forall p :: p in order <==> p == order[0] || p in order[1..] by {
        assert order == [order[0]] + order[1..];
      }
      SelectNewHostFirst(order[1..], oldHost);
      var r := SelectNewHost(order[1..], oldHost);
      if r.Some? {
        var i :| 0 <= i < |order[1..]| && order[1..][i] == r.value && forall j :: 0 <= j < i ==> order[1..][j] == oldHost;
        assert order[i + 1] == r.value;
        forall j | 0 <= j < i + 1 ensures order[j] == oldHost {
          if j > 0 { assert order[j] == order[1..][j - 1]; }
        }
      }
    } else if order != [] {
      assert order[0] in order;
    }
  }

  /** Python truthiness of the replacement: `if new_host:` accepts a present, non-empty id. */
  predicate Viable(next: Option<PeerId>) {
    next.Some? && next.value != ""
  }

  /** Whether topic `d` outlives the departure of peer `p`, `next` being the replacement host. */
  predicate Kept(d: Topic, p: PeerId, next: Option<PeerId>) {
    d.host != p || Viable(next)
  }

  /** Topic `d` after peer `p` left: re-hosted to `next` if `p` hosted it, and `p` no longer subscribed. */
  function AfterDeparture(d: Topic, p: PeerId, next: Option<PeerId>): Topic
    requires Kept(d, p, next)
  {
    Topic(if d.host == p then next.value else d.host, d.subscribers - {p})
  }

  /**
   * The fate of one topic when peer `p` leaves, `order` being the peers still
   * registered: a topic `p` hosted survives exactly when some peer remains,
   * and then its new host is the earliest-registered remaining peer, which is
   * not `p`; a topic someone else hosts keeps its host.  In every case `p`
   * leaves the subscriber set.
   */
  lemma DepartureOutcome(d: Topic, p: PeerId, order: seq<PeerId>)
    requires p !in order
    requires forall q :: q in order ==> q != ""
    ensures Kept(d, p, SelectNewHost(order, p)) <==> d.host != p || order != []
    ensures Kept(d, p, SelectNewHost(order, p)) ==>
      var after := AfterDeparture(d, p, SelectNewHost(order, p));
      && p !in after.subscribers
      && after.subscribers == d.subscribers - {p}
      && (d.host == p ==> after.host == order[0] && after.host in order && after.host != p)
      && (d.host != p ==> after.host == d.host)
  {
    if order != [] {
      assert order[0] in order;
    }
  }

  /** Whether topic `t` is in the table and outlives the departure of `p`. */
  predicate KeptIn(topics: map<TopicName, Topic>, t: TopicName, p: PeerId, next: Option<PeerId>) {
    t in topics && Kept(topics[t], p, next)
  }

  /**
   * The topics of `order` that survive the departure of `p`, in their
   * original order.
   */
  function Surviving(order: seq<TopicName>, topics: map<TopicName, Topic>, p: PeerId, next: Option<PeerId>): (r: seq<TopicName>)
    ensures forall t {:trigger t in r} :: t in r <==> t in order && KeptIn(topics, t, p, next)
  {
    if order == [] then []
    else
      var last := order[|order| - 1];
      assert forall t :: t in order <==> t in order[..|order| - 1] || t == last by {
        assert order == order[..|order| - 1] + [last];
      }
      Surviving(order[..|order| - 1], topics, p, next) + (if KeptIn(topics, last, p, next) then [last] else [])
  }

  /**
   * The topic table after the departure of peer `p` has been applied to the
   * topics of `order`, one after another: a kept topic becomes its
   * `AfterDeparture` record, any other is deleted; topics outside `order` are
   * untouched.
   */
  function Released(order: seq<TopicName>, topics: map<TopicName, Topic>, p: PeerId, next: Option<PeerId>): (r: map<TopicName, Topic>)
    ensures r.Keys <= topics.Keys
  {
    if order == [] then topics
    else
      var last := order[|order| - 1];
      var m := Released(order[..|order| - 1], topics, p, next);
      if KeptIn(topics, last, p, next) then m[last := AfterDeparture(topics[last], p, next)] else m - {last}
  }

  /** A topic not yet reached by the pass keeps its original record. */
  lemma {:induction false} ReleasedOutside(order: seq<TopicName>, topics: map<TopicName, Topic>, p: PeerId, next: Option<PeerId>, t: TopicName)
    requires t in topics && t !in order
    ensures t in Released(order, topics, p, next) && Released(order, topics, p, next)[t] == topics[t]
  {
    if order != [] {
      var init := order[..|order| - 1];
      assert order == init + [order[|order| - 1]];
      ReleasedOutside(init, topics, p, next, t);
    }
  }

  /** A topic the pass has reached is kept exactly when `KeptIn` says so, and then holds its `AfterDeparture` record. */
  lemma {:induction false} ReleasedInside(order: seq<TopicName>, topics: map<TopicName, Topic>, p: PeerId, next: Option<PeerId>, t: TopicName)
    requires t in order
    ensures t in Released(order, topics, p, next) <==> KeptIn(topics, t, p, next)
    ensures KeptIn(topics, t, p, next) ==> Released(order, topics, p, next)[t] == AfterDeparture(topics[t], p, next)
  {
    var init := order[..|order| - 1];
    assert order == init + [order[|order| - 1]];
    if t != order[|order| - 1] {
      ReleasedInside(init, topics, p, next, t);
    }
  }

  /** Extending the scanned prefix by one topic applies the departure to that topic alone. */
  lemma ReleasedSnoc(s: seq<TopicName>, x: TopicName, topics: map<TopicName, Topic>, p: PeerId, next: Option<PeerId>)
    ensures Released(s + [x], topics, p, next)
         == if KeptIn(topics, x, p, next) then Released(s, topics, p, next)[x := AfterDeparture(topics[x], p, next)]
            else Released(s, topics, p, next) - {x}
  {
    assert (s + [x])[..|s|] == s;
  }

  /** Extending the scanned prefix by one topic appends it to the survivors exactly when it is kept. */
  lemma SurvivingSnoc(s: seq<TopicName>, x: TopicName, topics: map<TopicName, Topic>, p: PeerId, next: Option<PeerId>)
    ensures Surviving(s + [x], topics, p, next)
         == Surviving(s, topics, p, next) + (if KeptIn(topics, x, p, next) then [x] else [])
  {
    assert (s + [x])[..|s|] == s;
  }

  /** The survivors of a list without repetitions have no repetitions. */
  lemma {:induction false} SurvivingNoDup(order: seq<TopicName>, topics: map<TopicName, Topic>, p: PeerId, next: Option<PeerId>)
    requires NoDup(order)
    ensures NoDup(Surviving(order, topics, p, next))
  {
    if order != [] {
      var init := order[..|order| - 1];
      var last := order[|order| - 1];
      InitNoDup(order);
      SurvivingNoDup(init, topics, p, next);
      var s := Surviving(init, topics, p, next);
      assert Surviving(order, topics, p, next) == s + (if KeptIn(topics, last, p, next) then [last] else []);
      if KeptIn(topics, last, p, next) {
        SnocNoDup(s, last);
      } else {
        assert s + [] == s;
      }
    }
  }

  /**
   * The pass of `unregister` over a snapshot of the topics, made once the
   * departing peer `p` has been removed (`peerOrder` lists the peers that
   * remain): each topic `p` hosted is re-hosted to the replacement or, when
   * there is none, deleted together with its log; `p` leaves every
   * subscriber set.  Topics keep their relative order.
   */
  method ReleaseTopics(topics: map<TopicName, Topic>, topicOrder: seq<TopicName>,
                       messages: map<TopicName, seq<Entry>>, peerOrder: seq<PeerId>, p: PeerId)
    returns (ts: map<TopicName, Topic>, order: seq<TopicName>, logs: map<TopicName, seq<Entry>>)
    requires NoDup(topicOrder) && (forall t :: t in topicOrder <==> t in topics)
    requires messages.Keys == topics.Keys
    ensures NoDup(order) && (forall t :: t in order <==> t in ts)
    ensures logs.Keys == ts.Keys
    ensures order == Surviving(topicOrder, topics, p, SelectNewHost(peerOrder, p))
    ensures ts == Released(topicOrder, topics, p, SelectNewHost(peerOrder, p))
    ensures forall t :: t in logs ==> logs[t] == messages[t]
  {
    ts, order, logs := topics, topicOrder, messages;
    ghost var next := SelectNewHost(peerOrder, p);
    ghost var done: seq<TopicName> := [];
    ghost var kept: seq<TopicName> := [];
    var rest := topicOrder;
    while rest != []
      invariant topicOrder == done + rest
      invariant NoDup(rest)
      invariant ts == Released(done, topics, p, next)
      invariant kept == Surviving(done, topics, p, next)
      invariant order == kept + rest
      invariant logs.Keys == ts.Keys
      invariant forall t :: t in logs ==> logs[t] == messages[t]
      decreases |rest|
    {
      var t := rest[0];
      assert t in topics by {
        assert t in topicOrder by { assert topicOrder[|done|] == t; }
      }
      HeadFresh(topicOrder, done, rest);
      PassStep(topics, p, next, done, rest, kept);
      ghost var alive := KeptIn(topics, t, p, next);
      ts, order, logs := ReleaseTopic(t, ts, order, logs, peerOrder, p);
      if alive {
        kept := kept + [t];
      }
      done := done + [t];
      rest := rest[1..];
    }
    assert done == topicOrder && order == kept;
    SurvivorsReleased(topicOrder, topics, p, next);
  }

  /**
   * What the pass does to each topic when peer `p` leaves and `peerOrder`
   * lists the peers that remain: a topic `p` hosted survives exactly when
   * some peer remains, and then the earliest-registered one hosts it; a
   * topic someone else hosts survives with its host; no surviving topic
   * keeps `p` as a subscriber.
   */
  lemma DepartureEffects(topicOrder: seq<TopicName>, topics: map<TopicName, Topic>, peerOrder: seq<PeerId>, p: PeerId, t: TopicName)
    requires t in topicOrder && t in topics
    requires p !in peerOrder && forall q :: q in peerOrder ==> q != ""
    ensures var r := Released(topicOrder, topics, p, SelectNewHost(peerOrder, p));
      && (t in r <==> topics[t].host != p || peerOrder != [])
      && (t in r ==> p !in r[t].subscribers && r[t].subscribers == topics[t].subscribers - {p})
      && (t in r && topics[t].host == p ==> r[t].host == peerOrder[0] && r[t].host != p)
      && (t in r && topics[t].host != p ==> r[t].host == topics[t].host)
  {
    ReleasedInside(topicOrder, topics, p, SelectNewHost(peerOrder, p), t);
    DepartureOutcome(topics[t], p, peerOrder);
  }

  /** The survivors of the pass, in order, are exactly the keys left in the released table, each once. */
  lemma SurvivorsReleased(topicOrder: seq<TopicName>, topics: map<TopicName, Topic>, p: PeerId, next: Option<PeerId>)
    requires NoDup(topicOrder) && (forall t :: t in topicOrder <==> t in topics)
    ensures NoDup(Surviving(topicOrder, topics, p, next))
    ensures forall t :: t in Surviving(topicOrder, topics, p, next) <==> t in Released(topicOrder, topics, p, next)
  {
    SurvivingNoDup(topicOrder, topics, p, next);
    forall t | t in topics
      ensures t in Surviving(topicOrder, topics, p, next) <==> t in Released(topicOrder, topics, p, next)
    {
      ReleasedInside(topicOrder, topics, p, next, t);
    }
  }

  /**
   * The head of the unscanned part `rest` of a list without repetitions was
   * not scanned before and does not come again.
   */
  lemma HeadFresh(topicOrder: seq<TopicName>, done: seq<TopicName>, rest: seq<TopicName>)
    requires NoDup(topicOrder) && topicOrder == done + rest && NoDup(rest) && rest != []
    ensures rest[0] !in done && rest[0] !in rest[1..] && NoDup(rest[1..])
    ensures topicOrder == done + [rest[0]] + rest[1..]
  {
    NoDupSplit(done, rest);
    assert done + rest == done + [rest[0]] + rest[1..];
  }

  /**
   * Scanning a fresh topic `t`, the head of `rest`: it still has its
   * original record, and the released table and the survivors grow by `t`
   * alone; deleting `t` from `kept + rest` leaves `kept + rest[1..]`.
   */
  lemma PassStep(topics: map<TopicName, Topic>, p: PeerId, next: Option<PeerId>,
                 done: seq<TopicName>, rest: seq<TopicName>, kept: seq<TopicName>)
    requires rest != [] && rest[0] !in done && rest[0] !in rest[1..] && rest[0] in topics
    requires kept == Surviving(done, topics, p, next)
    ensures rest[0] in Released(done, topics, p, next) && Released(done, topics, p, next)[rest[0]] == topics[rest[0]]
    ensures Released(done + [rest[0]], topics, p, next)
         == if KeptIn(topics, rest[0], p, next)
            then Released(done, topics, p, next)[rest[0] := AfterDeparture(topics[rest[0]], p, next)]
            else Released(done, topics, p, next) - {rest[0]}
    ensures KeptIn(topics, rest[0], p, next) ==>
      Surviving(done + [rest[0]], topics, p, next) == kept + [rest[0]] && kept + [rest[0]] + rest[1..] == kept + rest
    ensures !KeptIn(topics, rest[0], p, next) ==>
      Surviving(done + [rest[0]], topics, p, next) == kept && Without(kept + rest, rest[0]) == kept + rest[1..]
  {
    var t := rest[0];
    assert rest == [t] + rest[1..];
    SurvivingSnoc(done, t, topics, p, next);
    ReleasedSnoc(done, t, topics, p, next);
    ReleasedOutside(done, topics, p, next, t);
    assert kept + [t] + rest[1..] == kept + rest;
    if !KeptIn(topics, t, p, next) {
      assert t !in kept;
      RemoveHead(kept, t, rest[1..]);
    }
  }

  /**
   * One step of the `unregister` pass, on topic `t`: if the departing peer
   * `p` hosts it, the first remaining peer takes over, or, when there is
   * none, the topic and its log are deleted; `p` leaves its subscribers.
   */
  method ReleaseTopic(t: TopicName, ts: map<TopicName, Topic>, order: seq<TopicName>,
                      logs: map<TopicName, seq<Entry>>, peerOrder: seq<PeerId>, p: PeerId)
    returns (ts': map<TopicName, Topic>, order': seq<TopicName>, logs': map<TopicName, seq<Entry>>)
    requires t in ts
    ensures Kept(ts[t], p, SelectNewHost(peerOrder, p)) ==>
      ts' == ts[t := AfterDeparture(ts[t], p, SelectNewHost(peerOrder, p))] && order' == order && logs' == logs
    ensures !Kept(ts[t], p, SelectNewHost(peerOrder, p)) ==>
      ts' == ts - {t} && order' == Without(order, t) && logs' == logs - {t}
  {
    ts', order', logs' := ts, order, logs;
    var data := ts[t];
    var alive := true;
    if data.host == p {
      var newHost := SelectNewHost(peerOrder, p);
      if newHost.Some? && newHost.value != "" {
        data := data.(host := newHost.value);
      } else {
        alive := false;
        ts' := ts' - {t};
        order' := Without(order', t);
        if t in logs' {
          logs' := logs' - {t};
        }
      }
    }
    data := data.(subscribers := data.subscribers - {p});
    if alive {
      ts' := ts'[t := data];
    }
  }

  // ---------------------------------------------------------------------
  // Message retrieval
  // ---------------------------------------------------------------------

  /** The entries of `log` whose index exceeds `lastRead`, in log order. */
  function NewMessages(log: seq<Entry>, lastRead: int): (r: seq<Entry>)
    ensures forall e {:trigger e in r} :: e in r <==> e in log && e.index > lastRead
    ensures |r| <= |log|
  {
    if log == [] then []
    else
      assert forall e :: e in log <==> e == log[0] || e in log[1..] by {
        assert log == [log[0]] + log[1..];
      }
      (if log[0].index > lastRead then [log[0]] else []) + NewMessages(log[1..], lastRead)
  }

  /** On a log indexed from `n`, the new messages after `lastRead` are one suffix of the log. */
  lemma {:induction false} NewMessagesIndexed(log: seq<Entry>, n: int, lastRead: int)
    requires IndexedFrom(log, n)
    ensures NewMessages(log, lastRead) == log[Clip(lastRead + 1 - n, |log|)..]
  {
    if log != [] {
      assert IndexedFrom(log[1..], n + 1) by {
        forall i | 0 <= i < |log[1..]| ensures log[1..][i].index == n + 1 + i {
          assert log[1..][i] == log[i + 1];
        }
      }
      NewMessagesIndexed(log[1..], n + 1, lastRead);
      assert log[0].index == n;
      if n > lastRead {
        assert NewMessages(log, lastRead) == [log[0]] + log[1..];
        assert [log[0]] + log[1..] == log;
      } else {
        var k := Clip(lastRead - n, |log| - 1);
        assert NewMessages(log, lastRead) == log[1..][k..];
        assert Clip(lastRead + 1 - n, |log|) == k + 1;
        assert log[1..][k..] == log[k + 1..];
      }
    }
  }

  /**
   * On a server log, `get_messages` with cursor `lastRead` returns exactly
   * the entries from index lastRead+1 on, in order; and a larger cursor
   * returns a suffix of what a smaller one returns.
   */
  lemma RetrievedSuffix(log: seq<Entry>, lastRead: int, later: int)
    requires WellIndexed(log)
    requires lastRead <= later
    ensures NewMessages(log, lastRead) == log[Clip(lastRead + 1, |log|)..]
    ensures IsSuffix(NewMessages(log, later), NewMessages(log, lastRead))
  {
    NewMessagesIndexed(log, 0, lastRead);
    NewMessagesIndexed(log, 0, later);
  }

  /** `a` is what remains of `b` after dropping some of its first entries. */
  predicate IsSuffix(a: seq<Entry>, b: seq<Entry>) {
    |a| <= |b| && a == b[|b| - |a|..]
  }

  /** Every entry retrieved lies above the cursor, and they ascend strictly. */
  lemma RetrievedAscending(log: seq<Entry>, lastRead: int)
    requires WellIndexed(log)
    ensures var r := NewMessages(log, lastRead);
      forall i, j :: 0 <= i < j < |r| ==> lastRead < r[i].index < r[j].index
  {
    NewMessagesIndexed(log, 0, lastRead);
  }

  // ---------------------------------------------------------------------
  // Topic listings
  // ---------------------------------------------------------------------

  /** The topics of `order` whose subscriber set contains `p`, in that order. */
  function TopicsSubscribedBy(order: seq<TopicName>, topics: map<TopicName, Topic>, p: PeerId): (r: seq<TopicName>)
    ensures forall t {:trigger t in r} :: t in r <==> t in order && t in topics && p in topics[t].subscribers
    ensures NoDup(order) ==> NoDup(r)
  {
    if order == [] then []
    else
      var last := order[|order| - 1];
      var front := order[..|order| - 1];
      assert order == front + [last];
      assert forall t :: t in order <==> t in front || t == last;
      var r := TopicsSubscribedBy(front, topics, p);
      if last in topics && p in topics[last].subscribers then
        assert NoDup(order) ==> NoDup(r + [last]) by {
          if NoDup(order) {
            InitNoDup(order);
            SnocNoDup(r, last);
          }
        }
        r + [last]
      else
        assert NoDup(order) ==> NoDup(r) by {
          if NoDup(order) { InitNoDup(order); }
        }
        r
  }

  // ---------------------------------------------------------------------
  // Response texts
  // ---------------------------------------------------------------------

  function Quoted(t: string): string { "'" + t + "'" }

  const MissingTopic := "Missing 'topic' field."

  function NoSuchTopic(t: TopicName): string { "Topic " + Quoted(t) + " does not exist." }

  function AlreadyExists(t: TopicName): string { "Topic " + Quoted(t) + " already exists." }

  function NotSubscribed(p: PeerId, t: TopicName): string {
    "Peer " + p + " is not subscribed to topic " + Quoted(t) + "."
  }

  /**
   * The registry's invariant: the order sequences list exactly the keys of
   * their maps, once each; every registered id and every topic name is
   * non-empty; every topic has a log and every log a topic; and every log
   * is indexed 0..N-1.
   */
  ghost predicate Consistent(peers: map<PeerId, Address>, peerOrder: seq<PeerId>,
                             topics: map<TopicName, Topic>, topicOrder: seq<TopicName>,
                             messages: map<TopicName, seq<Entry>>)
  {
    && NoDup(peerOrder)
    && (forall p :: p in peerOrder <==> p in peers)
    && (forall p :: p in peers ==> p != "")
    && NoDup(topicOrder)
    && (forall t :: t in topicOrder <==> t in topics)
    && (forall t :: t in topics ==> t != "")
    && messages.Keys == topics.Keys
    && (forall t :: t in messages ==> WellIndexed(messages[t]))
  }

  /** The departure of `p`, as `unregister` carries it out, keeps the registry consistent. */
  lemma DepartureConsistent(peers: map<PeerId, Address>, peerOrder: seq<PeerId>,
                            topics: map<TopicName, Topic>, topicOrder: seq<TopicName>,
                            messages: map<TopicName, seq<Entry>>, p: PeerId,
                            ts: map<TopicName, Topic>, order: seq<TopicName>, logs: map<TopicName, seq<Entry>>)
    requires Consistent(peers, peerOrder, topics, topicOrder, messages)
    requires NoDup(order) && (forall t :: t in order <==> t in ts) && ts.Keys <= topics.Keys
    requires logs.Keys == ts.Keys && forall t :: t in logs ==> logs[t] == messages[t]
    ensures Consistent(peers - {p}, Without(peerOrder, p), ts, order, logs)
  {
    forall t | t in logs ensures WellIndexed(logs[t]) {
      assert t in messages;
    }
  }

  // ---------------------------------------------------------------------
  // The server
  // ---------------------------------------------------------------------

  class IndexingServer {
    /** peer_id -> address. */
    var peers: map<PeerId, Address>
    /** The keys of `peers` in registration order. */
    var peerOrder: seq<PeerId>
    /** topic name -> host and subscribers. */
    var topics: map<TopicName, Topic>
    /** The keys of `topics` in creation order. */
    var topicOrder: seq<TopicName>
    /** topic name -> message log. */
    var messages: map<TopicName, seq<Entry>>

    /** The registry's invariant, on the current contents of the tables. */
    ghost predicate Valid()
      reads this
    {
      Consistent(peers, peerOrder, topics, topicOrder, messages)
    }

    /** A server that starts with no peers, topics or messages. */
    constructor ()
      ensures Valid()
      ensures peers == map[] && topics == map[] && messages == map[]
      ensures peerOrder == [] && topicOrder == []
    {
      peers, peerOrder := map[], [];
      topics, topicOrder := map[], [];
      messages := map[];
    }

    /**
     * The effect of `register`: a known id is logged in and nothing changes (the stored
     * address is kept); a new id is stored with the request's address.
     */
    twostate predicate RegisterDone(req: Request, peerId: PeerId, resp: Response)
      reads this
    {
      && (old(peerId in peers) ==>
        && resp == Done(LoggedIn, "Peer " + peerId + " already registered. Logging in.")
        && unchanged(this))
      && (old(peerId !in peers) ==>
        && resp == Done(Registered, "New user " + peerId + " registered and logged in successfully.")
        && peers == old(peers)[peerId := Address(req.ip, req.port)]
        && peerOrder == old(peerOrder) + [peerId]
        && topics == old(topics) && topicOrder == old(topicOrder) && messages == old(messages))
    }

    /** The `register` handler; its whole effect is `RegisterDone`. */
    method RegisterPeer(req: Request, peerId: PeerId) returns (resp: Response)
      requires Valid()
      requires peerId != ""
      modifies this
      ensures Valid()
      ensures RegisterDone(req, peerId, resp)
    {
      if peerId in peers {
        resp := Done(LoggedIn, "Peer " + peerId + " already registered. Logging in.");
        return;
      }
      SnocNoDup(peerOrder, peerId);
      peers := peers[peerId := Address(req.ip, req.port)];
      peerOrder := peerOrder + [peerId];
      resp := Done(Registered, "New user " + peerId + " registered and logged in successfully.");
    }

    /**
     * The effect of `unregister`: an unknown id is an error with no change.  Otherwise the
     * peer is removed; then, in one pass over the topics, every topic it
     * hosted is handed to the earliest-registered remaining peer, or deleted
     * with its log when none remains, and the peer leaves every subscriber
     * set.
     */
    twostate predicate UnregisterDone(req: Request, peerId: PeerId, resp: Response)
      reads this
    {
      && (old(peerId !in peers) ==>
        resp == Failure("Peer " + peerId + " does not exist.") && unchanged(this))
      && (old(peerId in peers) ==>
        && resp == Done(Unregistered, "Peer " + peerId + " unregistered successfully.")
        && peers == old(peers) - {peerId}
        && peerOrder == Without(old(peerOrder), peerId)
        && topicOrder == Surviving(old(topicOrder), old(topics), peerId, SelectNewHost(peerOrder, peerId))
        && topics == Released(old(topicOrder), old(topics), peerId, SelectNewHost(peerOrder, peerId))
        && messages.Keys <= old(messages).Keys
        && (forall t :: t in messages ==> messages[t] == old(messages)[t]))
    }

    /** The `unregister` handler; its whole effect is `UnregisterDone`. */
    method UnregisterPeer(req: Request, peerId: PeerId) returns (resp: Response)
      requires Valid()
      modifies this
      ensures Valid()
      ensures UnregisterDone(req, peerId, resp)
    {
      if peerId !in peers {
        resp := Failure("Peer " + peerId + " does not exist.");
        return;
      }
      var remaining := Without(peerOrder, peerId);
      var ts, order, logs := ReleaseTopics(topics, topicOrder, messages, remaining, peerId);
      DepartureConsistent(peers, peerOrder, topics, topicOrder, messages, peerId, ts, order, logs);
      peers, peerOrder := peers - {peerId}, remaining;
      topics, topicOrder, messages := ts, order, logs;
      resp := Done(Unregistered, "Peer " + peerId + " unregistered successfully.");
    }

    /**
     * The effect of `create_topic`: a missing or empty name, or a name already in use, is
     * an error with no change; otherwise the topic is created with the
     * requester as host (whether or not it is registered), no subscribers
     * and an empty log.
     */
    twostate predicate CreateTopicDone(req: Request, peerId: PeerId, resp: Response)
      reads this
    {
      && (!Present(req.topic) ==> resp == Failure(MissingTopic) && unchanged(this))
      && (Present(req.topic) && old(req.topic.value in topics) ==>
        resp == Failure(AlreadyExists(req.topic.value)) && unchanged(this))
      && (Present(req.topic) && old(req.topic.value !in topics) ==>
        var t := req.topic.value;
        && resp == Done(TopicCreated, "Topic " + Quoted(t) + " created successfully.")
        && topics == old(topics)[t := Topic(peerId, {})]
        && topicOrder == old(topicOrder) + [t]
        && messages == old(messages)[t := []]
        && peers == old(peers) && peerOrder == old(peerOrder))
    }

    /** The `create_topic` handler; its whole effect is `CreateTopicDone`. */
    method CreateTopic(req: Request, peerId: PeerId) returns (resp: Response)
      requires Valid()
      modifies this
      ensures Valid()
      ensures CreateTopicDone(req, peerId, resp)
    {
      if !Present(req.topic) {
        resp := Failure(MissingTopic);
        return;
      }
      var t := req.topic.value;
      if t in topics {
        resp := Failure(AlreadyExists(t));
        return;
      }
      SnocNoDup(topicOrder, t);
      topics := topics[t := Topic(peerId, {})];
      topicOrder := topicOrder + [t];
      messages := messages[t := []];
      resp := Done(TopicCreated, "Topic " + Quoted(t) + " created successfully.");
    }

    /**
     * The effect of `delete_topic`: a missing name, an unknown topic, or a requester that
     * is not the current host is an error with no change; otherwise the
     * topic and its whole log are removed together.
     */
    twostate predicate DeleteTopicDone(req: Request, peerId: PeerId, resp: Response)
      reads this
    {
      && (!Present(req.topic) ==> resp == Failure(MissingTopic) && unchanged(this))
      && (Present(req.topic) && old(req.topic.value !in topics) ==>
        resp == Failure(NoSuchTopic(req.topic.value)) && unchanged(this))
      && (Present(req.topic) && old(req.topic.value in topics && topics[req.topic.value].host != peerId) ==>
        && resp == Failure("Peer " + peerId + " is not the host of topic " + Quoted(req.topic.value) + ".")
        && unchanged(this))
      && (Present(req.topic) && old(req.topic.value in topics && topics[req.topic.value].host == peerId) ==>
        var t := req.topic.value;
        && resp == Done(TopicDeleted, "Topic " + Quoted(t) + " deleted successfully.")
        && topics == old(topics) - {t}
        && topicOrder == Without(old(topicOrder), t)
        && messages == old(messages) - {t}
        && peers == old(peers) && peerOrder == old(peerOrder))
    }

    /** The `delete_topic` handler; its whole effect is `DeleteTopicDone`. */
    method DeleteTopic(req: Request, peerId: PeerId) returns (resp: Response)
      requires Valid()
      modifies this
      ensures Valid()
      ensures DeleteTopicDone(req, peerId, resp)
    {
      if !Present(req.topic) {
        resp := Failure(MissingTopic);
        return;
      }
      var t := req.topic.value;
      if t !in topics {
        resp := Failure(NoSuchTopic(t));
        return;
      }
      if topics[t].host != peerId {
        resp := Failure("Peer " + peerId + " is not the host of topic " + Quoted(t) + ".");
        return;
      }
      topics := topics - {t};
      topicOrder := Without(topicOrder, t);
      if t in messages {
        messages := messages - {t};
      }
      resp := Done(TopicDeleted, "Topic " + Quoted(t) + " deleted successfully.");
    }

    /**
     * The effect of `subscribe`: a missing name or an unknown topic is an error with no
     * change.  Otherwise the requester joins the subscriber set (a no-op if
     * already there) and the answer carries the host's id and address.  The
     * host's address is looked up without a guard: when the host is not a
     * registered peer the lookup raises after the subscription was recorded,
     * and the connection is closed without a response.
     */
    twostate predicate SubscribeDone(req: Request, peerId: PeerId, reply: Reply)
      reads this
    {
      && (!Present(req.topic) ==> reply == Sent(Failure(MissingTopic)) && unchanged(this))
      && (Present(req.topic) && old(req.topic.value !in topics) ==>
        reply == Sent(Failure(NoSuchTopic(req.topic.value))) && unchanged(this))
      && (Present(req.topic) && old(req.topic.value in topics) ==>
        var t := req.topic.value;
        var host := old(topics)[t].host;
        && topics == old(topics)[t := Topic(host, old(topics)[t].subscribers + {peerId})]
        && peers == old(peers) && peerOrder == old(peerOrder)
        && topicOrder == old(topicOrder) && messages == old(messages)
        && (host in peers ==> reply == Sent(Response(Subscribed,
              Some("Subscribed to topic " + Quoted(t) + " successfully."),
              Some(HostAddress(host, peers[host].ip, peers[host].port)), None, None)))
        && (host !in peers ==> reply == Closed))
    }

    /** The `subscribe` handler; its whole effect is `SubscribeDone`. */
    method SubscribeTopic(req: Request, peerId: PeerId) returns (reply: Reply)
      requires Valid()
      modifies this
      ensures Valid()
      ensures SubscribeDone(req, peerId, reply)
      ensures Present(req.topic) && old(req.topic.value in topics && peerId in topics[req.topic.value].subscribers) ==>
        topics == old(topics)
    {
      if !Present(req.topic) {
        reply := Sent(Failure(MissingTopic));
        return;
      }
      var t := req.topic.value;
      if t !in topics {
        reply := Sent(Failure(NoSuchTopic(t)));
        return;
      }
      if peerId in topics[t].subscribers {
        assert topics[t].(subscribers := topics[t].subscribers + {peerId}) == topics[t];
      }
      topics := topics[t := topics[t].(subscribers := topics[t].subscribers + {peerId})];
      var host := topics[t].host;
      if host !in peers {
        reply := Closed;
        return;
      }
      var address := peers[host];
      reply := Sent(Response(Subscribed,
        Some("Subscribed to topic " + Quoted(t) + " successfully."),
        Some(HostAddress(host, address.ip, address.port)), None, None));
    }

    /**
     * The effect of `send_message`: a missing or empty topic or content, or an unknown
     * topic, is an error with no change.  Otherwise, whoever the sender is,
     * the entry (N, sender, content) is appended to the topic's log of
     * length N, so the log stays indexed 0..N.
     */
    twostate predicate SendMessageDone(req: Request, peerId: PeerId, resp: Response)
      requires old(Valid())
      reads this
    {
      && (!Present(req.topic) || !Present(req.content) ==>
        resp == Failure("Missing 'topic' or 'content' field.") && unchanged(this))
      && (Present(req.topic) && Present(req.content) && old(req.topic.value !in topics) ==>
        resp == Failure(NoSuchTopic(req.topic.value)) && unchanged(this))
      && (Present(req.topic) && Present(req.content) && old(req.topic.value in topics) ==>
        var t := req.topic.value;
        && resp == Done(MessageSent, "Message sent successfully.")
        && messages == old(messages)[t := old(messages)[t] + [Entry(|old(messages)[t]|, peerId, req.content.value)]]
        && peers == old(peers) && peerOrder == old(peerOrder)
        && topics == old(topics) && topicOrder == old(topicOrder))
    }

    /** The `send_message` handler; its whole effect is `SendMessageDone`. */
    method SendMessage(req: Request, peerId: PeerId) returns (resp: Response)
      requires Valid()
      modifies this
      ensures Valid()
      ensures SendMessageDone(req, peerId, resp)
    {
      if !Present(req.topic) || !Present(req.content) {
        resp := Failure("Missing 'topic' or 'content' field.");
        return;
      }
      var t := req.topic.value;
      if t !in topics {
        resp := Failure(NoSuchTopic(t));
        return;
      }
      var log := if t in messages then messages[t] else [];
      var index := |log|;
      messages := messages[t := log + [Entry(index, peerId, req.content.value)]];
      resp := Done(MessageSent, "Message sent successfully.");
    }

    /**
     * `get_messages`: a missing name, an unknown topic or a requester that is
     * not subscribed is an error; otherwise the answer holds exactly the log
     * entries from index last_read+1 on (last_read defaulting to -1), in log
     * order.  Nothing changes.
     */
    function GetMessages(req: Request, peerId: PeerId): (resp: Response)
      reads this
      requires Valid()
      ensures !Present(req.topic) ==> resp == Failure(MissingTopic)
      ensures Present(req.topic) && req.topic.value !in topics ==> resp == Failure(NoSuchTopic(req.topic.value))
      ensures Present(req.topic) && req.topic.value in topics && peerId !in topics[req.topic.value].subscribers ==>
        resp == Failure(NotSubscribed(peerId, req.topic.value))
      ensures Present(req.topic) && req.topic.value in topics && peerId in topics[req.topic.value].subscribers ==>
        var log := messages[req.topic.value];
        && resp.status == MessagesRetrieved
        && resp.messages == Some(log[Clip(LastRead(req) + 1, |log|)..])
        && resp.message.None? && resp.hostPeer.None? && resp.topics.None?
    {
      var lastRead := LastRead(req);
      if !Present(req.topic) then Failure(MissingTopic)
      else
        var t := req.topic.value;
        if t !in topics then Failure(NoSuchTopic(t))
        else if peerId !in topics[t].subscribers then Failure(NotSubscribed(peerId, t))
        else
          var log := if t in messages then messages[t] else [];
          RetrievedSuffix(log, lastRead, lastRead);
          Response(MessagesRetrieved, None, None, Some(NewMessages(log, lastRead)), None)
    }

    /** `view_subscribed_topics`: the topics whose subscribers include the requester, each once. */
    function ViewSubscribedTopics(peerId: PeerId): (resp: Response)
      reads this
      requires Valid()
      ensures resp.status == SubscribedTopics && resp.topics.Some?
      ensures forall t :: t in resp.topics.value <==> t in topics && peerId in topics[t].subscribers
      ensures NoDup(resp.topics.value)
    {
      Response(SubscribedTopics, None, None, None, Some(TopicsSubscribedBy(topicOrder, topics, peerId)))
    }

    /** `view_created_topics`: every existing topic, each once, in creation order, whoever asks. */
    function ViewCreatedTopics(peerId: PeerId): (resp: Response)
      reads this
      requires Valid()
      ensures resp.status == CreatedTopics && resp.topics.Some?
      ensures forall t :: t in resp.topics.value <==> t in topics
      ensures NoDup(resp.topics.value)
      ensures resp.topics == Some(topicOrder)
    {
      Response(CreatedTopics, None, None, None, Some(topicOrder))
    }

    /** `get_topic_host`: the current host's id, or an error for a missing name or an unknown topic. */
    function GetTopicHost(req: Request, peerId: PeerId): (resp: Response)
      reads this
      requires Valid()
      ensures !Present(req.topic) ==> resp == Failure(MissingTopic)
      ensures Present(req.topic) && req.topic.value !in topics ==> resp == Failure(NoSuchTopic(req.topic.value))
      ensures Present(req.topic) && req.topic.value in topics ==>
        resp.status == Success && resp.hostPeer == Some(HostId(topics[req.topic.value].host))
    {
      if !Present(req.topic) then Failure(MissingTopic)
      else if req.topic.value !in topics then Failure(NoSuchTopic(req.topic.value))
      else Response(Success, None, Some(HostId(topics[req.topic.value].host)), None, None)
    }

    /**
     * The effect of dispatching `action` through the table: an unknown action
     * is an error naming it, with no change; every known action has exactly
     * the effect of its own handler, and the queries change nothing.
     */
    twostate predicate ActionDone(action: string, req: Request, peerId: PeerId, reply: Reply)
      requires old(Valid()) && Valid()
      reads this
    {
      match ParseAction(action)
      case None => reply == Sent(Failure("Unknown action " + Quoted(action) + ".")) && unchanged(this)
      case Some(RegisterAction) => reply.Sent? && RegisterDone(req, peerId, reply.response)
      case Some(UnregisterAction) => reply.Sent? && UnregisterDone(req, peerId, reply.response)
      case Some(CreateTopicAction) => reply.Sent? && CreateTopicDone(req, peerId, reply.response)
      case Some(DeleteTopicAction) => reply.Sent? && DeleteTopicDone(req, peerId, reply.response)
      case Some(SubscribeAction) => SubscribeDone(req, peerId, reply)
      case Some(SendMessageAction) => reply.Sent? && SendMessageDone(req, peerId, reply.response)
      case Some(GetMessagesAction) => reply == Sent(GetMessages(req, peerId)) && unchanged(this)
      case Some(ViewSubscribedTopicsAction) => reply == Sent(ViewSubscribedTopics(peerId)) && unchanged(this)
      case Some(ViewCreatedTopicsAction) => reply == Sent(ViewCreatedTopics(peerId)) && unchanged(this)
      case Some(GetTopicHostAction) => reply == Sent(GetTopicHost(req, peerId)) && unchanged(this)
    }

    /**
     * `process_action`: look the action up in the table and run its handler.
     * Besides the handler's own effect: `register` always succeeds, a
     * `subscribe` to a topic with a registered host succeeds, and only
     * `subscribe` can end without a response.
     */
    method ProcessAction(action: string, req: Request, peerId: PeerId) returns (reply: Reply)
      requires Valid()
      requires peerId != ""
      modifies this
      ensures Valid()
      ensures ActionDone(action, req, peerId, reply)
      ensures reply.Closed? ==> ParseAction(action) == Some(SubscribeAction)
      ensures ParseAction(action) == Some(RegisterAction) ==>
        reply.Sent? && reply.response.status in {Registered, LoggedIn} && peerId in peers
      ensures (ParseAction(action) == Some(SubscribeAction) && Present(req.topic)
        && old(req.topic.value in topics && topics[req.topic.value].host in peers)) ==>
        && reply.Sent? && reply.response.status == Subscribed
        && req.topic.value in topics && peerId in topics[req.topic.value].subscribers
    {
      match ParseAction(action)
      case None =>
        reply := Sent(Failure("Unknown action " + Quoted(action) + "."));
      case Some(a) =>
        match a
        case RegisterAction =>
          var resp := RegisterPeer(req, peerId);
          reply := Sent(resp);
        case UnregisterAction =>
          var resp := UnregisterPeer(req, peerId);
          reply := Sent(resp);
        case CreateTopicAction =>
          var resp := CreateTopic(req, peerId);
          reply := Sent(resp);
        case DeleteTopicAction =>
          var resp := DeleteTopic(req, peerId);
          reply := Sent(resp);
        case SubscribeAction =>
          reply := SubscribeTopic(req, peerId);
        case SendMessageAction =>
          var resp := SendMessage(req, peerId);
          reply := Sent(resp);
        case GetMessagesAction =>
          reply := Sent(GetMessages(req, peerId));
        case ViewSubscribedTopicsAction =>
          reply := Sent(ViewSubscribedTopics(peerId));
        case ViewCreatedTopicsAction =>
          reply := Sent(ViewCreatedTopics(peerId));
        case GetTopicHostAction =>
          reply := Sent(GetTopicHost(req, peerId));
    }

    /**
     * One request on a connection: a request without a non-empty `action`
     * and `peer_id` is answered with a validation error and changes nothing;
     * any other request has the effect its action has in the table.  The
     * last three clauses spell out the cases the round trips rely on.
     */
    method HandleRequest(req: Request) returns (reply: Reply)
      requires Valid()
      modifies this
      ensures Valid()
      ensures !Dispatchable(req) ==>
        reply == Sent(Failure("Missing 'action' or 'peer_id'.")) && unchanged(this)
      ensures Dispatchable(req) ==> ActionDone(req.action.value, req, req.peerId.value, reply)
      ensures Dispatchable(req) && req.action.value == "get_messages" ==>
        reply == Sent(GetMessages(req, req.peerId.value)) && unchanged(this)
      ensures Dispatchable(req) && req.action.value == "register" ==>
        reply.Sent? && reply.response.status in {Registered, LoggedIn} && req.peerId.value in peers
      ensures (Dispatchable(req) && req.action.value == "subscribe" && Present(req.topic)
        && old(req.topic.value in topics && topics[req.topic.value].host in peers)) ==>
        && reply.Sent? && reply.response.status == Subscribed
        && req.topic.value in topics && req.peerId.value in topics[req.topic.value].subscribers
    {
      if !Present(req.action) || !Present(req.peerId) {
        reply := Sent(Failure("Missing 'action' or 'peer_id'."));
        return;
      }
      reply := ProcessAction(req.action.value, req, req.peerId.value);
    }
  }
}
