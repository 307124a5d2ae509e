/**
 * The live side of the web server (serve/serve.go): a hub that keeps the
 * registered websocket connections, each with an outbound queue of at most
 * 256 messages, and fans broadcasts out to them; each connection's writer
 * draining its queue; and the timed stream that polls the store for tweets
 * newer than a cursor and broadcasts them followed by one heartbeat.
 *
 * Goroutines and channels are not modelled as such: the hub handles one
 * register, unregister or broadcast at a time, which is how its select
 * loop runs; a buffered channel is its sequence of queued messages plus a
 * closed flag; the websocket is a closed flag and the outcome of each send.
 */
module Serve {
  import opened Wrappers
  import opened Twitter
  import opened TweetStore

  datatype Body = TweetBody(tweet: Tweet) | TextBody(text: string)

  /** What goes out on a websocket: a type tag and a body. */
  datatype Message = Message(kind: string, body: Body)

  function TweetMessage(t: Tweet): Message
  {
    Message("tweet", TweetBody(t))
  }

  /** The message that ends every tick of the timed stream. */
  const Heartbeat: Message := Message("message", TextBody(""))

  /** The buffer size of each connection's send channel. */
  const Capacity: nat := 256

  // ----- one connection under successive broadcasts -----

  /**
   * The queue of a connection that was registered with queue `q`, once the
   * hub has broadcast `ms` in order, and whether it is still registered: a
   * message is appended while there is room, and the first message that
   * finds the queue full evicts the connection.
   */
  function Fanout(q: seq<Message>, ms: seq<Message>): (seq<Message>, bool)
    decreases |ms|
  {
    if ms == [] then (q, true)
    else
      var prev := Fanout(q, ms[..|ms| - 1]);
      if prev.1 && |prev.0| < Capacity then (prev.0 + [ms[|ms| - 1]], true) else (prev.0, false)
  }

  lemma FanoutSnoc(q: seq<Message>, ms: seq<Message>, m: Message)
    ensures Fanout(q, ms + [m]) ==
      if Fanout(q, ms).1 && |Fanout(q, ms).0| < Capacity then (Fanout(q, ms).0 + [m], true) else (Fanout(q, ms).0, false)
  {
    assert (ms + [m])[..|ms|] == ms;
  }

  /**
   * A connection receives the longest prefix of the broadcasts that fits in
   * its queue, never more than 256 messages, and stays registered exactly
   * when all of them fitted.
   */
  lemma {:induction false} FanoutClosedForm(q: seq<Message>, ms: seq<Message>)
    requires |q| <= Capacity
    ensures var k := if |ms| <= Capacity - |q| then |ms| else Capacity - |q|;
      Fanout(q, ms).0 == q + ms[..k]
    ensures Fanout(q, ms).1 <==> |ms| <= Capacity - |q|
    ensures |Fanout(q, ms).0| <= Capacity
    decreases |ms|
  {
    if ms != [] {
      var n := |ms|;
      var front := ms[..n - 1];
      FanoutClosedForm(q, front);
      var k' := if n - 1 <= Capacity - |q| then n - 1 else Capacity - |q|;
      assert front[..k'] == ms[..k'];
      if n - 1 < Capacity - |q| {
        assert ms[..n - 1] + [ms[n - 1]] == ms[..n];
      }
    }
  }

  // ----- the writer's sends -----

  /** The position of the first send that fails among `n` sends from position `i`, or `n`. */
  function FirstFailure(n: nat, sendOk: nat -> bool, i: nat): (r: nat)
    requires i <= n
    ensures i <= r <= n
    decreases n - i
  {
    if i == n || !sendOk(i) then i else FirstFailure(n, sendOk, i + 1)
  }

  /** Every send before the first failure succeeds, and the one there fails. */
  lemma {:induction false} FirstFailureSpec(n: nat, sendOk: nat -> bool, i: nat)
    requires i <= n
    ensures forall j :: i <= j < FirstFailure(n, sendOk, i) ==> sendOk(j)
    ensures FirstFailure(n, sendOk, i) < n ==> !sendOk(FirstFailure(n, sendOk, i))
    decreases n - i
  {
    if i < n && sendOk(i) {
      FirstFailureSpec(n, sendOk, i + 1);
    }
  }

  /** A websocket connection: its buffered send channel and its socket. */
  class Conn {
    /** The messages waiting in the send channel, oldest first. */
    var queue: seq<Message>
    var sendClosed: bool
    var wsClosed: bool

    /** `&connection{send: make(chan Message, 256), ws: ws}`. */
    constructor ()
      ensures queue == [] && !sendClosed && !wsClosed
    {
      queue := [];
      sendClosed := false;
      wsClosed := false;
    }

    /**
     * Sends the queued messages in order, `sendOk(j)` telling whether the
     * j-th send succeeds; the first failed send ends the writer, which
     * closes the socket. A drained queue whose channel is closed ends it
     * too; a drained open one leaves the writer waiting.
     */
    method Writer(sendOk: nat -> bool) returns (delivered: seq<Message>)
      modifies this
      ensures var k := FirstFailure(|old(queue)|, sendOk, 0);
        delivered == old(queue)[..k] && queue == (if k < |old(queue)| then old(queue)[k + 1..] else [])
      ensures var k := FirstFailure(|old(queue)|, sendOk, 0);
        wsClosed == (old(wsClosed) || k < |old(queue)| || sendClosed)
      ensures sendClosed == old(sendClosed)
    {
      ghost var q0 := queue;
      delivered := [];
      var i := 0;
      while queue != []
        invariant 0 <= i <= |q0| && queue == q0[i..] && delivered == q0[..i]
        invariant FirstFailure(|q0|, sendOk, 0) == FirstFailure(|q0|, sendOk, i)
        invariant wsClosed == old(wsClosed) && sendClosed == old(sendClosed)
        decreases |queue|
      {
        var m := queue[0];
        queue := queue[1..];
        if !sendOk(i) {
          wsClosed := true;
          return;
        }
        assert q0[..i + 1] == q0[..i] + [m];
        delivered := delivered + [m];
        i := i + 1;
      }
      if sendClosed {
        // `range` over a closed, drained channel ends
        wsClosed := true;
      }
    }
  }

  /** The hub: the registered connections. */
  class Hub {
    var connections: set<Conn>
    /** Whether the process has panicked by closing an already closed channel. */
    var panicked: bool

    /** Every registered connection's channel is open and holds at most 256 messages. */
    ghost predicate Valid()
      reads this, connections
    {
      forall c :: c in connections ==> !c.sendClosed && |c.queue| <= Capacity
    }

    constructor ()
      ensures connections == {} && !panicked && Valid()
    {
      connections := {};
      panicked := false;
    }

    method Register(c: Conn)
      modifies this
      ensures connections == old(connections) + {c} && panicked == old(panicked)
      ensures old(Valid()) && !c.sendClosed && |c.queue| <= Capacity ==> Valid()
    {
      connections := connections + {c};
    }

    /** As written: removes the connection and closes its channel, whether or not it was still registered. */
    method Unregister(c: Conn)
      modifies this, c
      ensures connections == old(connections) - {c}
      ensures c.sendClosed && c.queue == old(c.queue) && c.wsClosed == old(c.wsClosed)
      ensures panicked == (old(panicked) || old(c.sendClosed))
      ensures old(Valid()) ==> Valid()
    {
      connections := connections - {c};
      if c.sendClosed {
        // close of a closed channel
        panicked := true;
      }
      c.sendClosed := true;
    }

    /** Corrected: closes the channel only of a connection that is still registered. */
    method SafeUnregister(c: Conn)
      requires Valid()
      modifies this, c
      ensures connections == old(connections) - {c}
      ensures c.sendClosed == (old(c.sendClosed) || c in old(connections))
      ensures c.queue == old(c.queue) && c.wsClosed == old(c.wsClosed)
      ensures panicked == old(panicked) && Valid()
    {
      if c in connections {
        connections := connections - {c};
        c.sendClosed := true;
      }
    }

    /**
     * Offers the message to every registered connection: appended where the
     * queue has room; a connection whose queue is full is evicted instead,
     * its channel and its socket closed. The outcome does not depend on the
     * order the connections are visited in.
     */
    method Broadcast(m: Message)
      requires Valid()
      modifies this, connections
      ensures Valid() && connections <= old(connections) && panicked == old(panicked)
      ensures forall c :: c in old(connections) ==>
        (c in connections <==> |old(c.queue)| < Capacity) &&
        c.queue == (if |old(c.queue)| < Capacity then old(c.queue) + [m] else old(c.queue)) &&
        c.sendClosed == (c !in connections) && c.wsClosed == (old(c.wsClosed) || c !in connections)
    {
      var remaining := connections;
      while remaining != {}
        invariant remaining <= connections <= old(connections) && panicked == old(panicked)
        invariant forall c :: c in remaining ==>
          c.queue == old(c.queue) && !c.sendClosed && c.wsClosed == old(c.wsClosed) && |c.queue| <= Capacity
        invariant forall c :: c in old(connections) && c !in remaining ==>
          (c in connections <==> |old(c.queue)| < Capacity) &&
          c.queue == (if |old(c.queue)| < Capacity then old(c.queue) + [m] else old(c.queue)) &&
          c.sendClosed == (c !in connections) && c.wsClosed == (old(c.wsClosed) || c !in connections)
        decreases remaining
      {
        var c :| c in remaining;
        if |c.queue| < Capacity {
          c.queue := c.queue + [m];
        } else {
          connections := connections - {c};
          c.sendClosed := true;
          // `go c.ws.Close()`
          c.wsClosed := true;
        }
        remaining := remaining - {c};
      }
    }
  }

  /**
   * A connection whose queue fills up is evicted by a broadcast, and then
   * unregistered by its handler once its writer ends: the hub closes its
   * channel a second time and the process panics.
   */
  method EvictionThenUnregister() returns (hub: Hub, c: Conn)
    ensures hub.panicked && c !in hub.connections
  {
    hub := new Hub();
    c := new Conn();
    hub.Register(c);
    var n := 0;
    while n < Capacity
      invariant 0 <= n <= Capacity
      invariant hub.connections == {c} && hub.Valid() && |c.queue| == n && !hub.panicked
    {
      hub.Broadcast(Heartbeat);
      n := n + 1;
    }
    // the queue is full: this broadcast evicts the connection and closes its channel
    hub.Broadcast(Heartbeat);
    // the handler's deferred unregister
    hub.Unregister(c);
  }

  /** The same sequence of events with the corrected unregister does not panic. */
  method EvictionThenSafeUnregister() returns (hub: Hub, c: Conn)
    ensures !hub.panicked && c !in hub.connections && c.sendClosed
  {
    hub := new Hub();
    c := new Conn();
    hub.Register(c);
    var n := 0;
    while n < Capacity
      invariant 0 <= n <= Capacity
      invariant hub.connections == {c} && hub.Valid() && |c.queue| == n && !hub.panicked
    {
      hub.Broadcast(Heartbeat);
      n := n + 1;
    }
    hub.Broadcast(Heartbeat);
    hub.SafeUnregister(c);
  }

  // ----- the timed stream -----

  /** The messages one tick broadcasts for the tweets it fetched: one per tweet, in order, then the heartbeat. */
  function TickMessages(tweets: seq<Tweet>): seq<Message>
  {
    Announce(tweets) + [Heartbeat]
  }

  function Announce(tweets: seq<Tweet>): (r: seq<Message>)
    ensures |r| == |tweets| && forall i :: 0 <= i < |r| ==> r[i] == TweetMessage(tweets[i])
  {
    seq(|tweets|, i requires 0 <= i < |tweets| => TweetMessage(tweets[i]))
  }

  lemma AnnounceSnoc(tweets: seq<Tweet>, t: Tweet)
    ensures Announce(tweets + [t]) == Announce(tweets) + [TweetMessage(t)]
  {
  }

  /** A tick broadcasts each tweet in the order fetched, then exactly one heartbeat, last. */
  lemma OneHeartbeatLast(tweets: seq<Tweet>)
    ensures |TickMessages(tweets)| == |tweets| + 1
    ensures forall i :: 0 <= i < |tweets| ==> TickMessages(tweets)[i] == TweetMessage(tweets[i])
    ensures forall i :: 0 <= i < |TickMessages(tweets)| ==>
      (TickMessages(tweets)[i].kind == "message" <==> i == |tweets|)
  {
    var ms := TickMessages(tweets);
    forall i | 0 <= i < |ms| ensures ms[i].kind == "message" <==> i == |tweets| {
      if i < |tweets| {
        assert ms[i] == Announce(tweets)[i];
      }
    }
  }

  /** The cursor after looking at the tweets in order, raised to each id above it. */
  function AdvanceCursor(cur: int, tweets: seq<Tweet>): int
    decreases |tweets|
  {
    if tweets == [] then cur
    else
      var c := AdvanceCursor(cur, tweets[..|tweets| - 1]);
      var id := tweets[|tweets| - 1].id;
      if id > c then id else c
  }

  /** The cursor ends at the largest of its old value and the ids seen, so it never decreases. */
  lemma {:induction false} CursorIsMax(cur: int, tweets: seq<Tweet>)
    ensures AdvanceCursor(cur, tweets) >= cur
    ensures forall i :: 0 <= i < |tweets| ==> AdvanceCursor(cur, tweets) >= tweets[i].id
    ensures AdvanceCursor(cur, tweets) == cur || exists i :: 0 <= i < |tweets| && AdvanceCursor(cur, tweets) == tweets[i].id
    decreases |tweets|
  {
    if tweets != [] {
      var front := tweets[..|tweets| - 1];
      CursorIsMax(cur, front);
      forall i | 0 <= i < |tweets| - 1 ensures AdvanceCursor(cur, front) >= tweets[i].id {
        assert tweets[i] == front[i];
      }
      if AdvanceCursor(cur, front) != cur && tweets[|tweets| - 1].id <= AdvanceCursor(cur, front) {
        var i :| 0 <= i < |front| && AdvanceCursor(cur, front) == front[i].id;
        assert tweets[i] == front[i];
      }
    }
  }

  lemma AdvanceCursorSnoc(cur: int, tweets: seq<Tweet>, t: Tweet)
    ensures AdvanceCursor(cur, tweets + [t]) ==
      if t.id > AdvanceCursor(cur, tweets) then t.id else AdvanceCursor(cur, tweets)
  {
    assert (tweets + [t])[..|tweets|] == tweets;
  }

  /**
   * Each connection registered at the start, whose queue was then `q0[c]`,
   * is where `sent` broadcast in order leaves it.
   */
  ghost predicate FannedOut(hub: Hub, q0: map<Conn, seq<Message>>, sent: seq<Message>)
    reads hub, q0.Keys
  {
    forall c :: c in q0 ==> c.queue == Fanout(q0[c], sent).0 && (c in hub.connections <==> Fanout(q0[c], sent).1)
  }

  /** One more broadcast keeps every connection where Fanout says. */
  method CastStep(hub: Hub, m: Message, ghost q0: map<Conn, seq<Message>>, ghost sent: seq<Message>)
    requires hub.Valid() && hub.connections <= q0.Keys && FannedOut(hub, q0, sent)
    modifies hub, hub.connections
    ensures hub.Valid() && hub.connections <= old(hub.connections) && FannedOut(hub, q0, sent + [m])
  {
    hub.Broadcast(m);
    forall c | c in q0
      ensures c.queue == Fanout(q0[c], sent + [m]).0 && (c in hub.connections <==> Fanout(q0[c], sent + [m]).1)
    {
      FanoutSnoc(q0[c], sent, m);
    }
  }

  /**
   * The loop of a tick: broadcasts each tweet in order, raising the cursor
   * to every id above it.
   */
  method Publish(hub: Hub, tweets: seq<Tweet>, cur0: int, ghost q0: map<Conn, seq<Message>>)
    returns (sent: seq<Message>, cur: int)
    requires hub.Valid() && hub.connections <= q0.Keys && FannedOut(hub, q0, [])
    modifies hub, hub.connections
    ensures sent == Announce(tweets) && cur == AdvanceCursor(cur0, tweets)
    ensures hub.Valid() && hub.connections <= old(hub.connections) && FannedOut(hub, q0, sent)
  {
    cur := cur0;
    sent := [];
    for i := 0 to |tweets|
      invariant sent == Announce(tweets[..i]) && cur == AdvanceCursor(cur0, tweets[..i])
      invariant hub.Valid() && hub.connections <= old(hub.connections) && FannedOut(hub, q0, sent)
    {
      var m := TweetMessage(tweets[i]);
      CastStep(hub, m, q0, sent);
      AnnounceSnoc(tweets[..i], tweets[i]);
      AdvanceCursorSnoc(cur0, tweets[..i], tweets[i]);
      assert tweets[..i + 1] == tweets[..i] + [tweets[i]];
      sent := sent + [m];
      if tweets[i].id > cur {
        cur := tweets[i].id;
      }
    }
    assert tweets[..|tweets|] == tweets;
  }

  /** The web server's live part: the hub, the store it polls and the polling cursor. */
  class TweetServer {
    /** The id of the newest tweet already broadcast. */
    var curTweetId: int
    const hub: Hub
    const store: SqliteTweetStore

    /** Init: a fresh hub with no connections, over the given store. */
    constructor (store: SqliteTweetStore)
      ensures this.store == store && fresh(hub) && hub.connections == {} && !hub.panicked && hub.Valid()
      ensures curTweetId == 0
    {
      this.store := store;
      hub := new Hub();
      curTweetId := 0;
    }

    /** Start: the cursor begins at the newest stored tweet (0 for an empty table or a failed query). */
    method Start(queryOk: bool)
      modifies this
      ensures !queryOk || store.db.tweets == map[] ==> curTweetId == 0
      ensures queryOk && store.db.tweets != map[] ==>
        curTweetId in store.db.tweets && forall k :: k in store.db.tweets ==> k <= curTweetId
    {
      curTweetId := store.LatestTweetId(queryOk);
    }

    /** Broadcasts one tweet to every registered connection. */
    method BroadcastTweet(tweet: Tweet)
      requires hub.Valid()
      modifies hub, hub.connections
      ensures hub.Valid() && hub.connections <= old(hub.connections)
      ensures forall c :: c in old(hub.connections) ==>
        c.queue == Fanout(old(c.queue), [TweetMessage(tweet)]).0 &&
        (c in hub.connections <==> Fanout(old(c.queue), [TweetMessage(tweet)]).1)
    {
      hub.Broadcast(TweetMessage(tweet));
      forall c | c in old(hub.connections)
        ensures Fanout(old(c.queue), [TweetMessage(tweet)]) ==
          if |old(c.queue)| < Capacity then (old(c.queue) + [TweetMessage(tweet)], true) else (old(c.queue), false)
      {
        FanoutSnoc(old(c.queue), [], TweetMessage(tweet));
      }
    }

    /**
     * One tick of TimedStream (after its 5-second wait): fetches the tweets
     * above the cursor, broadcasts each, raising the cursor to its id, then
     * broadcasts the heartbeat. Returns what it broadcast.
     */
    method Tick(queryOk: bool) returns (sent: seq<Message>)
      requires hub.Valid()
      modifies this, hub, hub.connections
      ensures var tweets := if queryOk then TweetsAfter(store.db, old(curTweetId), store.codec) else [];
        sent == TickMessages(tweets) && curTweetId == AdvanceCursor(old(curTweetId), tweets)
      ensures hub.Valid() && hub.connections <= old(hub.connections)
      ensures forall c :: c in old(hub.connections) ==>
        c.queue == Fanout(old(c.queue), sent).0 && (c in hub.connections <==> Fanout(old(c.queue), sent).1)
    {
      var tweets := store.TweetsAfterId(curTweetId, queryOk);
      ghost var q0 := map c | c in hub.connections :: c.queue;
      var cur;
      sent, cur := Publish(hub, tweets, curTweetId, q0);
      curTweetId := cur;
      CastStep(hub, Heartbeat, q0, sent);
      sent := sent + [Heartbeat];
    }
  }
}
