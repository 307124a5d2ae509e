/**
 * The streaming archiver's per-line work (savetweetstream.go): each line
 * the stream delivers is decoded into whichever message type it fits, and
 * only tweets are persisted, stamped with the exact line they came in.
 *
 * JSON decoding is not modelled: the three unmarshal calls are oracles
 * (`Decoders`) that give what each decode filled in and whether it
 * reported an error.
 */
module SaveTweetStream {
  import opened Wrappers
  import opened Twitter
  import opened TweetStore

  /** The three json.Unmarshal calls of one line, into a tweet, a friend list and an event. */
  datatype Decoders = Decoders(
    tweet: Bytes -> Decoded<Tweet>,
    friendList: Bytes -> Decoded<FriendList>,
    event: Bytes -> Decoded<Event>)

  /** What TryTwitterTypes hands back: one of the three message types, or nil. */
  datatype Message =
    | TweetMessage(tweet: Tweet)
    | FriendListMessage(friendList: FriendList)
    | EventMessage(event: Event)
    | Unrecognised

  /**
   * Classifies a line by a fixed priority: a tweet when the decoded text is
   * non-empty, else a friend list when it has friends, else an event when
   * it names one. The decode errors are never looked at: the contract
   * speaks only of what the decodes filled in.
   */
  function TryTwitterTypes(d: Decoders, line: Bytes): (m: Message)
    ensures m.TweetMessage? <==> d.tweet(line).value.text != ""
    ensures m.TweetMessage? ==> m.tweet == d.tweet(line).value
    ensures m.FriendListMessage? <==> d.tweet(line).value.text == "" && d.friendList(line).value.friends != []
    ensures m.FriendListMessage? ==> m.friendList == d.friendList(line).value
    ensures m.EventMessage? <==>
      d.tweet(line).value.text == "" && d.friendList(line).value.friends == [] && d.event(line).value.event != ""
    ensures m.EventMessage? ==> m.event == d.event(line).value
  {
    var tweet := d.tweet(line).value;
    var friendList := d.friendList(line).value;
    var event := d.event(line).value;
    if tweet.text != "" then TweetMessage(tweet)
    else if friendList.friends != [] then FriendListMessage(friendList)
    else if event.event != "" then EventMessage(event)
    else Unrecognised
  }

  /** A decoded tweet as ProcessLines saves it: carrying the line it was read from. */
  function Stamped(t: Tweet, line: Bytes): (r: Tweet)
    ensures r.rawBytes == Some(line)
  {
    t.(rawBytes := Some(line))
  }

  /**
   * The store after handling `lines[i..]` in order, the save of line `k`
   * running against engine `engine(k)`; the boolean says whether a save
   * panicked, which ends the process.
   */
  function Process(s: State, d: Decoders, c: Codec, lines: seq<Bytes>, engine: nat -> Engine, i: nat): (State, bool)
    requires i <= |lines|
    decreases |lines| - i
  {
    if i == |lines| then (s, false)
    else
      match TryTwitterTypes(d, lines[i])
      case TweetMessage(t) =>
        var (s2, panicked) := Transact(s, SaveBatch([Stamped(t, lines[i])]), c, engine(i));
        if panicked then (s2, true) else Process(s2, d, c, lines, engine, i + 1)
      case _ => Process(s, d, c, lines, engine, i + 1)
  }

  /** Lines that are not tweets are only logged: the store is left exactly as it was. */
  lemma {:induction false} OnlyTweetsPersisted(s: State, d: Decoders, c: Codec, lines: seq<Bytes>, engine: nat -> Engine, i: nat)
    requires i <= |lines|
    requires forall k :: i <= k < |lines| ==> !TryTwitterTypes(d, lines[k]).TweetMessage?
    ensures Process(s, d, c, lines, engine, i) == (s, false)
    decreases |lines| - i
  {
    if i < |lines| {
      OnlyTweetsPersisted(s, d, c, lines, engine, i + 1);
    }
  }

  /**
   * Lines are handled one after the other: handling `pre + post` is
   * handling `pre`, then, unless that panicked, going on from there.
   */
  lemma {:induction false} ProcessSplit(s: State, d: Decoders, c: Codec, pre: seq<Bytes>, post: seq<Bytes>,
                                        engine: nat -> Engine, i: nat)
    requires i <= |pre|
    ensures var (s1, p1) := Process(s, d, c, pre, engine, i);
      Process(s, d, c, pre + post, engine, i) == if p1 then (s1, true) else Process(s1, d, c, pre + post, engine, |pre|)
    decreases |pre| - i
  {
    if i < |pre| {
      var all := pre + post;
      assert all[i] == pre[i];
      match TryTwitterTypes(d, pre[i])
      case TweetMessage(t) =>
        var (s2, panicked) := Transact(s, SaveBatch([Stamped(t, pre[i])]), c, engine(i));
        if !panicked {
          ProcessSplit(s2, d, c, pre, post, engine, i + 1);
        }
      case _ =>
        ProcessSplit(s, d, c, pre, post, engine, i + 1);
    }
  }

  /**
   * A tweet line saved with no transaction open and every engine call
   * succeeding is committed with the line itself as its `fulltweet`.
   */
  lemma StoredLineIsRaw(s: State, d: Decoders, c: Codec, line: Bytes, e: Engine)
    requires TryTwitterTypes(d, line).TweetMessage? && d.tweet(line).value.id !in e.failedTweets
    requires s.tx.None? && e.beginOk && e.commitOk
    ensures var (s2, panicked) := Process(s, d, c, [line], _ => e, 0);
      !panicked && d.tweet(line).value.id in s2.db.tweets && s2.db.tweets[d.tweet(line).value.id].fulltweet == line
  {
    var t := Stamped(d.tweet(line).value, line);
    RawBytesStored(s, t, line, c, e);
    var (s2, panicked) := Transact(s, SaveBatch([t]), c, e);
    assert Process(s2, d, c, [line], _ => e, 1) == (s2, false);
  }

  /**
   * One receive from the line channel after `lines` were sent and the
   * channel closed: the k-th line while any are left, then the zero value
   * (a nil slice) with `ok` false on every receive after.
   */
  datatype Received = Received(line: Bytes, ok: bool)

  function Receive(lines: seq<Bytes>, k: nat): (r: Received)
    ensures r.ok <==> k < |lines|
    ensures r.ok ==> r.line == lines[k]
    ensures !r.ok ==> r.line == []
  {
    if k < |lines| then Received(lines[k], true) else Received([], false)
  }

  /**
   * Decoding an empty line fills nothing in: json.Unmarshal rejects empty
   * input and leaves the fresh tweet, friend list and event at their zero
   * values.
   */
  predicate EmptyDecodesToNothing(d: Decoders)
  {
    d.tweet([]).value.text == "" && d.friendList([]).value.friends == [] && d.event([]).value.event == ""
  }

  /**
   * The loop as written: `n` iterations from receive number `k`, each
   * taking whatever the receive yields, closed or not. There is no exit
   * but a panic, so a false flag means the loop is still running.
   */
  function ProcessAsWritten(s: State, d: Decoders, c: Codec, lines: seq<Bytes>, engine: nat -> Engine,
                            k: nat, n: nat): (State, bool)
    decreases n
  {
    if n == 0 then (s, false)
    else
      var line := Receive(lines, k).line;
      match TryTwitterTypes(d, line)
      case TweetMessage(t) =>
        var (s2, panicked) := Transact(s, SaveBatch([Stamped(t, line)]), c, engine(k));
        if panicked then (s2, true) else ProcessAsWritten(s2, d, c, lines, engine, k + 1, n - 1)
      case _ => ProcessAsWritten(s, d, c, lines, engine, k + 1, n - 1)
  }

  /** Before the channel is closed, the loop as written handles the lines exactly as `Process` does. */
  lemma {:induction false} AsWrittenBeforeClose(s: State, d: Decoders, c: Codec, lines: seq<Bytes>,
                                                engine: nat -> Engine, i: nat)
    requires i <= |lines|
    ensures ProcessAsWritten(s, d, c, lines, engine, i, |lines| - i) == Process(s, d, c, lines, engine, i)
    decreases |lines| - i
  {
    if i < |lines| {
      match TryTwitterTypes(d, lines[i])
      case TweetMessage(t) =>
        var (s2, panicked) := Transact(s, SaveBatch([Stamped(t, lines[i])]), c, engine(i));
        if !panicked {
          AsWrittenBeforeClose(s2, d, c, lines, engine, i + 1);
        }
      case _ =>
        AsWrittenBeforeClose(s, d, c, lines, engine, i + 1);
    }
  }

  /**
   * Once the channel is closed and drained, the loop as written never
   * ends: however many further iterations it runs, each one gets an
   * empty line, logs "Unhandled type", stores nothing, and the loop
   * goes on.
   */
  lemma {:induction false} SpinsAfterClose(s: State, d: Decoders, c: Codec, lines: seq<Bytes>,
                                           engine: nat -> Engine, k: nat, n: nat)
    requires EmptyDecodesToNothing(d) && |lines| <= k
    ensures TryTwitterTypes(d, Receive(lines, k).line) == Unrecognised
    ensures ProcessAsWritten(s, d, c, lines, engine, k, n) == (s, false)
    decreases n
  {
    if n > 0 {
      SpinsAfterClose(s, d, c, lines, engine, k + 1, n - 1);
    }
  }

  /**
   * Handles the stream's lines in order, saving each tweet stamped with
   * its raw line; stops at a panic, and returns once a receive reports
   * the channel closed (the `, ok` test the loop as written lacks).
   */
  method ProcessLines(store: SqliteTweetStore, d: Decoders, lines: seq<Bytes>, engine: nat -> Engine)
    returns (panicked: bool)
    modifies store
    ensures (store.Snapshot(), panicked) == Process(old(store.Snapshot()), d, store.codec, lines, engine, 0)
  {
    ghost var goal := Process(store.Snapshot(), d, store.codec, lines, engine, 0);
    var i := 0;
    while true
      invariant 0 <= i <= |lines|
      invariant Process(store.Snapshot(), d, store.codec, lines, engine, i) == goal
      decreases |lines| - i
    {
      var r := Receive(lines, i);
      if !r.ok {
        return false;
      }
      var msg := TryTwitterTypes(d, r.line);
      // friend lists, events and unrecognised lines are only logged
      if msg.TweetMessage? {
        var p := store.SaveTweet(Stamped(msg.tweet, r.line), engine(i));
        if p {
          return true;
        }
      }
      i := i + 1;
    }
  }
}
