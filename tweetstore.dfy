/**
 * The SQLite-backed tweet store (tweetstore/tweetstore.go): upserting tweets,
 * their timestamps and their entities under caller-owned transactions, and
 * the read queries over the `tweets` table.
 *
 * Tables are maps keyed by each table's primary or UNIQUE key, so that
 * `INSERT OR REPLACE` is a map update. A transaction holds its own view of
 * the tables; a commit publishes that view and a rollback drops it. Reads go
 * to the committed tables, as the source's reads use the database handle
 * rather than the transaction.
 */
module TweetStore {
  import opened Wrappers
  import opened Twitter
  import opened Ordering

  /** `time.Time{}.Unix()`: what is stored when `created_at` does not parse. */
  const ZeroTimeUnix: int := -62135596800

  /** A row of `tweets`: (screen_name, time, text, fulltweet), keyed by tweetid. */
  datatype TweetRow = TweetRow(screenName: string, time: int, text: string, fulltweet: Bytes)

  datatype Tables = Tables(
    tweets: map<int, TweetRow>,
    timestamps: map<int, int>,
    media: map<(int, int), Media>,             // UNIQUE (mediaid, tweetid)
    mentions: map<(int, int), Mention>,        // UNIQUE (userid, tweetid)
    urls: map<(string, int), TwitterUrl>,      // UNIQUE (expanded_url, tweetid)
    hashtags: map<(string, int), Hashtag>)     // UNIQUE (text, tweetid)

  /**
   * What the SQL engine does with the calls of one operation: whether
   * Begin, Commit and Rollback succeed, and which inserts it rejects.
   */
  datatype Engine = Engine(
    beginOk: bool,
    commitOk: bool,
    rollbackOk: bool,
    failedTweets: set<int>,
    failedTimestamps: set<int>,
    failedMedia: set<(int, int)>,
    failedMentions: set<(int, int)>,
    failedUrls: set<(string, int)>,
    failedHashtags: set<(string, int)>)

  /** An open transaction and the tables as it sees them. */
  datatype Tx = Tx(view: Tables)

  /** The committed tables and the transaction in `CurrentTx`, if one is open. */
  datatype State = State(db: Tables, tx: Option<Tx>)

  // ----- INSERT OR REPLACE -----

  /** Applies `entries` in order; an entry whose key the engine rejects changes nothing. */
  function Upsert<K, V>(m: map<K, V>, entries: seq<(K, V)>, failed: set<K>): map<K, V>
    decreases |entries|
  {
    if entries == [] then m
    else
      var before := Upsert(m, entries[..|entries| - 1], failed);
      var last := entries[|entries| - 1];
      if last.0 in failed then before else before[last.0 := last.1]
  }

  /** One entity loop of SaveEntities: an `INSERT OR REPLACE` per entry, in order. */
  method InsertOrReplace<K, V>(m: map<K, V>, entries: seq<(K, V)>, failed: set<K>) returns (r: map<K, V>)
    ensures r == Upsert(m, entries, failed)
  {
    r := m;
    for i := 0 to |entries|
      invariant r == Upsert(m, entries[..i], failed)
    {
      assert entries[..i + 1][..i] == entries[..i];
      if entries[i].0 !in failed {
        r := r[entries[i].0 := entries[i].1];
      }
    }
    assert entries[..|entries|] == entries;
  }

  /** The value of the last accepted entry for key `k`, if any. */
  function LastWrite<K, V>(entries: seq<(K, V)>, failed: set<K>, k: K): Option<V>
    decreases |entries|
  {
    if entries == [] then None
    else
      var last := entries[|entries| - 1];
      if last.0 == k && k !in failed then Some(last.1)
      else LastWrite(entries[..|entries| - 1], failed, k)
  }

  /** Each key of an upserted table holds its last accepted write, or its old value. */
  lemma {:induction false} UpsertAt<K, V>(m: map<K, V>, entries: seq<(K, V)>, failed: set<K>, k: K)
    ensures k in Upsert(m, entries, failed) <==> LastWrite(entries, failed, k).Some? || k in m
    ensures k in Upsert(m, entries, failed) ==>
      Upsert(m, entries, failed)[k] ==
        (if LastWrite(entries, failed, k).Some? then LastWrite(entries, failed, k).value else m[k])
    decreases |entries|
  {
    if entries != [] {
      UpsertAt(m, entries[..|entries| - 1], failed, k);
    }
  }

  /** An accepted entry with no later entry for its key is what the table ends up holding. */
  lemma {:induction false} LastWriteOf<K, V>(entries: seq<(K, V)>, failed: set<K>, i: nat)
    requires i < |entries| && entries[i].0 !in failed
    requires forall j :: i < j < |entries| ==> entries[j].0 != entries[i].0
    ensures LastWrite(entries, failed, entries[i].0) == Some(entries[i].1)
    decreases |entries|
  {
    if i < |entries| - 1 {
      LastWriteOf(entries[..|entries| - 1], failed, i);
    }
  }

  /** Only keys of accepted entries are written. */
  lemma {:induction false} LastWriteFrom<K, V>(entries: seq<(K, V)>, failed: set<K>, k: K)
    requires LastWrite(entries, failed, k).Some?
    ensures k !in failed
    ensures exists i :: 0 <= i < |entries| && entries[i] == (k, LastWrite(entries, failed, k).value)
    decreases |entries|
  {
    var last := entries[|entries| - 1];
    if !(last.0 == k && k !in failed) {
      var front := entries[..|entries| - 1];
      LastWriteFrom(front, failed, k);
      var i :| 0 <= i < |front| && front[i] == (k, LastWrite(front, failed, k).value);
      assert entries[i] == front[i];
    }
  }

  /** Upserting the same entries twice is the same as upserting them once: no duplicates arise. */
  lemma UpsertIdempotent<K, V>(m: map<K, V>, entries: seq<(K, V)>, failed: set<K>)
    ensures Upsert(Upsert(m, entries, failed), entries, failed) == Upsert(m, entries, failed)
  {
    var once := Upsert(m, entries, failed);
    var twice := Upsert(once, entries, failed);
    forall k | k in twice ensures k in once && twice[k] == once[k] {
      UpsertAt(m, entries, failed, k);
      UpsertAt(once, entries, failed, k);
    }
    forall k | k in once ensures k in twice {
      UpsertAt(once, entries, failed, k);
    }
    assert twice.Keys == once.Keys;
    assert twice == once;
  }

  // ----- what SaveTweet and SaveEntities write -----

  function MediaEntries(t: Tweet): seq<((int, int), Media)>
  {
    seq(|t.entities.media|, i requires 0 <= i < |t.entities.media| =>
      ((t.entities.media[i].id, t.id), t.entities.media[i]))
  }

  function MentionEntries(t: Tweet): seq<((int, int), Mention)>
  {
    seq(|t.entities.mentions|, i requires 0 <= i < |t.entities.mentions| =>
      ((t.entities.mentions[i].id, t.id), t.entities.mentions[i]))
  }

  function UrlEntries(t: Tweet): seq<((string, int), TwitterUrl)>
  {
    seq(|t.entities.urls|, i requires 0 <= i < |t.entities.urls| =>
      ((t.entities.urls[i].expandedUrl, t.id), t.entities.urls[i]))
  }

  function HashtagEntries(t: Tweet): seq<((string, int), Hashtag)>
  {
    seq(|t.entities.hashtags|, i requires 0 <= i < |t.entities.hashtags| =>
      ((t.entities.hashtags[i].text, t.id), t.entities.hashtags[i]))
  }

  predicate HasEntities(t: Tweet)
  {
    |t.entities.media| + |t.entities.mentions| + |t.entities.urls| + |t.entities.hashtags| > 0
  }

  /** The four entity loops of SaveEntities, in source order. */
  function WriteEntities(v: Tables, t: Tweet, e: Engine): Tables
  {
    v.(media := Upsert(v.media, MediaEntries(t), e.failedMedia),
       mentions := Upsert(v.mentions, MentionEntries(t), e.failedMentions),
       urls := Upsert(v.urls, UrlEntries(t), e.failedUrls),
       hashtags := Upsert(v.hashtags, HashtagEntries(t), e.failedHashtags))
  }

  /** The parsed `created_at`, or the zero time when it does not parse. */
  function StoredTime(c: Codec, t: Tweet): int
  {
    match c.parseTime(t.createdAt)
    case Some(u) => u
    case None => ZeroTimeUnix
  }

  /** The `fulltweet` column: the raw line if there is one, else the re-marshalled tweet (NULL on error). */
  function FullTweet(c: Codec, t: Tweet): Bytes
  {
    match t.rawBytes
    case Some(raw) => raw
    case None =>
      match c.marshal(t)
      case Some(j) => j
      case None => []
  }

  function RowFor(c: Codec, t: Tweet): TweetRow
  {
    TweetRow(t.screenName, StoredTime(c, t), t.text, FullTweet(c, t))
  }

  /** The first two inserts of SaveTweet: the tweet row and its timestamp row. */
  function WriteRows(v: Tables, t: Tweet, c: Codec, e: Engine): Tables
  {
    v.(tweets := if t.id in e.failedTweets then v.tweets else v.tweets[t.id := RowFor(c, t)],
       timestamps := if t.id in e.failedTimestamps then v.timestamps else v.timestamps[t.id := StoredTime(c, t)])
  }

  /** The inserts of one SaveTweet: the tweet row, its timestamp row, then its entities. */
  function WriteTweet(v: Tables, t: Tweet, c: Codec, e: Engine): Tables
  {
    WriteEntities(WriteRows(v, t, c, e), t, e)
  }

  /** The inserts of a batch, tweet by tweet. */
  function WriteAll(v: Tables, ts: seq<Tweet>, c: Codec, e: Engine): Tables
    decreases |ts|
  {
    if ts == [] then v else WriteTweet(WriteAll(v, ts[..|ts| - 1], c, e), ts[|ts| - 1], c, e)
  }

  lemma WriteAllSnoc(v: Tables, ts: seq<Tweet>, t: Tweet, c: Codec, e: Engine)
    ensures WriteAll(v, ts + [t], c, e) == WriteTweet(WriteAll(v, ts, c, e), t, c, e)
    ensures WriteAll(v, [t], c, e) == WriteTweet(v, t, c, e)
  {
    assert (ts + [t])[..|ts|] == ts;
    assert [t][..0] == [];
  }

  /** The two kinds of write that open a transaction of their own when none is current. */
  datatype Work = SaveBatch(tweets: seq<Tweet>) | SaveEntitiesOf(tweet: Tweet)

  function Apply(v: Tables, w: Work, c: Codec, e: Engine): Tables
  {
    match w
    case SaveBatch(ts) => WriteAll(v, ts, c, e)
    case SaveEntitiesOf(t) => WriteEntities(v, t, e)
  }

  /** Whether the work executes at least one statement on its transaction. */
  predicate IssuesWrites(w: Work)
  {
    match w
    case SaveBatch(ts) => ts != []
    case SaveEntitiesOf(t) => HasEntities(t)
  }

  /**
   * Caller-owned transactions: work that finds a transaction open writes into
   * it and leaves committing to its owner; otherwise it begins one, writes
   * and commits it. If Begin fails, `CurrentTx` stays nil and the first
   * statement issued on the nil transaction panics (the boolean).
   */
  function Transact(s: State, w: Work, c: Codec, e: Engine): (State, bool)
  {
    if s.tx.Some? then (State(s.db, Some(Tx(Apply(s.tx.value.view, w, c, e)))), false)
    else if !e.beginOk then (s, IssuesWrites(w))
    else
      var v := Apply(s.db, w, c, e);
      (if e.commitOk then State(v, None) else State(s.db, Some(Tx(v))), false)
  }

  // ----- reads -----

  /** A row as `TweetsAfterId` and `RecentTweets` return it: undecodable rows become a placeholder. */
  function DecodeListed(c: Codec, fulltweet: Bytes): Tweet
  {
    var d := c.unmarshal(fulltweet);
    if d.ok then d.value else d.value.(id := 0, screenName := "Fail")
  }

  /** A row as `IntervalTweets` returns it: whatever the decode filled in. */
  function DecodeInterval(c: Codec, fulltweet: Bytes): Tweet
  {
    c.unmarshal(fulltweet).value
  }

  /** The rows with keys `ks`, in that order, decoded as `TweetsAfterId` (placeholder) or `IntervalTweets`. */
  function DecodeRows(rows: map<int, TweetRow>, ks: seq<int>, c: Codec, placeholder: bool): (r: seq<Tweet>)
    requires forall i :: 0 <= i < |ks| ==> ks[i] in rows
    ensures |r| == |ks|
    decreases |ks|
  {
    if ks == [] then []
    else
      var k := ks[|ks| - 1];
      var f := rows[k].fulltweet;
      DecodeRows(rows, ks[..|ks| - 1], c, placeholder)
        + [if placeholder then DecodeListed(c, f) else DecodeInterval(c, f)]
  }

  lemma {:induction false} DecodeRowsAt(rows: map<int, TweetRow>, ks: seq<int>, c: Codec, placeholder: bool, i: nat)
    requires forall j :: 0 <= j < |ks| ==> ks[j] in rows
    requires i < |ks|
    ensures DecodeRows(rows, ks, c, placeholder)[i] ==
      (if placeholder then DecodeListed(c, rows[ks[i]].fulltweet) else DecodeInterval(c, rows[ks[i]].fulltweet))
    decreases |ks|
  {
    if i < |ks| - 1 {
      DecodeRowsAt(rows, ks[..|ks| - 1], c, placeholder, i);
    }
  }

  ghost function KeysAbove(t: Tables, x: int): set<int>
  {
    set k | k in t.tweets && k > x
  }

  ghost function KeysBetween(t: Tables, start: int, end: int): set<int>
  {
    set k | k in t.tweets && start < t.tweets[k].time < end
  }

  /** `SELECT tweetid, fulltweet FROM tweets WHERE tweetid > x ORDER BY tweetid DESC`, decoded. */
  ghost function TweetsAfter(t: Tables, x: int, c: Codec): seq<Tweet>
  {
    SortedDescSpec(KeysAbove(t, x));
    DecodeRows(t.tweets, SortedDesc(KeysAbove(t, x)), c, true)
  }

  /** `SELECT ... ORDER BY tweetid DESC LIMIT count`, decoded. */
  ghost function Recent(t: Tables, count: nat, c: Codec): seq<Tweet>
  {
    SortedDescSpec(t.tweets.Keys);
    var ks := SortedDesc(t.tweets.Keys);
    DecodeRows(t.tweets, if count < |ks| then ks[..count] else ks, c, true)
  }

  /** `SELECT ... WHERE time > start AND time < end ORDER BY tweetid DESC`, decoded. */
  ghost function Between(t: Tables, start: int, end: int, c: Codec): seq<Tweet>
  {
    SortedDescSpec(KeysBetween(t, start, end));
    DecodeRows(t.tweets, SortedDesc(KeysBetween(t, start, end)), c, false)
  }

  /** The url rows of tweets whose time lies strictly between `start` and `end`. */
  ghost function UrlKeysBetween(t: Tables, start: int, end: int): set<(string, int)>
  {
    set k | k in t.urls && k.1 in t.tweets && start < t.tweets[k.1].time < end
  }

  /** Some element of a non-empty set of url keys with the largest tweet id. */
  lemma MaxTweetIdExists(s: set<(string, int)>)
    requires s != {}
    ensures exists k :: k in s && forall j :: j in s ==> j.1 <= k.1
  {
    var ids := set j | j in s :: j.1;
    var w := Element(s);
    assert w.1 in ids;
    var m := Max(ids);
    var k :| k in s && k.1 == m;
    assert forall j :: j in s ==> j.1 in ids;
  }

  // ----- properties of the writes -----

  /** Saving the same id twice leaves the second save's row and timestamp. */
  lemma SaveTwiceOneRow(v: Tables, t1: Tweet, t2: Tweet, c: Codec, e: Engine)
    requires t1.id == t2.id && t2.id !in e.failedTweets && t2.id !in e.failedTimestamps
    ensures WriteTweet(WriteTweet(v, t1, c, e), t2, c, e).tweets[t2.id] == TweetRow(t2.screenName, StoredTime(c, t2), t2.text, FullTweet(c, t2))
    ensures WriteTweet(WriteTweet(v, t1, c, e), t2, c, e).timestamps[t2.id] == StoredTime(c, t2)
    ensures WriteTweet(WriteTweet(v, t1, c, e), t2, c, e).tweets.Keys == WriteTweet(v, t1, c, e).tweets.Keys
  {
  }

  /** Re-saving a tweet changes nothing: no duplicate rows arise in any table. */
  lemma ResaveIdempotent(v: Tables, t: Tweet, c: Codec, e: Engine)
    ensures WriteTweet(WriteTweet(v, t, c, e), t, c, e) == WriteTweet(v, t, c, e)
  {
    var once := WriteTweet(v, t, c, e);
    var r := WriteRows(v, t, c, e);
    UpsertIdempotent(r.media, MediaEntries(t), e.failedMedia);
    UpsertIdempotent(r.mentions, MentionEntries(t), e.failedMentions);
    UpsertIdempotent(r.urls, UrlEntries(t), e.failedUrls);
    UpsertIdempotent(r.hashtags, HashtagEntries(t), e.failedHashtags);
    assert WriteRows(once, t, c, e) == once;
  }

  /**
   * A media entity whose insert the engine accepts is stored under (mediaid,
   * tweetid), whatever other inserts of the same tweet fail, unless a later
   * entity of the tweet has the same key.
   */
  lemma MediaRowStored(v: Tables, t: Tweet, c: Codec, e: Engine, i: nat)
    requires i < |t.entities.media|
    requires (t.entities.media[i].id, t.id) !in e.failedMedia
    requires forall j :: i < j < |t.entities.media| ==> t.entities.media[j].id != t.entities.media[i].id
    ensures (t.entities.media[i].id, t.id) in WriteTweet(v, t, c, e).media
    ensures WriteTweet(v, t, c, e).media[(t.entities.media[i].id, t.id)] == t.entities.media[i]
  {
    var es := MediaEntries(t);
    LastWriteOf(es, e.failedMedia, i);
    UpsertAt(WriteRows(v, t, c, e).media, es, e.failedMedia, es[i].0);
  }

  /** The same for a url entity, keyed by (expanded_url, tweetid). */
  lemma UrlRowStored(v: Tables, t: Tweet, c: Codec, e: Engine, i: nat)
    requires i < |t.entities.urls|
    requires (t.entities.urls[i].expandedUrl, t.id) !in e.failedUrls
    requires forall j :: i < j < |t.entities.urls| ==> t.entities.urls[j].expandedUrl != t.entities.urls[i].expandedUrl
    ensures (t.entities.urls[i].expandedUrl, t.id) in WriteTweet(v, t, c, e).urls
    ensures WriteTweet(v, t, c, e).urls[(t.entities.urls[i].expandedUrl, t.id)] == t.entities.urls[i]
  {
    var es := UrlEntries(t);
    LastWriteOf(es, e.failedUrls, i);
    UpsertAt(WriteRows(v, t, c, e).urls, es, e.failedUrls, es[i].0);
  }

  /** Every stored entity row of a saved tweet comes from one of its entities. */
  lemma HashtagRowsFromTweet(v: Tables, t: Tweet, c: Codec, e: Engine, k: (string, int))
    requires k in WriteTweet(v, t, c, e).hashtags && k !in v.hashtags
    ensures k.1 == t.id && k !in e.failedHashtags
    ensures exists i :: 0 <= i < |t.entities.hashtags| && t.entities.hashtags[i].text == k.0
  {
    var es := HashtagEntries(t);
    UpsertAt(WriteRows(v, t, c, e).hashtags, es, e.failedHashtags, k);
    LastWriteFrom(es, e.failedHashtags, k);
    var i :| 0 <= i < |es| && es[i] == (k, LastWrite(es, e.failedHashtags, k).value);
  }

  /** A tweet that carries its raw line is stored with that line as `fulltweet`. */
  lemma RawBytesStored(s: State, t: Tweet, raw: Bytes, c: Codec, e: Engine)
    requires t.rawBytes == Some(raw) && t.id !in e.failedTweets
    requires s.tx.None? && e.beginOk && e.commitOk
    ensures Transact(s, SaveBatch([t]), c, e).0.db.tweets[t.id].fulltweet == raw
  {
    WriteAllSnoc(s.db, [], t, c, e);
  }

  /** Saving tweet by tweet, each in its own committed transaction. */
  function SaveEach(db: Tables, ts: seq<Tweet>, c: Codec, e: Engine): Tables
    decreases |ts|
  {
    if ts == [] then db
    else
      var (s, _) := Transact(State(SaveEach(db, ts[..|ts| - 1], c, e), None), SaveBatch([ts[|ts| - 1]]), c, e);
      s.db
  }

  /** When every engine call succeeds, one batch transaction stores what separate saves would. */
  lemma BatchEqualsSequentialSaves(db: Tables, ts: seq<Tweet>, c: Codec, e: Engine)
    requires e.beginOk && e.commitOk
    ensures Transact(State(db, None), SaveBatch(ts), c, e) == (State(SaveEach(db, ts, c, e), None), false)
  {
    WriteAllIsSaveEach(db, ts, c, e);
  }

  lemma {:induction false} WriteAllIsSaveEach(db: Tables, ts: seq<Tweet>, c: Codec, e: Engine)
    requires e.beginOk && e.commitOk
    ensures WriteAll(db, ts, c, e) == SaveEach(db, ts, c, e)
    decreases |ts|
  {
    if ts != [] {
      var front := ts[..|ts| - 1];
      WriteAllIsSaveEach(db, front, c, e);
      SaveEachStep(db, ts, c, e);
    }
  }

  /** The last of the separate saves writes the last tweet over what the others stored. */
  lemma SaveEachStep(db: Tables, ts: seq<Tweet>, c: Codec, e: Engine)
    requires e.beginOk && e.commitOk && ts != []
    ensures SaveEach(db, ts, c, e) == WriteTweet(SaveEach(db, ts[..|ts| - 1], c, e), ts[|ts| - 1], c, e)
    ensures WriteAll(db, ts, c, e) == WriteTweet(WriteAll(db, ts[..|ts| - 1], c, e), ts[|ts| - 1], c, e)
  {
    WriteAllSnoc(SaveEach(db, ts[..|ts| - 1], c, e), [], ts[|ts| - 1], c, e);
  }

  /** A run of saves, each against the state the previous one left. */
  function RunAll(s: State, ws: seq<Work>, c: Codec, es: seq<Engine>): State
    requires |es| == |ws|
    decreases |ws|
  {
    if ws == [] then s
    else Transact(RunAll(s, ws[..|ws| - 1], c, es[..|es| - 1]), ws[|ws| - 1], c, es[|es| - 1]).0
  }

  /**
   * While a transaction is current, no save commits: the committed tables stay
   * as they are. After a failed commit the transaction stays current and no
   * later save owns it, so nothing is ever committed again.
   */
  lemma {:induction false} NoCommitUnderOpenTx(s: State, ws: seq<Work>, c: Codec, es: seq<Engine>)
    requires |es| == |ws| && s.tx.Some?
    ensures RunAll(s, ws, c, es).db == s.db && RunAll(s, ws, c, es).tx.Some?
    decreases |ws|
  {
    if ws != [] {
      NoCommitUnderOpenTx(s, ws[..|ws| - 1], c, es[..|es| - 1]);
    }
  }

  lemma FailedCommitLeaksTx(s: State, w: Work, c: Codec, e: Engine)
    requires s.tx.None? && e.beginOk && !e.commitOk
    ensures Transact(s, w, c, e).0.db == s.db && Transact(s, w, c, e).0.tx == Some(Tx(Apply(s.db, w, c, e)))
  {
  }

  // ----- properties of the reads -----

  /** Every stored row decodes, to a tweet whose id is the row's key. */
  ghost predicate WellFormed(t: Tables, c: Codec)
  {
    forall k :: k in t.tweets ==> c.unmarshal(t.tweets[k].fulltweet).ok && c.unmarshal(t.tweets[k].fulltweet).value.id == k
  }

  function Ids(ts: seq<Tweet>): seq<int>
  {
    seq(|ts|, i requires 0 <= i < |ts| => ts[i].id)
  }

  /** Over a well-formed store, `TweetsAfterId(x)` returns exactly the ids above `x`, highest first. */
  lemma TweetsAfterExact(t: Tables, x: int, c: Codec)
    requires WellFormed(t, c)
    ensures StrictlyDecreasing(Ids(TweetsAfter(t, x, c)))
    ensures forall k :: k in Ids(TweetsAfter(t, x, c)) <==> k in t.tweets && k > x
  {
    var ks := SortedDesc(KeysAbove(t, x));
    SortedDescSpec(KeysAbove(t, x));
    var r := TweetsAfter(t, x, c);
    forall i | 0 <= i < |r| ensures r[i].id == ks[i] {
      DecodeRowsAt(t.tweets, ks, c, true, i);
    }
    assert Ids(r) == ks;
  }

  /** An undecodable row is listed in its place as a placeholder with id 0 and screen name "Fail". */
  lemma UndecodableRowIsPlaceholder(t: Tables, x: int, c: Codec, i: nat)
    requires i < |TweetsAfter(t, x, c)|
    ensures i < |SortedDesc(KeysAbove(t, x))| && SortedDesc(KeysAbove(t, x))[i] in t.tweets
    ensures !c.unmarshal(t.tweets[SortedDesc(KeysAbove(t, x))[i]].fulltweet).ok ==>
      TweetsAfter(t, x, c)[i].id == 0 && TweetsAfter(t, x, c)[i].screenName == "Fail"
  {
    SortedDescSpec(KeysAbove(t, x));
    DecodeRowsAt(t.tweets, SortedDesc(KeysAbove(t, x)), c, true, i);
  }

  /** Over a well-formed store, `RecentTweets(n)` returns the n highest ids (all, if fewer), highest first. */
  lemma RecentHighest(t: Tables, count: nat, c: Codec)
    requires WellFormed(t, c)
    ensures |Recent(t, count, c)| == if count < |t.tweets| then count else |t.tweets|
    ensures StrictlyDecreasing(Ids(Recent(t, count, c)))
    ensures forall k :: k in Ids(Recent(t, count, c)) ==> k in t.tweets
    ensures forall i, k :: 0 <= i < |Recent(t, count, c)| && k in t.tweets && k !in Ids(Recent(t, count, c)) ==>
      k < Ids(Recent(t, count, c))[i]
  {
    SortedDescSpec(t.tweets.Keys);
    assert |t.tweets.Keys| == |t.tweets|;
    var ks := RecentIds(t, count, c);
    var _ := DescendingPrefix(SortedDesc(t.tweets.Keys), t.tweets.Keys, count);
  }

  /** The first `count` elements of a set listed largest first: the largest ones, still largest first. */
  lemma DescendingPrefix(all: seq<int>, s: set<int>, count: nat) returns (ks: seq<int>)
    requires |all| == |s| && StrictlyDecreasing(all) && forall x :: x in all <==> x in s
    ensures ks == if count < |all| then all[..count] else all
    ensures |ks| == if count < |s| then count else |s|
    ensures StrictlyDecreasing(ks)
    ensures forall k :: k in ks ==> k in s
    ensures forall i, k :: 0 <= i < |ks| && k in s && k !in ks ==> k < ks[i]
  {
    ks := if count < |all| then all[..count] else all;
    assert forall i :: 0 <= i < |ks| ==> ks[i] == all[i];
    forall i, j | 0 <= i < j < |ks| ensures ks[i] > ks[j] {
      assert ks[i] == all[i] && ks[j] == all[j];
    }
    forall k | k in ks ensures k in s {
      var j :| 0 <= j < |ks| && ks[j] == k;
      assert all[j] == k;
    }
    forall i, k | 0 <= i < |ks| && k in s && k !in ks ensures k < ks[i] {
      var j :| 0 <= j < |all| && all[j] == k;
      if j < |ks| {
        assert false;
      }
      assert all[i] > all[j];
    }
  }

  /** The ids `RecentTweets(n)` lists are the first n of all ids, highest first. */
  lemma RecentIds(t: Tables, count: nat, c: Codec) returns (ks: seq<int>)
    requires WellFormed(t, c)
    ensures ks == (var all := SortedDesc(t.tweets.Keys); if count < |all| then all[..count] else all)
    ensures Ids(Recent(t, count, c)) == ks && |Recent(t, count, c)| == |ks|
  {
    var all := SortedDesc(t.tweets.Keys);
    SortedDescSpec(t.tweets.Keys);
    ks := if count < |all| then all[..count] else all;
    var r := Recent(t, count, c);
    forall i | 0 <= i < |r| ensures r[i].id == ks[i] {
      DecodeRowsAt(t.tweets, ks, c, true, i);
    }
    assert Ids(r) == ks;
  }

  // ----- the store object -----

  class SqliteTweetStore {
    var db: Tables
    var currentTx: Option<Tx>
    const codec: Codec

    /** A store over already existing tables, with no transaction open. */
    constructor (codec: Codec, db: Tables)
      ensures this.codec == codec && this.db == db && currentTx == None
    {
      this.codec := codec;
      this.db := db;
      currentTx := None;
    }

    function Snapshot(): State
      reads this
    {
      State(db, currentTx)
    }

    /** Opens a transaction only when none is current; otherwise does nothing. */
    method BeginTransaction(ok: bool)
      modifies this
      ensures db == old(db)
      ensures currentTx == if old(currentTx).None? && ok then Some(Tx(db)) else old(currentTx)
    {
      if currentTx.None? {
        if ok {
          currentTx := Some(Tx(db));
        }
      }
    }

    /** Publishes the current transaction; on an engine error the transaction stays current. */
    method CommitTransaction(ok: bool)
      modifies this
      ensures old(currentTx).Some? && ok ==> db == old(currentTx).value.view && currentTx == None
      ensures !(old(currentTx).Some? && ok) ==> db == old(db) && currentTx == old(currentTx)
    {
      if currentTx.Some? {
        if ok {
          db := currentTx.value.view;
          currentTx := None;
        }
      }
    }

    /** Drops the current transaction; on an engine error the transaction stays current. */
    method RollbackTransaction(ok: bool)
      modifies this
      ensures db == old(db)
      ensures currentTx == if old(currentTx).Some? && ok then None else old(currentTx)
    {
      if currentTx.Some? {
        if ok {
          currentTx := None;
        }
      }
    }

    /** The current transaction, begun here if there was none; `own` says whether the caller opened it. */
    method GetOrStartTransaction(beginOk: bool) returns (tx: Option<Tx>, own: bool)
      modifies this
      ensures own <==> old(currentTx).None?
      ensures db == old(db)
      ensures currentTx == if own && beginOk then Some(Tx(db)) else old(currentTx)
      ensures tx == currentTx
    {
      own := false;
      if currentTx.None? {
        own := true;
        BeginTransaction(beginOk);
      }
      tx := currentTx;
    }

    /** Upserts the tweet's media, mention, url and hashtag rows; commits only a transaction it opened. */
    method SaveEntities(tweet: Tweet, e: Engine) returns (panicked: bool)
      modifies this
      ensures (Snapshot(), panicked) == Transact(old(Snapshot()), SaveEntitiesOf(tweet), codec, e)
    {
      var tx, own := GetOrStartTransaction(e.beginOk);
      if tx.None? {
        // the first `tx.Exec` on a nil *sql.Tx panics
        if HasEntities(tweet) {
          return true;
        }
        panicked := false;
      } else {
        var v := tx.value.view;
        var media := InsertOrReplace(v.media, MediaEntries(tweet), e.failedMedia);
        var mentions := InsertOrReplace(v.mentions, MentionEntries(tweet), e.failedMentions);
        var urls := InsertOrReplace(v.urls, UrlEntries(tweet), e.failedUrls);
        var hashtags := InsertOrReplace(v.hashtags, HashtagEntries(tweet), e.failedHashtags);
        currentTx := Some(Tx(v.(media := media, mentions := mentions, urls := urls, hashtags := hashtags)));
        panicked := false;
      }
      if own {
        CommitTransaction(e.commitOk);
      }
    }

    /** Upserts the tweet row, its timestamp row and its entities; commits only a transaction it opened. */
    method SaveTweet(tweet: Tweet, e: Engine) returns (panicked: bool)
      modifies this
      ensures (Snapshot(), panicked) == Transact(old(Snapshot()), SaveBatch([tweet]), codec, e)
    {
      var tx, own := GetOrStartTransaction(e.beginOk);
      if tx.None? {
        // `tx.Exec` on a nil *sql.Tx panics
        return true;
      }
      var createdAt := match codec.parseTime(tweet.createdAt) case Some(u) => u case None => ZeroTimeUnix;
      var raw := tweet.rawBytes;
      if raw.None? {
        raw := codec.marshal(tweet);
      }
      var fulltweet := if raw.Some? then raw.value else [];
      assert createdAt == StoredTime(codec, tweet) && fulltweet == FullTweet(codec, tweet);
      ghost var view := tx.value.view;
      var v := tx.value.view;
      if tweet.id !in e.failedTweets {
        v := v.(tweets := v.tweets[tweet.id := TweetRow(tweet.screenName, createdAt, tweet.text, fulltweet)]);
      }
      if tweet.id !in e.failedTimestamps {
        v := v.(timestamps := v.timestamps[tweet.id := createdAt]);
      }
      assert v == WriteRows(view, tweet, codec, e);
      currentTx := Some(Tx(v));
      panicked := SaveEntities(tweet, e);
      assert currentTx == Some(Tx(WriteTweet(view, tweet, codec, e)));
      WriteAllSnoc(view, [], tweet, codec, e);
      if own {
        CommitTransaction(e.commitOk);
      }
    }

    /** Saves every tweet inside one transaction that only this call commits, if it opened it. */
    method SaveTweets(tweets: seq<Tweet>, e: Engine) returns (panicked: bool)
      modifies this
      ensures (Snapshot(), panicked) == Transact(old(Snapshot()), SaveBatch(tweets), codec, e)
    {
      var tx, own := GetOrStartTransaction(e.beginOk);
      if tx.None? && tweets != [] {
        // the first nested SaveTweet begins again, fails again and panics
        panicked := SaveTweet(tweets[0], e);
        return;
      }
      for i := 0 to |tweets|
        invariant db == old(db)
        invariant tx.Some? ==> currentTx == Some(Tx(WriteAll(tx.value.view, tweets[..i], codec, e)))
        invariant tx.None? ==> tweets == [] && currentTx == None
      {
        assert tweets[..i + 1] == tweets[..i] + [tweets[i]];
        if tx.Some? {
          WriteAllSnoc(tx.value.view, tweets[..i], tweets[i], codec, e);
          WriteAllSnoc(WriteAll(tx.value.view, tweets[..i], codec, e), [], tweets[i], codec, e);
        }
        var p := SaveTweet(tweets[i], e);
      }
      assert tweets[..|tweets|] == tweets;
      if own {
        CommitTransaction(e.commitOk);
      }
      panicked := false;
    }

    /** The largest stored tweet id; 0 when the table is empty or the query fails. */
    method LatestTweetId(queryOk: bool) returns (id: int)
      ensures !queryOk || db.tweets == map[] ==> id == 0
      ensures queryOk && db.tweets != map[] ==> id in db.tweets && forall k :: k in db.tweets ==> k <= id
    {
      if !queryOk || |db.tweets| == 0 {
        return 0;
      }
      ghost var top := Max(db.tweets.Keys);
      id :| id in db.tweets && forall k :: k in db.tweets ==> k <= id;
    }

    /** Every stored tweet with id greater than `tweetid`, highest id first; a failed query yields nothing. */
    method TweetsAfterId(tweetid: int, queryOk: bool) returns (tweets: seq<Tweet>)
      ensures tweets == if queryOk then TweetsAfter(db, tweetid, codec) else []
    {
      if !queryOk {
        return [];
      }
      var selected := set k | k in db.tweets && k > tweetid;
      var rows := OrderByIdDesc(selected, None);
      assert rows == SortedDesc(KeysAbove(db, tweetid));
      tweets := [];
      for i := 0 to |rows|
        invariant tweets == DecodeRows(db.tweets, rows[..i], codec, true)
      {
        assert rows[..i + 1][..i] == rows[..i];
        tweets := tweets + [DecodeListed(codec, db.tweets[rows[i]].fulltweet)];
      }
      assert rows[..|rows|] == rows;
    }

    /** The `count` stored tweets with the highest ids, highest first; a failed query yields nothing. */
    method RecentTweets(count: nat, queryOk: bool) returns (tweets: seq<Tweet>)
      ensures tweets == if queryOk then Recent(db, count, codec) else []
    {
      if !queryOk {
        return [];
      }
      var rows := OrderByIdDesc(db.tweets.Keys, Some(count));
      tweets := [];
      for i := 0 to |rows|
        invariant tweets == DecodeRows(db.tweets, rows[..i], codec, true)
      {
        assert rows[..i + 1][..i] == rows[..i];
        tweets := tweets + [DecodeListed(codec, db.tweets[rows[i]].fulltweet)];
      }
      assert rows[..|rows|] == rows;
    }

    /** Every stored tweet whose time lies strictly between `start` and `end`, highest id first. */
    method IntervalTweets(start: int, end: int, queryOk: bool) returns (tweets: seq<Tweet>)
      ensures tweets == if queryOk then Between(db, start, end, codec) else []
    {
      if !queryOk {
        return [];
      }
      var selected := set k | k in db.tweets && start < db.tweets[k].time < end;
      var rows := OrderByIdDesc(selected, None);
      assert rows == SortedDesc(KeysBetween(db, start, end));
      tweets := [];
      for i := 0 to |rows|
        invariant tweets == DecodeRows(db.tweets, rows[..i], codec, false)
      {
        assert rows[..i + 1][..i] == rows[..i];
        tweets := tweets + [DecodeInterval(codec, db.tweets[rows[i]].fulltweet)];
      }
      assert rows[..|rows|] == rows;
    }

    /**
     * The url rows joined with tweets whose time lies strictly between
     * `start` and `end`, by descending tweet id; `keys` names the row each
     * url came from (rows of one tweet come in no particular order).
     */
    method IntervalUrls(start: int, end: int, queryOk: bool) returns (urls: seq<TwitterUrl>, ghost keys: seq<(string, int)>)
      ensures |keys| == |urls|
      ensures !queryOk ==> urls == []
      ensures queryOk ==> forall k :: k in keys <==> k in UrlKeysBetween(db, start, end)
      ensures Distinct(keys) && ByTweetIdDesc(keys)
      ensures forall i :: 0 <= i < |keys| ==> keys[i] in db.urls && urls[i] == db.urls[keys[i]]
    {
      urls, keys := [], [];
      if !queryOk {
        return;
      }
      var selected := set k | k in db.urls && k.1 in db.tweets && start < db.tweets[k.1].time < end;
      assert selected == UrlKeysBetween(db, start, end);
      var rows := OrderByTweetIdDesc(selected);
      for i := 0 to |rows|
        invariant |urls| == i
        invariant forall n :: 0 <= n < i ==> urls[n] == db.urls[rows[n]]
      {
        urls := urls + [db.urls[rows[i]]];
      }
      keys := rows;
    }
  }

  predicate Distinct<T(==)>(xs: seq<T>)
  {
    forall i, j :: 0 <= i < j < |xs| ==> xs[i] != xs[j]
  }

  predicate ByTweetIdDesc(xs: seq<(string, int)>)
  {
    forall i, j :: 0 <= i < j < |xs| ==> xs[i].1 >= xs[j].1
  }

  /** At most `limit` leading elements (all of them when there is no limit). */
  function Limit(xs: seq<int>, limit: Option<nat>): seq<int>
  {
    if limit.Some? && limit.value < |xs| then xs[..limit.value] else xs
  }

  /** The engine's `ORDER BY tweetid DESC [LIMIT n]` over the selected keys. */
  method OrderByIdDesc(ks: set<int>, limit: Option<nat>) returns (rows: seq<int>)
    ensures rows == Limit(SortedDesc(ks), limit)
    ensures forall i :: 0 <= i < |rows| ==> rows[i] in ks
  {
    var remaining := ks;
    rows := [];
    while remaining != {} && (limit.None? || |rows| < limit.value)
      invariant rows + SortedDesc(remaining) == SortedDesc(ks)
      invariant limit.Some? ==> |rows| <= limit.value
      decreases |remaining|
    {
      var k :| k in remaining && forall j :: j in remaining ==> j <= k;
      SortedDescStep(remaining, k);
      rows := rows + [k];
      remaining := remaining - {k};
    }
    LimitOfListing(rows, remaining, ks, limit);
  }

  lemma LimitOfListing(rows: seq<int>, remaining: set<int>, ks: set<int>, limit: Option<nat>)
    requires rows + SortedDesc(remaining) == SortedDesc(ks)
    requires limit.Some? ==> |rows| <= limit.value
    requires remaining == {} || (limit.Some? && |rows| == limit.value)
    ensures rows == Limit(SortedDesc(ks), limit)
    ensures forall i :: 0 <= i < |rows| ==> rows[i] in ks
  {
    SortedDescSpec(ks);
    var whole := SortedDesc(ks);
    assert rows == whole[..|rows|];
    if remaining == {} {
      assert rows == whole;
    }
    forall i | 0 <= i < |rows| ensures rows[i] in ks {
      assert rows[i] == whole[i];
    }
  }

  /** The engine's `ORDER BY tweets.tweetid DESC` over url rows; ties come in any order. */
  method OrderByTweetIdDesc(ks: set<(string, int)>) returns (rows: seq<(string, int)>)
    ensures forall k :: k in rows <==> k in ks
    ensures forall i :: 0 <= i < |rows| ==> rows[i] in ks
    ensures Distinct(rows) && ByTweetIdDesc(rows)
  {
    var remaining := ks;
    rows := [];
    while remaining != {}
      invariant forall k :: k in ks <==> k in rows || k in remaining
      invariant forall k :: k in rows ==> k !in remaining
      invariant Distinct(rows) && ByTweetIdDesc(rows)
      invariant forall i, k :: 0 <= i < |rows| && k in remaining ==> rows[i].1 >= k.1
      decreases |remaining|
    {
      MaxTweetIdExists(remaining);
      var k :| k in remaining && forall j :: j in remaining ==> j.1 <= k.1;
      rows := rows + [k];
      remaining := remaining - {k};
    }
  }
}
