# tweetlog, modelled in Dafny

tweetlog archives a user's Twitter feed. It keeps one user stream connected and
backs off when rate-limited. It frames the stream into lines and sorts each line
into a tweet, a friend list or an event. Tweets, their timestamps and their
entities (media, mentions, urls, hashtags) go into SQLite, under transactions
owned by whoever opened them. The account's history is back-filled over the REST
API, at most five pages per call. A web server polls the store every five
seconds and sends the new tweets, then a heartbeat, to every connected websocket
through a hub. A client whose 256-message queue is full is evicted. Simple
frequency analytics rank urls, users and hashtags.

The model has one module per source file. The modules import two helper
modules: `Wrappers` (Option) and `Ordering` (the order of `ORDER BY tweetid DESC`).

- `Twitter` (twitter.dfy): the value types the core exchanges. JSON
  encoding and decoding and RubyDate parsing are a `Codec` of total functions
  handed in by the caller.
- `TweetStore` (tweetstore.dfy): the class `SqliteTweetStore`, which has the
  committed tables and the current transaction as fields.
  - Each table is a map keyed by its primary or UNIQUE key, so
    `INSERT OR REPLACE` is a map update.
  - A transaction is its own view of the tables. A commit publishes the view.
  - What the engine does with each call is an `Engine` value: whether Begin
    and Commit succeed, and which inserts fail.
  - `Transact` is the function the write methods are proved against. The
    properties of the writes and reads are lemmas about that function and the
    read functions.
- `TweetRest` (tweetrest.dfy):
  - The class `TwitterClient`, which holds the stream backoff.
  - `ReadHttpStream` as a loop over the body bytes, proved equal to the
    framing function `Frame`.
  - The stream loop proved against `Maintain`, over a sequence of connection
    attempts.
  - The three Fill loops proved against `Search` and `Timeline`, over the
    sequence of the server's replies.
- `SaveTweetStream` (savetweetstream.dfy): line classification and the main
  loop. The line channel is the sequence of lines sent before it was closed.
  The loop is proved against `Process`. The loop as the source writes it, which
  ignores the close, is modelled beside it.
- `Serve` (serve.dfy):
  - Classes `Conn`, `Hub` and `TweetServer`.
  - A connection's buffered channel is its sequence of queued messages plus a
    closed flag.
  - The hub handles one request at a time, as its select loop does.
  - What one connection receives under a series of broadcasts is the function
    `Fanout`.
- `Analytics` (analytics.dfy):
  - Counting into maps is specified by `Tally`.
  - `sortedKeys` is modelled as a class over an `array`, with `Len`, `Less`
    and `Swap`. It is sorted in place by an insertion sort that uses only
    `Less` and `Swap`.

Where the code and the documented design differ, the model follows the code:

- The stream backoff doubles without any cap.
- A live tick broadcasts new tweets in the store's descending id order, not
  in ascending order.
- A non-200 REST reply is not treated as an empty page. Its body is decoded
  and whatever tweets it holds are appended.
- Only the home timeline treats an undecodable page as fatal. It ends the
  process.
- A save is not atomic per tweet. A failed insert is skipped and the tweet's
  other rows are still written. Nothing is ever rolled back. A failed commit
  leaves its transaction current for good, so later saves are never committed.
- An undecodable row in `RecentTweets`/`TweetsAfterId` is returned as a
  placeholder tweet, not dropped.

## Model

| member | source | states |
|---|---|---|
| Ordering.SortedDescSpec | tweetstore/tweetstore.go:288 | `ORDER BY tweetid DESC` lists every selected id exactly once, each larger than all after it. |
| Ordering.SortedDescUnique | tweetstore/tweetstore.go:254 | A strictly decreasing listing of exactly the selected ids is that order, so the row order is fully determined. |
| TweetStore.UpsertAt | tweetstore/tweetstore.go:186-189 | After a run of `INSERT OR REPLACE`s, a key is present iff it had an accepted write or was there before. It holds its last accepted write, else its old value. |
| TweetStore.LastWriteOf | tweetstore/tweetstore.go:191-197 | An accepted entry with no later entry for its key is the last write for that key. |
| TweetStore.LastWriteFrom | tweetstore/tweetstore.go:216-222 | A key's last write comes from one of the entries, and that key was not rejected. |
| TweetStore.UpsertIdempotent | tweetstore/tweetstore.go:96-99 | Upserting the same entries twice leaves the table as upserting once does: the UNIQUE keys prevent duplicate rows. |
| TweetStore.InsertOrReplace | tweetstore/tweetstore.go:191-197 | One entity loop leaves the table that applying its entries in order gives, with rejected inserts skipped. |
| TweetStore.SaveTwiceOneRow | tweetstore/tweetstore.go:131-143 | Saving two tweets with the same id leaves the second one's row and timestamp, and adds no other key. |
| TweetStore.ResaveIdempotent | tweetstore/tweetstore.go:114-164 | Saving a tweet again changes no table. |
| TweetStore.MediaRowStored | tweetstore/tweetstore.go:191-197 | An accepted media insert is stored under (mediaid, tweetid), whatever other inserts fail, unless a later entity of the tweet has the same key. |
| TweetStore.UrlRowStored | tweetstore/tweetstore.go:208-214 | The same for a url entity, under (expanded_url, tweetid). |
| TweetStore.HashtagRowsFromTweet | tweetstore/tweetstore.go:216-222 | Every new hashtag row of a saved tweet has that tweet's id, was accepted, and comes from one of its hashtags. |
| TweetStore.RawBytesStored | tweetstore/tweetstore.go:124-131 | A tweet that carries its raw bytes is stored with exactly those bytes as `fulltweet`. |
| TweetStore.BatchEqualsSequentialSaves | tweetstore/tweetstore.go:166-181 | When every engine call succeeds, one batch transaction commits what separate committed saves of the tweets, in order, would. It leaves no transaction open. |
| TweetStore.NoCommitUnderOpenTx | tweetstore/tweetstore.go:160-162 | While a transaction is current, no run of saves changes the committed tables, and a transaction stays current. |
| TweetStore.FailedCommitLeaksTx | tweetstore/tweetstore.go:51-61 | A save whose commit fails leaves the committed tables unchanged. Its writes stay in a transaction that is still current. |
| TweetStore.DecodeRowsAt | tweetstore/tweetstore.go:294-315 | The i-th tweet listed is the decode of the i-th selected row: a placeholder when it fails, in the listing reads. |
| TweetStore.TweetsAfterExact | tweetstore/tweetstore.go:286-318 | Over rows that decode to their own id, `TweetsAfterId(x)` returns exactly the stored ids above x, strictly decreasing. |
| TweetStore.UndecodableRowIsPlaceholder | tweetstore/tweetstore.go:303-311 | A row that does not decode is returned in its place as a tweet with id 0 and screen name "Fail". |
| TweetStore.RecentHighest | tweetstore/tweetstore.go:252-284 | `RecentTweets(n)` returns min(n, stored) tweets, strictly decreasing in id. Every stored id left out is below every id returned. |
| TweetStore.OrderByIdDesc | tweetstore/tweetstore.go:254-255 | The rows come largest id first, cut after `LIMIT` rows when there is a limit. |
| TweetStore.OrderByTweetIdDesc | tweetstore/tweetstore.go:323 | The url rows come each exactly once, ordered by descending tweet id. |
| TweetStore.SqliteTweetStore.BeginTransaction | tweetstore/tweetstore.go:39-49 | Opens a transaction only when none is current and Begin succeeds. Otherwise nothing changes. |
| TweetStore.SqliteTweetStore.CommitTransaction | tweetstore/tweetstore.go:51-61 | A successful commit publishes the transaction's view and clears it. A failed commit, or no transaction, changes nothing. |
| TweetStore.SqliteTweetStore.RollbackTransaction | tweetstore/tweetstore.go:63-73 | A successful rollback drops the transaction without touching the tables. A failed one changes nothing. |
| TweetStore.SqliteTweetStore.GetOrStartTransaction | tweetstore/tweetstore.go:75-86 | The caller owns the transaction iff none was current. The handle returned is the current transaction, which may be nil after a failed Begin. |
| TweetStore.SqliteTweetStore.SaveEntities | tweetstore/tweetstore.go:183-232 | The new state and the panic flag are those of `Transact` applied to the tweet's entity upserts. |
| TweetStore.SqliteTweetStore.SaveTweet | tweetstore/tweetstore.go:114-164 | The new state and the panic flag are those of `Transact` applied to the one-tweet batch. |
| TweetStore.SqliteTweetStore.SaveTweets | tweetstore/tweetstore.go:166-181 | The new state and the panic flag are those of `Transact` applied to the whole batch. |
| TweetStore.SqliteTweetStore.LatestTweetId | tweetstore/tweetstore.go:240-250 | Returns the largest stored id, or 0 when the table is empty or the query fails. |
| TweetStore.SqliteTweetStore.TweetsAfterId | tweetstore/tweetstore.go:286-318 | Returns the decoded rows above the id, highest first, or nothing when the query fails. |
| TweetStore.SqliteTweetStore.RecentTweets | tweetstore/tweetstore.go:252-284 | Returns the first `count` rows of the descending listing, decoded, or nothing when the query fails. |
| TweetStore.SqliteTweetStore.IntervalTweets | tweetstore/tweetstore.go:351-378 | Returns the tweets whose time lies strictly between start and end, highest id first, as decoded. Nothing when the query fails. |
| TweetStore.SqliteTweetStore.IntervalUrls | tweetstore/tweetstore.go:320-349 | Returns exactly the url rows of tweets timed strictly inside the interval, each once, by descending tweet id. Nothing when the query fails. |
| TweetRest.NewlineFromSpec | tweetrest.go:285 | The delimiter found is a newline, and no newline comes before it. |
| TweetRest.NextDelimiter | tweetrest.go:285 | `ReadBytes('\n')` stops at the first newline, or at the end of the body. |
| TweetRest.SkipSpaceSpec | tweetrest.go:290 | Trimming skips exactly the leading white space. |
| TweetRest.CutSpaceSpec | tweetrest.go:290 | Trimming cuts exactly the trailing white space. |
| TweetRest.ReadHttpStream | tweetrest.go:279-298 | The lines forwarded are exactly `Frame(body)`, in order. |
| TweetRest.FramedLines | tweetrest.go:284-297 | Every forwarded line is non-empty, holds no newline and has no white space at either end. |
| TweetRest.UnterminatedTailDropped | tweetrest.go:285-289 | Bytes after the last newline never reach the channel: appending them changes nothing that is forwarded. |
| TweetRest.FrameJoin | tweetrest.go:279-298 | Framing inverts joining: lines that could have been forwarded, each followed by a newline, come back unchanged. |
| TweetRest.BackoffDoubles | tweetrest.go:263-269 | Consecutive rate-limit answers sleep 5, 10, 20, ... seconds from a zero backoff, or 2b, 4b, ... from b, with no cap. |
| TweetRest.ResetOnSuccess | tweetrest.go:260-262 | A 200 answer resets the backoff, so the next rate-limit answer sleeps 5 seconds whatever came before. |
| TweetRest.ClosedIffFatal | tweetrest.go:270-274 | The channel is closed iff some attempt gets a status other than 200, 420 or 503. The close is the last event. |
| TweetRest.NothingAfterClose | tweetrest.go:270-274 | After a fatal status, further attempts change nothing: the loop has returned. |
| TweetRest.StreamConnected | tweetrest.go:260-262 | A 200 answer forwards the body's lines and goes on with backoff 0. |
| TweetRest.StreamRateLimited | tweetrest.go:263-269 | A 420 or 503 answer sleeps for the increased backoff and goes on with it. |
| TweetRest.StreamRefused | tweetrest.go:270-274 | Any other answer closes the channel and ends the loop. |
| TweetRest.SearchQuery | tweetrest.go:29-37 | The search query has `since_id` iff the bound is non-zero, and then it is that bound. |
| TweetRest.UserTimelineQuery | tweetrest.go:95-102 | The same for the user timeline query. |
| TweetRest.HomeTimelineQuery | tweetrest.go:155-161 | The same for the home timeline query. |
| TweetRest.BelowKeepsQuery | tweetrest.go:140-144 | The next timeline query differs only in `max_id`, which is one less than the page's last id. |
| TweetRest.TimelineCount | tweetrest.go:111 | A timeline call sends between one and five requests, the first with the initial query. |
| TweetRest.TimelineKeepsQuery | tweetrest.go:140-144 | Every timeline request agrees with the initial query except in `max_id`. |
| TweetRest.TimelineChain | tweetrest.go:140-147 | Each timeline request after the first follows a non-empty (and, on the home timeline, decodable) page. It asks for `max_id` one below that page's last id. |
| TweetRest.TimelineEnds | tweetrest.go:111-147 | A timeline call exits the process iff its last request failed in transport or, on the home timeline, did not decode. Short of five requests, its last page is one the loop does not go on from. |
| TweetRest.TimelineResults | tweetrest.go:131-136 | A timeline call returns the pages of its requests concatenated in order, and none of a reply on which it exits. |
| TweetRest.TimelineIgnoresStatus | tweetrest.go:125-128 | Replies that differ only in status give the same timeline call: a non-200 page is appended all the same. |
| TweetRest.SearchCount | tweetrest.go:46 | A search call sends between one and five requests, the first with the initial query. |
| TweetRest.SearchChain | tweetrest.go:75-87 | Each search request after the first is what the previous reply's non-empty, parsable `next_results` parses to. |
| TweetRest.SearchEnds | tweetrest.go:46-88 | A search call exits the process iff its last request failed in transport. Short of five requests, its last reply has an empty or unparsable `next_results`. |
| TweetRest.SearchResults | tweetrest.go:66-71 | A search call returns the pages of its requests concatenated in order, and none of a reply on which it exits. |
| TweetRest.SearchIgnoresStatus | tweetrest.go:60-63 | Replies that differ only in status give the same search call. |
| TweetRest.TwitterClient.MaintainUserStream | tweetrest.go:253-277 | The events and the final backoff are those of `Maintain` over the attempts, starting from the old backoff. |
| TweetRest.TwitterClient.FillSearch | tweetrest.go:27-91 | Results, requests and exit are those of `Search` from the search query. |
| TweetRest.TwitterClient.FillUserTimeline | tweetrest.go:93-151 | Results, requests and exit are those of the lenient `Timeline` from the user timeline query. |
| TweetRest.TwitterClient.FillHomeTimeline | tweetrest.go:153-216 | Results, requests and exit are those of the strict `Timeline` from the home timeline query. |
| SaveTweetStream.TryTwitterTypes | savetweetstream.go:216-242 | A tweet iff the decoded text is non-empty. Otherwise a friend list iff it has friends, otherwise an event iff it names one. Each carries what its decode filled in. |
| SaveTweetStream.Stamped | savetweetstream.go:184 | The tweet saved carries the line it was read from. |
| SaveTweetStream.OnlyTweetsPersisted | savetweetstream.go:189-194 | Lines that are not tweets leave the store exactly as it was. |
| SaveTweetStream.ProcessSplit | savetweetstream.go:175-196 | Lines are handled in order: `pre + post` is `pre`, then, unless that panicked, `post` from there. |
| SaveTweetStream.StoredLineIsRaw | savetweetstream.go:184-185 | A tweet line saved with every engine call succeeding is committed with the line itself as its `fulltweet`. |
| SaveTweetStream.ProcessLines | savetweetstream.go:174-197 | The new store and the panic flag are those of `Process` over every line sent before the channel closed. The loop returns at the close, or at the first panic. |
| SaveTweetStream.AsWrittenBeforeClose | savetweetstream.go:175-196 | Until the channel closes, the loop as written handles the lines exactly as `Process` does. |
| SaveTweetStream.SpinsAfterClose | savetweetstream.go:174-177 | After the channel is closed, every further iteration of the loop as written receives an empty line that is not recognised. However many iterations run, the store is unchanged and the loop has not ended. |
| Serve.FanoutClosedForm | serve/serve.go:261-270 | A connection gets the longest prefix of the broadcasts that fits its free room, never holds more than 256 messages, and stays registered iff all of them fitted. |
| Serve.FirstFailureSpec | serve/serve.go:230-234 | Every send before the first failure succeeds, and the one there fails. |
| Serve.Conn.constructor | serve/serve.go:97 | A new connection has an empty, open queue and an open socket. |
| Serve.Conn.Writer | serve/serve.go:229-237 | Delivers the queue up to the first failed send and consumes that message. The socket is closed after a failure, or once a closed channel is drained. |
| Serve.Hub.constructor | serve/serve.go:43-48 | A new hub has no connections. |
| Serve.Hub.Register | serve/serve.go:256-257 | Adds the connection and keeps the hub's invariant for an open, bounded queue. |
| Serve.Hub.Unregister | serve/serve.go:258-260 | As written: removes the connection and closes its channel. It panics iff the channel was already closed. |
| Serve.Hub.SafeUnregister | serve/serve.go:258-260 | Corrected: closes the channel only of a registered connection, never panics, and keeps the invariant. |
| Serve.Hub.Broadcast | serve/serve.go:261-270 | A connection with room gets the message appended. A full one is removed, its channel and socket closed. No other queue changes. |
| Serve.EvictionThenUnregister | serve/serve.go:99 | Evicting a connection and then running its handler's deferred unregister panics the process. |
| Serve.EvictionThenSafeUnregister | serve/serve.go:266-267 | The same events with the corrected unregister do not panic, and end with the connection removed and its channel closed. |
| Serve.OneHeartbeatLast | serve/serve.go:110-118 | A tick sends one message per fetched tweet in order, then exactly one heartbeat, last. |
| Serve.CursorIsMax | serve/serve.go:113-115 | The cursor ends at the largest of its old value and the ids seen, so it never decreases. |
| Serve.Publish | serve/serve.go:110-116 | Broadcasts each tweet in order and raises the cursor. Every connection ends where `Fanout` of those messages puts it. |
| Serve.TweetServer.constructor | serve/serve.go:42-63 | Init: a fresh hub with no connections, over the given store, cursor 0. |
| Serve.TweetServer.Start | serve/serve.go:65-66 | The cursor starts at the largest stored id, or 0 for an empty table or failed query. |
| Serve.TweetServer.BroadcastTweet | serve/serve.go:77-85 | Every registered connection ends where `Fanout` of the one tweet message puts it. |
| Serve.TweetServer.Tick | serve/serve.go:104-120 | Sends the tweets above the cursor, then the heartbeat, and raises the cursor to the highest id seen. Every connection ends where `Fanout` of those messages puts it. |
| Analytics.TallyCounts | analytics/analytics.go:82 | A key is counted iff it occurs, and its count is its number of occurrences. |
| Analytics.TallyTotal | analytics/analytics.go:79-84 | The counts add up to the number of items counted. |
| Analytics.CountUrls | analytics/analytics.go:81-83 | The inner url loop adds one tweet's urls to the counts of those before. |
| Analytics.CountTags | analytics/analytics.go:103-105 | The inner hashtag loop adds one tweet's tags to the counts of those before. |
| Analytics.SortedMap.constructor | analytics/analytics.go:41-43 | The slice has one slot per map key (`Valid`). |
| Analytics.SortedMap.Len | analytics/analytics.go:28-30 | The map's size is the slice's length, so `Sort` and `Sink` can take their bound from it. |
| Analytics.SortedMap.Swap | analytics/analytics.go:36-38 | Exchanges two slots and leaves the multiset of keys as it was. |
| Analytics.Sort | analytics/analytics.go:49 | Sorting through `Less` and `Swap` rearranges the keys into non-increasing count order. |
| Analytics.SortedKeys | analytics/analytics.go:40-51 | Lists each key of the map exactly once, in non-increasing count order. |
| Analytics.EachKeyOnce | analytics/analytics.go:44-48 | A listing with the map's keys as its multiset has one entry per key and no repeat. |
| Analytics.MostFrequentFirst | analytics/analytics.go:32-34 | The first key listed by count has the largest count. |
| Analytics.Analytics.UrlsByFrequency | analytics/analytics.go:78-88 | Counts every expanded url of every tweet and lists the urls by frequency. |
| Analytics.Analytics.UsersByPosts | analytics/analytics.go:90-98 | Counts each user's tweets and lists the users by number of posts. |
| Analytics.Analytics.HashtagsByFrequency | analytics/analytics.go:100-110 | Counts every hashtag text of every tweet and lists the tags by frequency. |

## Left out

- serve/server.go and getoauth/getoauth.go are not part of this model. The same goes for the HTTP handlers `recentHandler`, `linksHandler` and `statsHandler`, and every `main`, with their flags and configuration.
- OAuth signing, request building (`url.Values.Encode`, `StartUserStream`, `VerifyCredentials`) and HTTP transport are left out. A stream attempt is a `Response` and a REST call's server is its sequence of `Reply`s.
- JSON encoding and decoding, `time.Parse(time.RubyDate, ...)` and `url.ParseQuery` are functions handed in by the caller, not modelled.
- Clocks, `time.Sleep` and `time.After` are left out. A sleep is a `Sleep(seconds)` event, and a tick of TimedStream runs when `Tick` is called.
- `IntervalTweetCount`, `PrevDayUrls` and `TweetFrequencies` are left out: they only combine `time.Now()` with queries.
- `Initialize` is left out: schema creation is external, and the table keys are the maps' keys.
- `SaveEvent` is left out: it executes nothing. `Query` is a pass-through to the driver.
- Goroutines, channel blocking and the hub's `select` are left out. The hub takes one register, unregister or broadcast at a time. `BroadcastTweet` calls `Broadcast` directly rather than sending on the hub's channel.
- Logging through `fmt.Printf` is left out.
- Process exit (`os.Exit`, `log.Fatal`) is an `exited` flag. A panic is a `panicked` flag.
- The text `Message` body is the empty string. Websocket JSON framing is left out. Each send's outcome is an argument.
- TweetRest.TwitterClient.MaintainUserStream: a failed `StartUserStream` leaves `resp` nil, and the source then dereferences it. This is not modelled: every attempt has a status.
- TweetRest.TwitterClient.MaintainUserStream: the backoff is an unbounded natural number. The `time.Duration` overflow after about 30 doublings is not modelled.
- TweetRest.ReadHttpStream: `bytes.TrimSpace` also trims Unicode white space such as U+0085 and U+00A0. The model trims ASCII white space only. A read error ends the body like end of file.
- TweetRest.TwitterClient.FillUserTimeline: ids are unbounded, so the int64 wrap of `id - 1` is not modelled. A status without an id, which the source dereferences, is not modelled either. The same holds for FillHomeTimeline.
- TweetStore.SqliteTweetStore.SaveTweet: the `time` column is stored as Unix seconds, like the timestamp table, not as a driver `time.Time`.
- TweetStore.SqliteTweetStore.SaveEntities: entity rows hold the entity value. Its JSON `object` column is not modelled.
- TweetStore.SqliteTweetStore.SaveTweets: one `Engine` value describes the whole call. A Begin that fails also fails when the first nested SaveTweet retries it.
- TweetStore.SqliteTweetStore.IntervalUrls: each row's `object` is taken to decode back to the stored url entity. The empty url appended for an undecodable object is not modelled, and the keys of the rows are a ghost result.
- TweetStore.SqliteTweetStore.RecentTweets: `count` is a natural number. A negative count, for which the source's `make` panics, is not modelled.
- TweetStore.SqliteTweetStore.TweetsAfterId: the models of the reads assume every row scans. A row skipped on a `Scan` error is not modelled. This also holds for RecentTweets, IntervalTweets and IntervalUrls.
- Analytics.Sort: the algorithm behind `sort.Sort` is not modelled. An insertion sort through `Less` and `Swap` stands for it, proved to give the result `sort.Sort` promises. Ties may come in any order either way.
- Analytics.SortedKeys: Go's random map iteration order is an arbitrary choice of the next key.
- SaveTweetStream.ProcessLines: a channel that stays open blocks the receive. The model handles the lines sent so far and then treats the channel as closed.
- Missing `User` and `Id` pointers are not modelled: a tweet always has an id and a screen name. The source dereferences them without a check in SaveTweet (tweetstore/tweetstore.go:131), ProcessLines (savetweetstream.go:183), UsersByPosts (analytics/analytics.go:93) and the TimedStream tick (serve/serve.go:113).
- Serve.Conn.Writer: a writer that finds its channel open and empty blocks in the source. Here it returns, leaving the socket open.

## Findings

| source | as written | input that shows it | evidently intended | confidence | as-written member | corrected member |
|---|---|---|---|---|---|---|
| serve/serve.go:258-260 | `unregister` deletes the connection and closes `c.send` even when a broadcast has already evicted it and closed that channel (266-267) | A client stops reading. 257 broadcasts fill its 256-slot queue and evict it. Its writer drains and returns, and the handler's deferred unregister (99) closes the channel a second time: `close of closed channel` panics the server. | close the channel only of a connection that is still registered | not executed | Serve.EvictionThenUnregister | Serve.EvictionThenSafeUnregister |
| savetweetstream.go:174-177 | `line := <-linechan` has no `, ok` test, and the loop has no exit | The stream answers with a status other than 200, 420 or 503, such as 401. MaintainUserStream closes `linechan` (tweetrest.go:273). Each later receive returns a nil line, which decodes to nothing. The process prints "Unhandled type" forever and never returns. | `line, ok := <-linechan; if !ok { return }` | not executed | SaveTweetStream.SpinsAfterClose | SaveTweetStream.ProcessLines |
