/**
 * The values the repository exchanges with the upstream service (its
 * twittertypes package). Only the fields the core reads or writes are kept.
 * JSON decoding and encoding, and RubyDate time parsing, are not modelled:
 * they are handed in as a `Codec` of total functions.
 */
module Twitter {
  import opened Wrappers

  newtype byte = x: int | 0 <= x < 256

  type Bytes = seq<byte>

  datatype Media = Media(id: int, expandedUrl: string, mediaType: string)

  datatype Mention = Mention(id: int, screenName: string, name: string)

  datatype TwitterUrl = TwitterUrl(url: string, expandedUrl: string)

  datatype Hashtag = Hashtag(text: string)

  datatype Entities = Entities(
    media: seq<Media>,
    mentions: seq<Mention>,
    urls: seq<TwitterUrl>,
    hashtags: seq<Hashtag>)

  /**
   * A post. `rawBytes` is the original encoded line when the tweet came off
   * the stream, and `None` (Go's nil slice) otherwise.
   */
  datatype Tweet = Tweet(
    id: int,
    screenName: string,
    text: string,
    createdAt: string,
    entities: Entities,
    rawBytes: Option<Bytes>)

  /** A stream message listing the ids the user follows. */
  datatype FriendList = FriendList(friends: seq<int>)

  /** A stream message announcing an account event (follow, favorite, ...). */
  datatype Event = Event(event: string)

  /**
   * The outcome of a JSON decode: whatever fields were filled in (a failed
   * decode may leave a partially filled value) and whether it succeeded.
   */
  datatype Decoded<T> = Decoded(value: T, ok: bool)

  /**
   * The codecs the store relies on: `marshal` is json.Marshal of a tweet
   * (None on error), `unmarshal` is json.Unmarshal into a fresh tweet, and
   * `parseTime` is time.Parse(time.RubyDate, ...) giving Unix seconds.
   */
  datatype Codec = Codec(
    marshal: Tweet -> Option<Bytes>,
    unmarshal: Bytes -> Decoded<Tweet>,
    parseTime: string -> Option<int>)
}
