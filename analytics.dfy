/**
 * Frequency analytics over a batch of tweets (analytics/analytics.go):
 * counting expanded URLs, posting users and hashtags into maps, and
 * listing a map's keys from most to least frequent.
 */
module Analytics {
  import opened Twitter

  // ----- counting -----

  /** A Go map lookup: the stored count, or 0 for a missing key. */
  function Get(m: map<string, int>, k: string): int
  {
    if k in m then m[k] else 0
  }

  /** The counts `xs` leaves when each item does `m[x] = m[x] + 1` in order, starting from an empty map. */
  function Tally(xs: seq<string>): map<string, int>
    decreases |xs|
  {
    if xs == [] then map[]
    else
      var m := Tally(xs[..|xs| - 1]);
      var x := xs[|xs| - 1];
      m[x := Get(m, x) + 1]
  }

  lemma TallySnoc(xs: seq<string>, x: string)
    ensures Tally(xs + [x]) == Tally(xs)[x := Get(Tally(xs), x) + 1]
  {
    assert (xs + [x])[..|xs|] == xs;
  }

  /** Counting one more item of `xs` after `done`. */
  lemma TallyStep(done: seq<string>, xs: seq<string>, j: nat, m: map<string, int>)
    requires j < |xs| && m == Tally(done + xs[..j])
    ensures m[xs[j] := Get(m, xs[j]) + 1] == Tally(done + xs[..j + 1])
  {
    TallySnoc(done + xs[..j], xs[j]);
    assert done + xs[..j + 1] == (done + xs[..j]) + [xs[j]];
  }

  /** A key is counted exactly when it occurs, and its count is its number of occurrences, so at least 1. */
  lemma {:induction false} TallyCounts(xs: seq<string>)
    ensures forall k :: k in Tally(xs) <==> k in multiset(xs)
    ensures forall k :: k in Tally(xs) ==> Tally(xs)[k] == multiset(xs)[k] >= 1
    decreases |xs|
  {
    if xs != [] {
      var front := xs[..|xs| - 1];
      TallyCounts(front);
      assert xs == front + [xs[|xs| - 1]];
    }
  }

  /** The sum of a map's counts. */
  ghost function Total(m: map<string, int>): int
    decreases |m|
  {
    if m == map[] then 0
    else
      var k :| k in m;
      m[k] + Total(m - {k})
  }

  /** The sum does not depend on which key is taken out first. */
  lemma {:induction false} TotalRemove(m: map<string, int>, k: string)
    requires k in m
    ensures Total(m) == m[k] + Total(m - {k})
    decreases |m|
  {
    var j :| j in m && Total(m) == m[j] + Total(m - {j});
    if j != k {
      TotalRemove(m - {j}, k);
      TotalRemove(m - {k}, j);
      assert m - {j} - {k} == m - {k} - {j};
    }
  }

  /** The counts sum to the number of items counted. */
  lemma {:induction false} TallyTotal(xs: seq<string>)
    ensures Total(Tally(xs)) == |xs|
    decreases |xs|
  {
    if xs != [] {
      var front := xs[..|xs| - 1];
      var x := xs[|xs| - 1];
      TallyTotal(front);
      TallySnoc(front, x);
      assert xs == front + [x];
      var m := Tally(front);
      var m' := m[x := Get(m, x) + 1];
      TotalRemove(m', x);
      if x in m {
        TotalRemove(m, x);
        assert m' - {x} == m - {x};
      } else {
        assert m' - {x} == m;
      }
    }
  }

  /** The expanded URLs of all URL entities, tweet by tweet, repeats within a tweet included. */
  function UrlsOf(tweets: seq<Tweet>): seq<string>
    decreases |tweets|
  {
    if tweets == [] then []
    else UrlsOf(tweets[..|tweets| - 1]) + ExpandedUrls(tweets[|tweets| - 1].entities.urls)
  }

  function ExpandedUrls(urls: seq<TwitterUrl>): (r: seq<string>)
    ensures |r| == |urls| && forall j :: 0 <= j < |urls| ==> r[j] == urls[j].expandedUrl
  {
    seq(|urls|, j requires 0 <= j < |urls| => urls[j].expandedUrl)
  }

  /** The posting user of each tweet. */
  function ScreenNames(tweets: seq<Tweet>): (r: seq<string>)
    ensures |r| == |tweets| && forall i :: 0 <= i < |tweets| ==> r[i] == tweets[i].screenName
  {
    seq(|tweets|, i requires 0 <= i < |tweets| => tweets[i].screenName)
  }

  /** The texts of all hashtag entities, tweet by tweet. */
  function TagsOf(tweets: seq<Tweet>): seq<string>
    decreases |tweets|
  {
    if tweets == [] then []
    else TagsOf(tweets[..|tweets| - 1]) + TagTexts(tweets[|tweets| - 1].entities.hashtags)
  }

  function TagTexts(tags: seq<Hashtag>): (r: seq<string>)
    ensures |r| == |tags| && forall j :: 0 <= j < |tags| ==> r[j] == tags[j].text
  {
    seq(|tags|, j requires 0 <= j < |tags| => tags[j].text)
  }

  lemma UrlsOfSnoc(tweets: seq<Tweet>, i: nat)
    requires i < |tweets|
    ensures UrlsOf(tweets[..i + 1]) == UrlsOf(tweets[..i]) + ExpandedUrls(tweets[i].entities.urls)
  {
    assert tweets[..i + 1][..i] == tweets[..i];
  }

  lemma TagsOfSnoc(tweets: seq<Tweet>, i: nat)
    requires i < |tweets|
    ensures TagsOf(tweets[..i + 1]) == TagsOf(tweets[..i]) + TagTexts(tweets[i].entities.hashtags)
  {
    assert tweets[..i + 1][..i] == tweets[..i];
  }

  // ----- listing keys by count -----

  /** Non-increasing in count: `Less` never holds of a later key against an earlier one. */
  ghost predicate ByCountDesc(m: map<string, int>, s: seq<string>)
  {
    forall a, b :: 0 <= a < b < |s| ==> Get(m, s[a]) >= Get(m, s[b])
  }

  /** An entry that appears at two positions occurs at least twice. */
  lemma Repeated(s: seq<string>, a: nat, b: nat)
    requires a < b < |s| && s[a] == s[b]
    ensures multiset(s)[s[a]] >= 2
  {
    var k := s[a];
    var rest := s[..a] + s[a + 1..];
    assert s == s[..a] + [k] + s[a + 1..];
    assert rest[b - 1] == k;
    assert multiset(s) == multiset(rest) + multiset{k};
    assert k in multiset(rest);
  }

  /** A list holding each key of `m` exactly once has one entry per key and no repeat. */
  lemma EachKeyOnce(m: map<string, int>, s: seq<string>)
    requires multiset(s) == multiset(m.Keys)
    ensures |s| == |m|
    ensures forall k :: k in s <==> k in m
    ensures forall a, b :: 0 <= a < b < |s| ==> s[a] != s[b]
  {
    assert |multiset(s)| == |s|;
    assert |multiset(m.Keys)| == |m.Keys|;
    forall k ensures k in s <==> k in m {
      assert k in s <==> k in multiset(s);
      assert k in m <==> k in multiset(m.Keys);
    }
    forall a, b | 0 <= a < b < |s| ensures s[a] != s[b] {
      if s[a] == s[b] {
        Repeated(s, a, b);
        assert false;
      }
    }
  }

  /** So the first key listed has the largest count. */
  lemma MostFrequentFirst(m: map<string, int>, s: seq<string>)
    requires multiset(s) == multiset(m.Keys) && ByCountDesc(m, s) && m != map[]
    ensures s != [] && s[0] in m && forall k :: k in m ==> m[k] <= m[s[0]]
  {
    EachKeyOnce(m, s);
    forall k | k in m ensures m[k] <= m[s[0]] {
      var b :| 0 <= b < |s| && s[b] == k;
      if b > 0 {
        assert Get(m, s[0]) >= Get(m, s[b]);
      }
    }
  }

  /** The sort.Interface over a map's keys: a slice of keys compared by their counts. */
  class SortedMap {
    const m: map<string, int>
    const s: array<string>

    /** The slice holds one slot per key of the map, as sortedKeys allocates it. */
    predicate Valid()
      reads this
    {
      s.Length == |m|
    }

    constructor (m: map<string, int>)
      ensures this.m == m && fresh(s) && Valid()
    {
      this.m := m;
      s := new string[|m|];
    }

    /** Len answers with the map's size, which is the slice's length: the bound sort.Sort walks. */
    function Len(): (n: nat)
      requires Valid()
      reads this
      ensures n == s.Length
    {
      |m|
    }

    /** Key i sorts before key j when its count is larger. */
    predicate Less(i: nat, j: nat)
      requires i < s.Length && j < s.Length
      reads this, s
    {
      Get(m, s[i]) > Get(m, s[j])
    }

    method Swap(i: nat, j: nat)
      requires i < s.Length && j < s.Length
      modifies s
      ensures s[..] == old(s[..])[i := old(s[j])][j := old(s[i])]
      ensures multiset(s[..]) == multiset(old(s[..]))
    {
      s[i], s[j] := s[j], s[i];
    }
  }

  /**
   * sort.Sort over the interface: afterwards the keys are in non-increasing
   * count order, and they are a rearrangement of the keys before. Ties may
   * end up in any order.
   */
  method Sort(sm: SortedMap)
    requires sm.Valid()
    modifies sm.s
    ensures multiset(sm.s[..]) == multiset(old(sm.s[..])) && ByCountDesc(sm.m, sm.s[..])
  {
    var n := sm.Len();
    for i := 0 to n
      invariant multiset(sm.s[..]) == multiset(old(sm.s[..]))
      invariant forall a, b :: 0 <= a < b < i ==> Get(sm.m, sm.s[a]) >= Get(sm.m, sm.s[b])
    {
      Sink(sm, i);
    }
  }

  /** One insertion step: moves key `i` down past every larger-count key before it. */
  method Sink(sm: SortedMap, i: nat)
    requires sm.Valid() && i < sm.Len()
    requires forall a, b :: 0 <= a < b < i ==> Get(sm.m, sm.s[a]) >= Get(sm.m, sm.s[b])
    modifies sm.s
    ensures multiset(sm.s[..]) == multiset(old(sm.s[..]))
    ensures forall a, b :: 0 <= a < b <= i ==> Get(sm.m, sm.s[a]) >= Get(sm.m, sm.s[b])
  {
    var j := i;
    while j > 0 && sm.Less(j, j - 1)
      invariant 0 <= j <= i
      invariant multiset(sm.s[..]) == multiset(old(sm.s[..]))
      invariant forall a, b :: 0 <= a < b <= i && a != j && b != j ==> Get(sm.m, sm.s[a]) >= Get(sm.m, sm.s[b])
      invariant forall b :: j < b <= i ==> Get(sm.m, sm.s[j]) > Get(sm.m, sm.s[b])
      decreases j
    {
      sm.Swap(j, j - 1);
      j := j - 1;
    }
  }

  /**
   * The keys of `m` from most to least frequent: each key exactly once, in
   * non-increasing count order.
   */
  method SortedKeys(m: map<string, int>) returns (keys: seq<string>)
    ensures multiset(keys) == multiset(m.Keys) && ByCountDesc(m, keys)
  {
    var sm := new SortedMap(m);
    var remaining := m.Keys;
    var i := 0;
    // `for key, _ := range m` visits the keys in no fixed order
    while remaining != {}
      invariant remaining <= m.Keys && 0 <= i <= sm.s.Length
      invariant multiset(sm.s[..i]) + multiset(remaining) == multiset(m.Keys)
      decreases remaining
    {
      var key :| key in remaining;
      assert multiset(remaining) == multiset(remaining - {key}) + multiset{key};
      assert |multiset(sm.s[..i])| == i && |multiset(m.Keys)| == |m|;
      sm.s[i] := key;
      assert sm.s[..i + 1] == sm.s[..i] + [key];
      i := i + 1;
      remaining := remaining - {key};
    }
    assert |multiset(sm.s[..i])| == i && |multiset(m.Keys)| == |m|;
    assert sm.s[..] == sm.s[..i];
    Sort(sm);
    keys := sm.s[..];
  }

  /** The inner loop of UrlsByFrequency: counts the expanded URL of each of one tweet's URL entities. */
  method CountUrls(urls: map<string, int>, ghost done: seq<string>, us: seq<TwitterUrl>) returns (r: map<string, int>)
    requires urls == Tally(done)
    ensures r == Tally(done + ExpandedUrls(us))
  {
    r := urls;
    assert done + ExpandedUrls(us)[..0] == done;
    for j := 0 to |us|
      invariant r == Tally(done + ExpandedUrls(us)[..j])
    {
      var u := us[j];
      assert ExpandedUrls(us)[j] == u.expandedUrl;
      TallyStep(done, ExpandedUrls(us), j, r);
      r := r[u.expandedUrl := Get(r, u.expandedUrl) + 1];
    }
    assert ExpandedUrls(us)[..|us|] == ExpandedUrls(us);
  }

  /** The inner loop of HashtagsByFrequency: counts the text of each of one tweet's hashtag entities. */
  method CountTags(tags: map<string, int>, ghost done: seq<string>, hs: seq<Hashtag>) returns (r: map<string, int>)
    requires tags == Tally(done)
    ensures r == Tally(done + TagTexts(hs))
  {
    r := tags;
    assert done + TagTexts(hs)[..0] == done;
    for j := 0 to |hs|
      invariant r == Tally(done + TagTexts(hs)[..j])
    {
      var ht := hs[j];
      assert TagTexts(hs)[j] == ht.text;
      TallyStep(done, TagTexts(hs), j, r);
      r := r[ht.text := Get(r, ht.text) + 1];
    }
    assert TagTexts(hs)[..|hs|] == TagTexts(hs);
  }

  /** The analytics over a batch of tweets. */
  class Analytics {
    var tweets: seq<Tweet>

    constructor (tweets: seq<Tweet>)
      ensures this.tweets == tweets
    {
      this.tweets := tweets;
    }

    /** Counts the expanded URL of every URL entity and lists the URLs by frequency. */
    method UrlsByFrequency() returns (sorted: seq<string>, urls: map<string, int>)
      ensures urls == Tally(UrlsOf(tweets))
      ensures multiset(sorted) == multiset(urls.Keys) && ByCountDesc(urls, sorted)
    {
      urls := map[];
      for i := 0 to |tweets|
        invariant urls == Tally(UrlsOf(tweets[..i]))
      {
        urls := CountUrls(urls, UrlsOf(tweets[..i]), tweets[i].entities.urls);
        UrlsOfSnoc(tweets, i);
      }
      assert tweets[..|tweets|] == tweets;
      sorted := SortedKeys(urls);
    }

    /** Counts the tweets of each posting user and lists the users by number of posts. */
    method UsersByPosts() returns (sorted: seq<string>, screennames: map<string, int>)
      ensures screennames == Tally(ScreenNames(tweets))
      ensures multiset(sorted) == multiset(screennames.Keys) && ByCountDesc(screennames, sorted)
    {
      screennames := map[];
      for i := 0 to |tweets|
        invariant screennames == Tally(ScreenNames(tweets)[..i])
      {
        var name := tweets[i].screenName;
        TallySnoc(ScreenNames(tweets)[..i], name);
        assert ScreenNames(tweets)[..i + 1] == ScreenNames(tweets)[..i] + [name];
        screennames := screennames[name := Get(screennames, name) + 1];
      }
      assert ScreenNames(tweets)[..|tweets|] == ScreenNames(tweets);
      sorted := SortedKeys(screennames);
    }

    /** Counts the text of every hashtag entity and lists the tags by frequency. */
    method HashtagsByFrequency() returns (sorted: seq<string>, tags: map<string, int>)
      ensures tags == Tally(TagsOf(tweets))
      ensures multiset(sorted) == multiset(tags.Keys) && ByCountDesc(tags, sorted)
    {
      tags := map[];
      for i := 0 to |tweets|
        invariant tags == Tally(TagsOf(tweets[..i]))
      {
        tags := CountTags(tags, TagsOf(tweets[..i]), tweets[i].entities.hashtags);
        TagsOfSnoc(tweets, i);
      }
      assert tweets[..|tweets|] == tweets;
      sorted := SortedKeys(tags);
    }
  }
}
