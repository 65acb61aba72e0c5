/** What `fetch_feed_articles` and `fetch_all_feeds` do to the store
    (bucket/rss_manager.py:77-134), as functions of the store before the call,
    the fetched entries and the faults the store raises. */
module Ingest {
  import opened Models
  import opened Seqs
  import opened Store
  import opened Dedup

  /** Store operations that raise, by position of the entry in the capped
      list: a failing read inside the duplicate check, a failing save, and a
      failing `update_feed` at the end. */
  datatype StoreFaults = StoreFaults(readFails: set<nat>, saveFails: set<nat>, updateFails: bool)

  const NoFaults := StoreFaults({}, {}, false)

  /** One fetch of one feed: the entries the fetcher returns (`None` when it
      raises) and the store faults met while handling them. */
  datatype FeedRun = FeedRun(fetched: Option<seq<Article>>, faults: StoreFaults)

  /** The fields a survivor is stamped with before it is saved. */
  function Stamp(a: Article, feed: Feed): Article {
    a.(source := Some(feed.name), tags := feed.tags, status := Fetched, priority := Medium)
  }

  /** The row saved for entry `a` under id `id`. */
  function Stamped(a: Article, feed: Feed, id: int): Article {
    Stamp(a, feed).(id := Some(id))
  }

  /** What happens to one entry: `None` when it is a duplicate (or the read
      inside the check fails) or its save fails, else the row saved for it. */
  function Survivor(md5: string -> HexDigest, stored: seq<Article>, nextId: int, e: Article,
                    feed: Feed, faults: StoreFaults, i: nat): Option<Article>
  {
    if IsDuplicate(md5, stored, e, feed, i in faults.readFails) || i in faults.saveFails then None
    else Some(Stamped(e, feed, nextId))
  }

  /** The survivors of `entries` (the entry at position `i` first), checked
      in order against `stored`, each saved (with the next id) before the next
      entry is checked. */
  function Ingested(md5: string -> HexDigest, stored: seq<Article>, nextId: int, entries: seq<Article>,
                    feed: Feed, faults: StoreFaults, i: nat): seq<Article>
    decreases |entries|
  {
    if entries == [] then []
    else
      var sv := Survivor(md5, stored, nextId, entries[0], feed, faults, i);
      if sv.None? then Ingested(md5, stored, nextId, entries[1..], feed, faults, i + 1)
      else [sv.value] + Ingested(md5, stored + [sv.value], nextId + 1, entries[1..], feed, faults, i + 1)
  }

  /** One step of `Ingested`: the first entry is skipped or saved. */
  lemma IngestedStep(md5: string -> HexDigest, stored: seq<Article>, nextId: int, entries: seq<Article>,
                     feed: Feed, faults: StoreFaults, i: nat)
    requires entries != []
    ensures var sv := Survivor(md5, stored, nextId, entries[0], feed, faults, i);
      Ingested(md5, stored, nextId, entries, feed, faults, i) ==
        if sv.None? then Ingested(md5, stored, nextId, entries[1..], feed, faults, i + 1)
        else [sv.value] + Ingested(md5, stored + [sv.value], nextId + 1, entries[1..], feed, faults, i + 1)
  {
  }

  /** The same step as a concatenation: the first entry's row, if any, then
      the rest checked against the rows stored after it. */
  lemma IngestedStepSeq(md5: string -> HexDigest, stored: seq<Article>, nextId: int, entries: seq<Article>,
                     feed: Feed, faults: StoreFaults, i: nat)
    requires entries != []
    ensures var o := ToSeq(Survivor(md5, stored, nextId, entries[0], feed, faults, i));
      Ingested(md5, stored, nextId, entries, feed, faults, i) ==
        o + Ingested(md5, stored + o, nextId + |o|, entries[1..], feed, faults, i + 1)
  {
    var sv := Survivor(md5, stored, nextId, entries[0], feed, faults, i);
    IngestedStep(md5, stored, nextId, entries, feed, faults, i);
    var rest := Ingested(md5, stored, nextId, entries[1..], feed, faults, i + 1);
    if sv.None? {
      assert stored + [] == stored;
      assert [] + rest == rest;
    }
  }

  function Url(a: Article): string { a.url }

  function Urls(s: seq<Article>): (r: seq<string>)
    ensures |r| == |s|
    ensures forall k :: 0 <= k < |s| ==> r[k] == s[k].url
  {
    if s == [] then [] else [s[0].url] + Urls(s[1..])
  }

  /** Row `k` of `r` carries id `nextId + k` and is a stamped copy of one of
      the entries. */
  ghost predicate StampedRows(r: seq<Article>, entries: seq<Article>, feed: Feed, nextId: int) {
    forall k :: 0 <= k < |r| ==>
      r[k].id == Some(nextId + k) &&
      exists e :: e in entries && r[k] == Stamped(e, feed, nextId + k)
  }

  /** Survivors are stamped copies of entries, with consecutive fresh ids,
      and there are no more of them than entries. */
  lemma {:induction false} IngestedStamped(md5: string -> HexDigest, stored: seq<Article>, nextId: int,
                                           entries: seq<Article>, feed: Feed, faults: StoreFaults, i: nat)
    ensures var r := Ingested(md5, stored, nextId, entries, feed, faults, i);
      |r| <= |entries| && StampedRows(r, entries, feed, nextId)
    decreases |entries|
  {
    if entries != [] {
      IngestedStep(md5, stored, nextId, entries, feed, faults, i);
      var e := entries[0];
      if Survivor(md5, stored, nextId, e, feed, faults, i).None? {
        IngestedStamped(md5, stored, nextId, entries[1..], feed, faults, i + 1);
        StampedSkip(entries, feed, nextId, Ingested(md5, stored, nextId, entries[1..], feed, faults, i + 1));
      } else {
        var s := Stamped(e, feed, nextId);
        IngestedStamped(md5, stored + [s], nextId + 1, entries[1..], feed, faults, i + 1);
        StampedCons(entries, feed, nextId, Ingested(md5, stored + [s], nextId + 1, entries[1..], feed, faults, i + 1));
      }
    }
  }

  lemma StampedSkip(entries: seq<Article>, feed: Feed, nextId: int, rest: seq<Article>)
    requires entries != [] && StampedRows(rest, entries[1..], feed, nextId)
    ensures StampedRows(rest, entries, feed, nextId)
  {
    forall k | 0 <= k < |rest|
      ensures rest[k].id == Some(nextId + k)
      ensures exists e :: e in entries && rest[k] == Stamped(e, feed, nextId + k)
    {
      var e := StampedWitness(rest, entries[1..], feed, nextId, k);
      assert e in entries;
    }
  }

  /** The entry that row `k` of stamped rows was made from. */
  lemma StampedWitness(r: seq<Article>, entries: seq<Article>, feed: Feed, nextId: int, k: int) returns (e: Article)
    requires StampedRows(r, entries, feed, nextId) && 0 <= k < |r|
    ensures e in entries && r[k] == Stamped(e, feed, nextId + k)
  {
    assert r[k].id == Some(nextId + k);
    assert exists e :: e in entries && r[k] == Stamped(e, feed, nextId + k);
    e :| e in entries && r[k] == Stamped(e, feed, nextId + k);
  }

  lemma StampedCons(entries: seq<Article>, feed: Feed, nextId: int, rest: seq<Article>)
    requires entries != [] && StampedRows(rest, entries[1..], feed, nextId + 1)
    ensures StampedRows([Stamped(entries[0], feed, nextId)] + rest, entries, feed, nextId)
  {
    var r := [Stamped(entries[0], feed, nextId)] + rest;
    forall k | 0 <= k < |r|
      ensures r[k].id == Some(nextId + k)
      ensures exists e :: e in entries && r[k] == Stamped(e, feed, nextId + k)
    {
      if k == 0 {
        assert entries[0] in entries;
      } else {
        assert r[k] == rest[k - 1];
        var e :| e in entries[1..] && rest[k - 1] == Stamped(e, feed, nextId + 1 + (k - 1));
        assert e in entries;
      }
    }
  }

  /** Survivors come in fetch order. */
  lemma {:induction false} IngestedInOrder(md5: string -> HexDigest, stored: seq<Article>, nextId: int,
                                           entries: seq<Article>, feed: Feed, faults: StoreFaults, i: nat)
    ensures IsSubseq(Urls(Ingested(md5, stored, nextId, entries, feed, faults, i)), Urls(entries))
    decreases |entries|
  {
    if entries != [] {
      IngestedStep(md5, stored, nextId, entries, feed, faults, i);
      var e := entries[0];
      var us := Urls(entries);
      assert us[1..] == Urls(entries[1..]);
      if Survivor(md5, stored, nextId, e, feed, faults, i).None? {
        IngestedInOrder(md5, stored, nextId, entries[1..], feed, faults, i + 1);
      } else {
        var s := Stamped(e, feed, nextId);
        IngestedInOrder(md5, stored + [s], nextId + 1, entries[1..], feed, faults, i + 1);
        var rest := Ingested(md5, stored + [s], nextId + 1, entries[1..], feed, faults, i + 1);
        var ur := Urls([s] + rest);
        assert ur[0] == us[0];
        assert ur[1..] == Urls(rest);
      }
    } else {
      assert Urls([]) == [];
    }
  }

  /** No row of `r` has a URL already in `stored`, and the URLs of `r` are
      pairwise distinct. */
  ghost predicate FreshUrls(stored: seq<Article>, r: seq<Article>) {
    (forall k :: 0 <= k < |r| ==> !UrlSeen(stored, r[k].url)) &&
    (forall k, l :: 0 <= k < l < |r| ==> r[k].url != r[l].url)
  }

  /** No survivor's URL is already stored, and the survivors' URLs are
      pairwise distinct. */
  lemma {:induction false} IngestedFresh(md5: string -> HexDigest, stored: seq<Article>, nextId: int,
                                         entries: seq<Article>, feed: Feed, faults: StoreFaults, i: nat)
    ensures FreshUrls(stored, Ingested(md5, stored, nextId, entries, feed, faults, i))
    decreases |entries|
  {
    if entries != [] {
      IngestedStep(md5, stored, nextId, entries, feed, faults, i);
      var e := entries[0];
      if Survivor(md5, stored, nextId, e, feed, faults, i).None? {
        IngestedFresh(md5, stored, nextId, entries[1..], feed, faults, i + 1);
      } else {
        var s := Stamped(e, feed, nextId);
        IngestedFresh(md5, stored + [s], nextId + 1, entries[1..], feed, faults, i + 1);
        assert !UrlSeen(stored, s.url);
        FreshCons(stored, s, Ingested(md5, stored + [s], nextId + 1, entries[1..], feed, faults, i + 1));
      }
    }
  }

  lemma FreshCons(stored: seq<Article>, s: Article, rest: seq<Article>)
    requires !UrlSeen(stored, s.url) && FreshUrls(stored + [s], rest)
    ensures FreshUrls(stored, [s] + rest)
  {
    var big := stored + [s];
    var r := [s] + rest;
    forall k | 0 <= k < |rest| ensures !UrlSeen(stored, rest[k].url) && rest[k].url != s.url {
      assert !UrlSeen(big, rest[k].url);
      assert forall j :: 0 <= j < |stored| ==> big[j] == stored[j];
      assert big[|stored|] == s;
    }
    forall k, l | 0 <= k < l < |r| ensures r[k].url != r[l].url {
      if k > 0 {
        assert r[k] == rest[k - 1] && r[l] == rest[l - 1];
      } else {
        assert r[l] == rest[l - 1];
      }
    }
    forall k | 0 <= k < |r| ensures !UrlSeen(stored, r[k].url) {
      if k > 0 {
        assert r[k] == rest[k - 1];
      }
    }
  }

  /** Every entry is a duplicate once the rows it was checked against and the
      survivors are all in the store, provided no fault dropped an entry. */
  lemma {:induction false} IngestedCoversEntries(md5: string -> HexDigest, stored: seq<Article>, nextId: int,
                                                 entries: seq<Article>, feed: Feed, i: nat, big: seq<Article>)
    requires forall x :: x in stored ==> x in big
    requires forall x :: x in Ingested(md5, stored, nextId, entries, feed, NoFaults, i) ==> x in big
    ensures AllDuplicates(md5, big, entries, feed)
    decreases |entries|
  {
    if entries != [] {
      IngestedStep(md5, stored, nextId, entries, feed, NoFaults, i);
      var e := entries[0];
      assert entries == [e] + entries[1..];
      if IsDuplicate(md5, stored, e, feed, false) {
        DuplicateMonotone(md5, stored, big, e, feed, false);
        IngestedCoversEntries(md5, stored, nextId, entries[1..], feed, i + 1, big);
      } else {
        var s := Stamped(e, feed, nextId);
        assert s in Ingested(md5, stored, nextId, entries, feed, NoFaults, i);
        var j :| 0 <= j < |big| && big[j] == s;
        assert UrlSeen(big, e.url);
        IngestedCoversEntries(md5, stored + [s], nextId + 1, entries[1..], feed, i + 1, big);
      }
    }
  }

  /** Every entry is a duplicate of the stored rows. */
  ghost predicate AllDuplicates(md5: string -> HexDigest, stored: seq<Article>, entries: seq<Article>, feed: Feed) {
    forall e :: e in entries ==> IsDuplicate(md5, stored, e, feed, false)
  }

  /** When every entry is a duplicate, nothing survives, whatever the faults. */
  lemma {:induction false} AllDuplicatesNothingSaved(md5: string -> HexDigest, stored: seq<Article>, nextId: int,
                                                     entries: seq<Article>, feed: Feed, faults: StoreFaults, i: nat)
    requires AllDuplicates(md5, stored, entries, feed)
    ensures Ingested(md5, stored, nextId, entries, feed, faults, i) == []
    decreases |entries|
  {
    if entries != [] {
      assert entries[0] in entries;
      assert forall e :: e in entries[1..] ==> e in entries;
      AllDuplicatesNothingSaved(md5, stored, nextId, entries[1..], feed, faults, i + 1);
    }
  }

  /** Fetching the same entries again right after a fault-free run saves
      nothing: the pipeline is idempotent. */
  lemma IngestTwiceSavesNothing(md5: string -> HexDigest, stored: seq<Article>, nextId: int,
                                entries: seq<Article>, feed: Feed, faults: StoreFaults)
    ensures var r := Ingested(md5, stored, nextId, entries, feed, NoFaults, 0);
      Ingested(md5, stored + r, nextId + |r|, entries, feed, faults, 0) == []
  {
    var r := Ingested(md5, stored, nextId, entries, feed, NoFaults, 0);
    var big := stored + r;
    MembersOfAppend(stored, r);
    IngestedCoversEntries(md5, stored, nextId, entries, feed, 0, big);
    AllDuplicatesNothingSaved(md5, big, nextId + |r|, entries, feed, faults, 0);
  }

  lemma MembersOfAppend(a: seq<Article>, b: seq<Article>)
    ensures forall x :: x in a ==> x in a + b
    ensures forall x :: x in b ==> x in a + b
  {
  }

  /** `fetch_feed_articles(feed, max_articles)`: the store afterwards and
      the list returned.  A failing fetch changes nothing and returns [];
      a failing `update_feed` returns [] although the survivors were saved. */
  function FetchFeed(md5: string -> HexDigest, st: StoreState, feed: Feed, maxArticles: nat,
                     run: FeedRun, now: int): (StoreState, seq<Article>)
  {
    match run.fetched
    case None => (st, [])
    case Some(entries) =>
      var saved := Ingested(md5, st.articles, st.nextId, Take(entries, maxArticles), feed, run.faults, 0);
      var st1 := st.(articles := st.articles + saved, nextId := st.nextId + |saved|);
      if run.faults.updateFails then (st1, [])
      else if feed.id.None? then (st1, saved)
      else (st1.(feeds := UpdateFeedAt(st1.feeds, feed.id.value, SetLastFetched(now))), saved)
  }

  /** `FetchFeed` once the entries have been fetched. */
  lemma FetchFeedFetched(md5: string -> HexDigest, st: StoreState, feed: Feed, maxArticles: nat, run: FeedRun, now: int)
    requires run.fetched.Some?
    ensures var saved := Ingested(md5, st.articles, st.nextId, Take(run.fetched.value, maxArticles), feed, run.faults, 0);
      var st1 := st.(articles := st.articles + saved, nextId := st.nextId + |saved|);
      FetchFeed(md5, st, feed, maxArticles, run, now) ==
        if run.faults.updateFails then (st1, [])
        else if feed.id.None? then (st1, saved)
        else (st1.(feeds := UpdateFeedAt(st.feeds, feed.id.value, SetLastFetched(now))), saved)
  {
  }

  /** The list returned holds at most `max_articles` entries, in fetch order,
      with fresh distinct URLs, each stamped with the feed's name and tags,
      status FETCHED and priority MEDIUM; every one of them is now stored. */
  lemma FetchFeedReturns(md5: string -> HexDigest, st: StoreState, feed: Feed, maxArticles: nat, run: FeedRun, now: int)
    requires run.fetched.Some?
    ensures var (st', r) := FetchFeed(md5, st, feed, maxArticles, run, now);
      |r| <= maxArticles
      && IsSubseq(Urls(r), Urls(run.fetched.value))
      && (forall k :: 0 <= k < |r| ==> !UrlSeen(st.articles, r[k].url))
      && (forall k, l :: 0 <= k < l < |r| ==> r[k].url != r[l].url)
      && (forall k :: 0 <= k < |r| ==> r[k].source == Some(feed.name) && r[k].tags == feed.tags
                                       && r[k].status == Fetched && r[k].priority == Medium)
      && (forall k :: 0 <= k < |r| ==> r[k] in st'.articles)
  {
    var entries := Take(run.fetched.value, maxArticles);
    var saved := Ingested(md5, st.articles, st.nextId, entries, feed, run.faults, 0);
    SavedFacts(md5, st.articles, st.nextId, entries, feed, run.faults);
    TakeSubseq(Urls(run.fetched.value), maxArticles);
    TakeUrls(run.fetched.value, maxArticles);
    SubseqTrans(Urls(saved), Urls(entries), Urls(run.fetched.value));
    FetchFeedFetched(md5, st, feed, maxArticles, run, now);
    var (st', r) := FetchFeed(md5, st, feed, maxArticles, run, now);
    assert st'.articles == st.articles + saved;
    assert forall k :: 0 <= k < |saved| ==> st'.articles[|st.articles| + k] == saved[k];
    if r == [] {
      assert Urls(r) == [];
    } else {
      assert r == saved;
    }
  }

  lemma SavedFacts(md5: string -> HexDigest, stored: seq<Article>, nextId: int, entries: seq<Article>,
                   feed: Feed, faults: StoreFaults)
    ensures var r := Ingested(md5, stored, nextId, entries, feed, faults, 0);
      |r| <= |entries|
      && IsSubseq(Urls(r), Urls(entries))
      && (forall k :: 0 <= k < |r| ==> !UrlSeen(stored, r[k].url))
      && (forall k, l :: 0 <= k < l < |r| ==> r[k].url != r[l].url)
      && (forall k :: 0 <= k < |r| ==> r[k].source == Some(feed.name) && r[k].tags == feed.tags
                                       && r[k].status == Fetched && r[k].priority == Medium)
  {
    var r := Ingested(md5, stored, nextId, entries, feed, faults, 0);
    IngestedStamped(md5, stored, nextId, entries, feed, faults, 0);
    IngestedInOrder(md5, stored, nextId, entries, feed, faults, 0);
    IngestedFresh(md5, stored, nextId, entries, feed, faults, 0);
    forall k | 0 <= k < |r|
      ensures r[k].source == Some(feed.name) && r[k].tags == feed.tags
      ensures r[k].status == Fetched && r[k].priority == Medium
    {
      assert exists e :: e in entries && r[k] == Stamped(e, feed, nextId + k);
      var e :| e in entries && r[k] == Stamped(e, feed, nextId + k);
    }
  }

  lemma TakeUrls(s: seq<Article>, n: nat)
    ensures Urls(Take(s, n)) == Take(Urls(s), n)
  {
  }

  /** A failing fetch leaves the store as it was, `last_fetched` included. */
  lemma FetchFailureChangesNothing(md5: string -> HexDigest, st: StoreState, feed: Feed, maxArticles: nat,
                                   faults: StoreFaults, now: int)
    ensures FetchFeed(md5, st, feed, maxArticles, FeedRun(None, faults), now) == (st, [])
  {
  }

  lemma {:induction false} TakeSubseq(s: seq<string>, n: nat)
    ensures IsSubseq(Take(s, n), s)
  {
    PrefixSubseq(Take(s, n), s);
  }

  lemma {:induction false} PrefixSubseq(a: seq<string>, b: seq<string>)
    requires a <= b
    ensures IsSubseq(a, b)
    decreases |b|
  {
    if a != [] {
      PrefixSubseq(a[1..], b[1..]);
    }
  }

  lemma {:induction false} SubseqTrans(a: seq<string>, b: seq<string>, c: seq<string>)
    requires IsSubseq(a, b) && IsSubseq(b, c)
    ensures IsSubseq(a, c)
    decreases |c|
  {
    if a != [] && c != [] {
      if b[0] == c[0] && IsSubseq(b[1..], c[1..]) {
        if a[0] == b[0] && IsSubseq(a[1..], b[1..]) {
          SubseqTrans(a[1..], b[1..], c[1..]);
        } else {
          SubseqTrans(a, b[1..], c[1..]);
        }
      } else {
        SubseqTrans(a, b, c[1..]);
      }
    }
  }

  /** Every fetch of a feed keeps the feeds' ids and active flags. */
  lemma FetchFeedKeepsShape(md5: string -> HexDigest, st: StoreState, feed: Feed, maxArticles: nat, run: FeedRun, now: int)
    ensures IdsAndFlags(FetchFeed(md5, st, feed, maxArticles, run, now).0.feeds) == IdsAndFlags(st.feeds)
  {
    if run.fetched.Some? && !run.faults.updateFails && feed.id.Some? {
      LastFetchedKeepsShape(st.feeds, feed.id.value, now);
    }
  }

  /** Fetches of the feeds in order; each feed's name paired with what its
      fetch returned. */
  function FetchAll(md5: string -> HexDigest, st: StoreState, feeds: seq<Feed>, maxPerFeed: nat,
                    runs: (Feed, int) -> FeedRun, now: int): (StoreState, seq<(string, seq<Article>)>)
    decreases |feeds|
  {
    if feeds == [] then (st, [])
    else
      var (st1, saved) := FetchFeed(md5, st, feeds[0], maxPerFeed, runs(feeds[0], now), now);
      var (st2, rest) := FetchAll(md5, st1, feeds[1..], maxPerFeed, runs, now);
      (st2, [(feeds[0].name, saved)] + rest)
  }

  /** One step of `FetchAll`: the first feed is fetched, then the rest from
      the store it leaves. */
  lemma FetchAllCons(md5: string -> HexDigest, st: StoreState, feeds: seq<Feed>, maxPerFeed: nat,
                     runs: (Feed, int) -> FeedRun, now: int)
    requires feeds != []
    ensures var (st1, saved) := FetchFeed(md5, st, feeds[0], maxPerFeed, runs(feeds[0], now), now);
      FetchAll(md5, st, feeds, maxPerFeed, runs, now) ==
        (FetchAll(md5, st1, feeds[1..], maxPerFeed, runs, now).0,
         [(feeds[0].name, saved)] + FetchAll(md5, st1, feeds[1..], maxPerFeed, runs, now).1)
  {
  }

  lemma {:induction false} FetchAllKeepsShape(md5: string -> HexDigest, st: StoreState, feeds: seq<Feed>,
                                              maxPerFeed: nat, runs: (Feed, int) -> FeedRun, now: int)
    ensures IdsAndFlags(FetchAll(md5, st, feeds, maxPerFeed, runs, now).0.feeds) == IdsAndFlags(st.feeds)
    decreases |feeds|
  {
    if feeds != [] {
      var st1 := FetchFeed(md5, st, feeds[0], maxPerFeed, runs(feeds[0], now), now).0;
      FetchFeedKeepsShape(md5, st, feeds[0], maxPerFeed, runs(feeds[0], now), now);
      FetchAllKeepsShape(md5, st1, feeds[1..], maxPerFeed, runs, now);
    }
  }

  /** One pair per feed, in feed order, and none longer than the cap. */
  lemma {:induction false} FetchAllPairs(md5: string -> HexDigest, st: StoreState, feeds: seq<Feed>,
                                         maxPerFeed: nat, runs: (Feed, int) -> FeedRun, now: int)
    ensures var ps := FetchAll(md5, st, feeds, maxPerFeed, runs, now).1;
      |ps| == |feeds| && forall k :: 0 <= k < |ps| ==> ps[k].0 == feeds[k].name && |ps[k].1| <= maxPerFeed
    decreases |feeds|
  {
    if feeds != [] {
      var run := runs(feeds[0], now);
      var (st1, saved) := FetchFeed(md5, st, feeds[0], maxPerFeed, run, now);
      if run.fetched.Some? {
        FetchFeedReturns(md5, st, feeds[0], maxPerFeed, run, now);
      }
      FetchAllPairs(md5, st1, feeds[1..], maxPerFeed, runs, now);
    }
  }

  /** A Python dict filled from the pairs in order: a later pair overwrites
      an earlier one with the same name. */
  function DictOf(ps: seq<(string, seq<Article>)>): (d: map<string, seq<Article>>)
    ensures forall n :: n in d <==> exists k :: 0 <= k < |ps| && ps[k].0 == n
  {
    if ps == [] then map[]
    else
      var init := ps[..|ps| - 1];
      var d0 := DictOf(init);
      assert forall k :: 0 <= k < |init| ==> init[k] == ps[k];
      d0[ps[|ps| - 1].0 := ps[|ps| - 1].1]
  }

  /** Which list each name maps to: the list of the last pair carrying the
      name, so every value is the list of some pair of that name. */
  lemma {:induction false} DictOfValues(ps: seq<(string, seq<Article>)>)
    ensures var d := DictOf(ps);
      forall k :: 0 <= k < |ps| && (forall k' :: k < k' < |ps| ==> ps[k'].0 != ps[k].0) ==>
        ps[k].0 in d && d[ps[k].0] == ps[k].1
    ensures var d := DictOf(ps);
      forall n | n in d :: exists k :: 0 <= k < |ps| && ps[k] == (n, d[n])
    decreases |ps|
  {
    if ps != [] {
      var init := ps[..|ps| - 1];
      var last := ps[|ps| - 1];
      DictOfValues(init);
      var d0, d := DictOf(init), DictOf(ps);
      assert d == d0[last.0 := last.1];
      forall k | 0 <= k < |ps| && (forall k' :: k < k' < |ps| ==> ps[k'].0 != ps[k].0)
        ensures ps[k].0 in d && d[ps[k].0] == ps[k].1
      {
        if k < |ps| - 1 {
          assert ps[k] == init[k];
          assert ps[|ps| - 1].0 != ps[k].0;
          forall k' | k < k' < |init| ensures init[k'].0 != init[k].0 {
            assert init[k'] == ps[k'];
          }
        }
      }
      forall n | n in d ensures exists k :: 0 <= k < |ps| && ps[k] == (n, d[n]) {
        if n == last.0 {
          assert ps[|ps| - 1] == (n, d[n]);
        } else {
          var k :| 0 <= k < |init| && init[k] == (n, d0[n]);
          assert ps[k] == init[k];
        }
      }
    }
  }

  /** The `results` dict of `fetch_all_feeds`: keyed by exactly the names
      of the feeds, each list within the per-feed cap. */
  lemma FetchAllResults(md5: string -> HexDigest, st: StoreState, feeds: seq<Feed>, maxPerFeed: nat,
                        runs: (Feed, int) -> FeedRun, now: int)
    ensures var d := DictOf(FetchAll(md5, st, feeds, maxPerFeed, runs, now).1);
      (forall n :: n in d <==> exists f :: f in feeds && f.name == n)
      && (forall n | n in d :: |d[n]| <= maxPerFeed)
  {
    var ps := FetchAll(md5, st, feeds, maxPerFeed, runs, now).1;
    FetchAllPairs(md5, st, feeds, maxPerFeed, runs, now);
    DictOfValues(ps);
    var d := DictOf(ps);
    forall n | n in d ensures |d[n]| <= maxPerFeed {
      var k :| 0 <= k < |ps| && ps[k] == (n, d[n]);
    }
    forall n ensures n in d <==> exists f :: f in feeds && f.name == n {
      if n in d {
        var k :| 0 <= k < |ps| && ps[k].0 == n;
        assert feeds[k] in feeds && feeds[k].name == n;
      }
      if exists f :: f in feeds && f.name == n {
        var f :| f in feeds && f.name == n;
        var k :| 0 <= k < |feeds| && feeds[k] == f;
        assert ps[k].0 == n;
      }
    }
  }

  function PairName(p: (string, seq<Article>)): string { p.0 }
}
