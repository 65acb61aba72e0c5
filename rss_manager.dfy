/** `RSSManager` (bucket/rss_manager.py): the feed operations over the store,
    each method proved against the function that specifies it. */
module Manager {
  import opened Text
  import opened Models
  import opened Seqs
  import opened Store
  import opened Dedup
  import opened Ingest
  import opened Briefing
  import opened Cleanup

  // ---------------------------------------------------------------------
  // toggle_feed

  /** `toggle_feed(id, active)`: the feeds afterwards and the updated feed;
      `None`, with nothing changed, when no feed has that id. */
  function ToggleOf(feeds: seq<Feed>, id: int, active: Option<bool>): (seq<Feed>, Option<Feed>) {
    var f := FindFeed(feeds, id);
    if f.None? then (feeds, None)
    else
      var b := if active.None? then !f.value.isActive else active.value;
      (UpdateFeedAt(feeds, id, SetActive(b)), Some(f.value.(isActive := b)))
  }

  /** The feed found gets the requested flag (the flipped one when none is
      given), keeps every other field, and no other feed changes. */
  lemma ToggleSpec(feeds: seq<Feed>, id: int, active: Option<bool>)
    ensures var (feeds', r) := ToggleOf(feeds, id, active);
      (r.None? <==> FindFeed(feeds, id).None?)
      && |feeds'| == |feeds|
      && (r.Some? ==> var f := FindFeed(feeds, id).value;
            r.value == f.(isActive := if active.None? then !f.isActive else active.value)
            && r.value in feeds')
      && forall i | 0 <= i < |feeds| && feeds[i].id != Some(id) :: feeds'[i] == feeds[i]
  {
    var i := FeedIndex(feeds, id);
    if i.Some? {
      var feeds' := ToggleOf(feeds, id, active).0;
      assert feeds'[i.value] == ToggleOf(feeds, id, active).1.value;
    }
  }

  /** Rows whose ids agree position by position are found at the same place. */
  lemma {:induction false} FeedIndexByIds(a: seq<Feed>, b: seq<Feed>, id: int)
    requires |a| == |b| && forall i :: 0 <= i < |a| ==> a[i].id == b[i].id
    ensures FeedIndex(a, id) == FeedIndex(b, id)
  {
    if a != [] {
      FeedIndexByIds(a[1..], b[1..], id);
    }
  }

  /** Toggling a feed twice without a flag restores the feed list. */
  lemma ToggleTwiceRestores(feeds: seq<Feed>, id: int)
    ensures ToggleOf(ToggleOf(feeds, id, None).0, id, None).0 == feeds
  {
    var i := FeedIndex(feeds, id);
    if i.Some? {
      var once := ToggleOf(feeds, id, None).0;
      FeedIndexByIds(once, feeds, id);
      var twice := ToggleOf(once, id, None).0;
      assert twice[i.value] == feeds[i.value];
      assert forall j | 0 <= j < |feeds| :: twice[j] == feeds[j];
    }
  }

  /** Setting the flag explicitly is idempotent. */
  lemma SetActiveIdempotent(feeds: seq<Feed>, id: int, b: bool)
    ensures ToggleOf(ToggleOf(feeds, id, Some(b)).0, id, Some(b)) ==
            (ToggleOf(feeds, id, Some(b)).0, ToggleOf(feeds, id, Some(b)).1)
  {
    var i := FeedIndex(feeds, id);
    if i.Some? {
      var once := ToggleOf(feeds, id, Some(b)).0;
      FeedIndexByIds(once, feeds, id);
      assert FindFeed(once, id) == Some(once[i.value]);
      var twice := ToggleOf(once, id, Some(b)).0;
      assert forall j | 0 <= j < |feeds| :: twice[j] == once[j];
      assert twice == once;
    }
  }

  // ---------------------------------------------------------------------
  // refresh_feed

  /** The dict `refresh_feed` returns: `{"error": ...}` or the success entry. */
  datatype RefreshResult =
    | RefreshError(message: string)
    | Refreshed(feed: Feed, newArticles: nat, articles: seq<Article>)

  /** `refresh_feed(id, max_articles)`: the store afterwards and the result. */
  function RefreshOf(md5: string -> HexDigest, st: StoreState, id: int, maxArticles: nat, run: FeedRun, now: int)
    : (StoreState, RefreshResult)
  {
    var f := FindFeed(st.feeds, id);
    if f.None? then (st, RefreshError("Feed not found"))
    else if !f.value.isActive then (st, RefreshError("Feed is not active"))
    else
      var (st', arts) := FetchFeed(md5, st, f.value, maxArticles, run, now);
      (st', Refreshed(f.value, |arts|, arts))
  }

  /** A missing or inactive feed is refused and nothing changes; otherwise
      the refreshed feed is the stored one, and `new_articles` counts the
      articles returned, at most `max_articles`, each now stored. */
  lemma RefreshSpec(md5: string -> HexDigest, st: StoreState, id: int, maxArticles: nat, run: FeedRun, now: int)
    ensures var (st', r) := RefreshOf(md5, st, id, maxArticles, run, now);
      (r == RefreshError("Feed not found") <==> FindFeed(st.feeds, id).None?)
      && (r == RefreshError("Feed is not active") <==> FindFeed(st.feeds, id).Some? && !FindFeed(st.feeds, id).value.isActive)
      && (r.RefreshError? ==> st' == st)
      && (r.Refreshed? ==>
            Some(r.feed) == FindFeed(st.feeds, id) && r.feed.isActive
            && r.newArticles == |r.articles| <= maxArticles
            && forall a | a in r.articles :: a in st'.articles && a.source == Some(r.feed.name))
  {
    var f := FindFeed(st.feeds, id);
    if f.Some? && f.value.isActive {
      var (st', arts) := FetchFeed(md5, st, f.value, maxArticles, run, now);
      if run.fetched.Some? {
        FetchFeedReturns(md5, st, f.value, maxArticles, run, now);
        assert forall a | a in arts :: exists k :: 0 <= k < |arts| && arts[k] == a;
      }
    }
  }

  // ---------------------------------------------------------------------
  // search_feeds

  /** The match test of `search_feeds` for an already lowered query: in the
      name, in a non-empty description, or in one of the tags, ignoring case. */
  predicate FeedMatches(f: Feed, q: string) {
    IsSubstring(q, Lower(f.name))
    || (Truthy(f.description) && IsSubstring(q, Lower(f.description.value)))
    || exists t :: t in f.tags && IsSubstring(q, Lower(t))
  }

  function MatchKey(q: string): Feed -> bool {
    f => FeedMatches(f, q)
  }

  /** `search_feeds(query)` over the active feeds `get_feeds()` returns. */
  function SearchOf(feeds: seq<Feed>, query: string): seq<Feed> {
    WithKey(ActiveFeeds(feeds), MatchKey(Lower(query)), true)
  }

  /** The matching feeds: exactly the active feeds that match, in the order
      of the feed list. */
  lemma SearchSpec(feeds: seq<Feed>, query: string)
    ensures forall f :: f in SearchOf(feeds, query) <==> f in feeds && f.isActive && FeedMatches(f, Lower(query))
    ensures IsSubseq(SearchOf(feeds, query), ActiveFeeds(feeds))
  {
    WithKeyMembers(ActiveFeeds(feeds), MatchKey(Lower(query)), true);
    WithKeyIsSubseq(ActiveFeeds(feeds), MatchKey(Lower(query)), true);
  }

  /** The empty query matches every active feed. */
  lemma EmptyQueryMatchesAll(feeds: seq<Feed>)
    ensures SearchOf(feeds, "") == ActiveFeeds(feeds)
  {
    assert Lower("") == "";
    KeepAll(ActiveFeeds(feeds), MatchKey(""));
  }

  lemma {:induction false} KeepAll(s: seq<Feed>, key: Feed -> bool)
    requires forall i :: 0 <= i < |s| ==> key(s[i])
    ensures WithKey(s, key, true) == s
    decreases |s|
  {
    if s != [] {
      var init := s[..|s| - 1];
      KeepAll(init, key);
      assert s == init + [s[|s| - 1]];
    }
  }

  /** The query's case does not matter. */
  lemma SearchIgnoresQueryCase(feeds: seq<Feed>, query: string)
    ensures SearchOf(feeds, Lower(query)) == SearchOf(feeds, query)
  {
    LowerOfLower(Lower(query));
  }

  // ---------------------------------------------------------------------
  // The manager.

  /** The manager over one store; `md5` stands for `hashlib.md5(...).hexdigest()`
      of the UTF-8 bytes of a string. */
  class RSSManager {
    const db: Database
    const md5: string -> HexDigest

    constructor (database: Database, md5Hex: string -> HexDigest)
      ensures db == database && md5 == md5Hex
    {
      db := database;
      md5 := md5Hex;
    }

    /** `toggle_feed(feed_id, active)`. */
    method ToggleFeed(id: int, active: Option<bool>) returns (r: Option<Feed>)
      modifies db`feeds
      ensures (db.feeds, r) == ToggleOf(old(db.feeds), id, active)
    {
      var f := FindFeed(db.feeds, id);
      if f.None? {
        return None;
      }
      var b := if active.None? then !f.value.isActive else active.value;
      r := db.UpdateFeed(id, SetActive(b));
    }

    /** `_is_duplicate_article(article, feed)`; `readFails` is a store read
        that raises. */
    method IsDuplicateArticle(a: Article, feed: Feed, readFails: bool) returns (dup: bool)
      ensures dup == IsDuplicate(md5, db.articles, a, feed, readFails)
    {
      if readFails {
        return true;
      }
      if UrlSeen(db.articles, a.url) {
        return true;
      }
      var rows := ArticlesBySource(db.articles, feed.name);
      if a.title != [] {
        dup := TitleTier(rows, a);
        if dup {
          return;
        }
      }
      if Truthy(a.content) {
        dup := HashTier(md5, rows, a);
        if dup {
          return;
        }
      }
      return false;
    }

    /** The body of the loop of `fetch_feed_articles` for the entry at
        position `i`: skip a duplicate, else stamp and save it. */
    method SaveUnlessDuplicate(e: Article, feed: Feed, faults: StoreFaults, i: nat) returns (sv: Option<Article>)
      requires db.Valid()
      modifies db`articles, db`nextId
      ensures db.Valid()
      ensures sv == Survivor(md5, old(db.articles), old(db.nextId), e, feed, faults, i)
      ensures db.articles == old(db.articles) + ToSeq(sv) && db.nextId == old(db.nextId) + |ToSeq(sv)|
    {
      var dup := IsDuplicateArticle(e, feed, i in faults.readFails);
      if dup || i in faults.saveFails {
        assert db.articles + [] == db.articles;
        return None;
      }
      var s := Stamp(e, feed);
      var id := db.SaveArticle(s);
      sv := Some(s.(id := Some(id)));
    }

    /** The loop of `fetch_feed_articles` over the capped entries: each is
        checked against the rows stored so far and, unless skipped, saved. */
    method SaveEntries(entries: seq<Article>, feed: Feed, faults: StoreFaults) returns (saved: seq<Article>)
      requires db.Valid()
      modifies db`articles, db`nextId
      ensures db.Valid()
      ensures saved == Ingested(md5, old(db.articles), old(db.nextId), entries, feed, faults, 0)
      ensures db.articles == old(db.articles) + saved && db.nextId == old(db.nextId) + |saved|
    {
      ghost var arts0, id0 := db.articles, db.nextId;
      saved := [];
      var i := 0;
      while i < |entries|
        invariant 0 <= i <= |entries|
        invariant db.Valid()
        invariant db.articles == arts0 + saved && db.nextId == id0 + |saved|
        invariant Ingested(md5, arts0, id0, entries, feed, faults, 0)
               == saved + Ingested(md5, db.articles, db.nextId, entries[i..], feed, faults, i)
      {
        ghost var cur, nid := db.articles, db.nextId;
        IngestedStepSeq(md5, cur, nid, entries[i..], feed, faults, i);
        assert entries[i..][1..] == entries[i + 1..];
        var sv := SaveUnlessDuplicate(entries[i], feed, faults, i);
        AppendAssoc(saved, ToSeq(sv), Ingested(md5, db.articles, db.nextId, entries[i + 1..], feed, faults, i + 1));
        saved := saved + ToSeq(sv);
        i := i + 1;
      }
      assert Ingested(md5, db.articles, db.nextId, entries[i..], feed, faults, i) == [];
    }

    /** `fetch_feed_articles(feed, max_articles)`; the fetcher's answer and
        the store's faults come in `run`, the clock in `now`. */
    method FetchFeedArticles(feed: Feed, maxArticles: nat, run: FeedRun, now: int) returns (saved: seq<Article>)
      requires db.Valid()
      modifies db
      ensures db.Valid()
      ensures (db.State(), saved) == FetchFeed(md5, old(db.State()), feed, maxArticles, run, now)
    {
      if run.fetched.None? {
        return [];
      }
      FetchFeedFetched(md5, db.State(), feed, maxArticles, run, now);
      saved := SaveEntries(Take(run.fetched.value, maxArticles), feed, run.faults);
      if run.faults.updateFails {
        return [];
      }
      if feed.id.Some? {
        var _ := db.UpdateFeed(feed.id.value, SetLastFetched(now));
      }
    }

    /** `fetch_all_feeds(max_articles_per_feed)`: every active feed in turn. */
    method FetchAllFeeds(maxPerFeed: nat, runs: (Feed, int) -> FeedRun, now: int)
      returns (results: map<string, seq<Article>>)
      requires db.Valid()
      modifies db
      ensures db.Valid()
      ensures db.State() == FetchAll(md5, old(db.State()), ActiveFeeds(old(db.feeds)), maxPerFeed, runs, now).0
      ensures results == DictOf(FetchAll(md5, old(db.State()), ActiveFeeds(old(db.feeds)), maxPerFeed, runs, now).1)
    {
      var feeds := ActiveFeeds(db.feeds);
      ghost var all := FetchAll(md5, db.State(), feeds, maxPerFeed, runs, now);
      ghost var pairs: seq<(string, seq<Article>)> := [];
      results := map[];
      for i := 0 to |feeds|
        invariant db.Valid()
        invariant all.0 == FetchAll(md5, db.State(), feeds[i..], maxPerFeed, runs, now).0
        invariant all.1 == pairs + FetchAll(md5, db.State(), feeds[i..], maxPerFeed, runs, now).1
        invariant results == DictOf(pairs)
      {
        ghost var st := db.State();
        FetchAllCons(md5, st, feeds[i..], maxPerFeed, runs, now);
        assert feeds[i..][1..] == feeds[i + 1..];
        var articles := FetchFeedArticles(feeds[i], maxPerFeed, runs(feeds[i], now), now);
        ghost var rest := FetchAll(md5, db.State(), feeds[i + 1..], maxPerFeed, runs, now).1;
        AppendAssoc(pairs, [(feeds[i].name, articles)], rest);
        DictOfSnoc(pairs, (feeds[i].name, articles));
        pairs := pairs + [(feeds[i].name, articles)];
        results := results[feeds[i].name := articles];
      }
      assert FetchAll(md5, db.State(), feeds[|feeds|..], maxPerFeed, runs, now).1 == [];
      assert pairs + [] == pairs;
    }

    /** `refresh_feed(feed_id, max_articles)`. */
    method RefreshFeed(id: int, maxArticles: nat, run: FeedRun, now: int) returns (r: RefreshResult)
      requires db.Valid()
      modifies db
      ensures db.Valid()
      ensures (db.State(), r) == RefreshOf(md5, old(db.State()), id, maxArticles, run, now)
    {
      var f := FindFeed(db.feeds, id);
      if f.None? {
        return RefreshError("Feed not found");
      }
      if !f.value.isActive {
        return RefreshError("Feed is not active");
      }
      var articles := FetchFeedArticles(f.value, maxArticles, run, now);
      r := Refreshed(f.value, |articles|, articles);
    }

    /** `search_feeds(query)`. */
    method SearchFeeds(query: string) returns (matching: seq<Feed>)
      ensures matching == SearchOf(db.feeds, query)
    {
      var feeds := ActiveFeeds(db.feeds);
      var q := Lower(query);
      matching := [];
      for i := 0 to |feeds|
        invariant matching == WithKey(feeds[..i], MatchKey(q), true)
      {
        var f := feeds[i];
        assert feeds[..i + 1] == feeds[..i] + [f];
        WithKeySnoc(feeds[..i], f, MatchKey(q), true);
        var hit := MatchesQuery(f, q);
        matching := matching + (if hit then [f] else []);
      }
      assert feeds[..|feeds|] == feeds;
    }

    /** `generate_rss_briefing(config)` at time `now`. */
    method GenerateRssBriefing(cfg: BriefingConfig, now: int) returns (b: Briefing)
      ensures b == BriefingOf(db.State(), cfg, now)
    {
      var recent := ArticlesSince(db.articles, now - cfg.daysBack * 86400, cfg.maxTotalArticles);
      var rss := RssSourced(recent);
      var feeds := ActiveFeeds(db.feeds);
      var names, groups := ArrangeGroups(cfg, rss);
      MapsEqual(groups, GroupsOf(cfg, rss));
      var readingTime, words := SumStats(rss);
      var active := CountActive(feeds);
      b := Briefing(names, groups, feeds,
                    BriefingStats(|rss|, |feeds|, active, readingTime, words, cfg.daysBack, now), cfg);
    }

    /** `_remove_article_from_db(article_id)` as evidently intended: look the
        row up, and delete it if it is there. */
    method RemoveArticleFromDb(id: Option<int>) returns (ok: bool)
      requires db.Valid()
      modifies db`articles
      ensures db.Valid()
      ensures ok <==> HasId(old(db.articles), id)
      ensures db.articles == if ok then WithoutId(old(db.articles), id.value) else old(db.articles)
    {
      if !HasId(db.articles, id) {
        return false;
      }
      ok := db.DeleteArticle(id.value);
    }

    /** `_remove_article_from_db(article_id)` as written: its first statement
        reads `SQLALCHEMY_AVAILABLE`, a name the module never defines, so
        a `NameError` is raised, caught, and `False` returned; the store is
        never touched. */
    method RemoveArticleAsWritten(id: Option<int>) returns (ok: bool)
      ensures !ok
    {
      ok := false;
    }

    /** `cleanup_duplicates(days_back)` with the corrected removal;
        `readFails` is a failing recent-articles query. */
    method CleanupDuplicates(daysBack: int, now: int, readFails: bool) returns (report: CleanupReport)
      requires db.Valid()
      modifies db`articles
      ensures db.Valid()
      ensures (db.State(), report) == CleanupOf(md5, old(db.State()), daysBack, now, readFails)
    {
      if readFails {
        return CleanupFailed;
      }
      var recent := ArticlesSince(db.articles, now - daysBack * 86400, 1000);
      if recent == [] {
        return Cleaned(0, 0, 0, None);
      }
      var sources, bySource := GroupBy(recent, SourceKey);
      var found, removed := CleanSources(recent, sources, bySource);
      report := Cleaned(|recent|, found, removed, Some(|sources|));
    }

    /** The outer loop of `cleanup_duplicates`: each source's list is
        scanned and its duplicates removed, source by source. */
    method CleanSources(recent: seq<Article>, sources: seq<string>, bySource: map<string, seq<Article>>)
      returns (found: nat, removed: nat)
      requires db.Valid()
      requires forall k :: k in sources ==> k in bySource && bySource[k] == WithKey(recent, SourceKey, k)
      modifies db`articles
      ensures db.Valid()
      ensures found == |DupsOver(md5, recent, sources)|
      ensures db.articles == RemoveAll(old(db.articles), DupsOver(md5, recent, sources)).0
      ensures removed == RemoveAll(old(db.articles), DupsOver(md5, recent, sources)).1
    {
      ghost var arts0 := db.articles;
      ghost var dups: seq<Article> := [];
      found, removed := 0, 0;
      for k := 0 to |sources|
        invariant db.Valid()
        invariant dups == DupsOver(md5, recent, sources[..k])
        invariant found == |dups|
        invariant db.articles == RemoveAll(arts0, dups).0 && removed == RemoveAll(arts0, dups).1
      {
        assert sources[..k + 1][..k] == sources[..k];
        var articles := SortDesc(bySource[sources[k]], CreatedKey);
        ghost var g := GroupDups(md5, recent, sources[k]);
        assert g == Flagged(articles, ScanFlags(md5, EmptyScan, articles));
        var f;
        f, removed := CleanSource(articles, arts0, dups, removed);
        dups := dups + g;
        found := found + f;
      }
      assert sources[..|sources|] == sources;
    }

    /** The scan of one source's list, newest first, after the removals of
        `prior` from `arts0`: every flagged article is counted and removed. */
    method CleanSource(articles: seq<Article>, ghost arts0: seq<Article>, ghost prior: seq<Article>, removed0: nat)
      returns (found: nat, removed: nat)
      requires db.Valid()
      requires (db.articles, removed0) == RemoveAll(arts0, prior)
      modifies db`articles
      ensures db.Valid()
      ensures found == |Flagged(articles, ScanFlags(md5, EmptyScan, articles))|
      ensures (db.articles, removed) == RemoveAll(arts0, prior + Flagged(articles, ScanFlags(md5, EmptyScan, articles)))
    {
      ghost var dups: seq<Article> := [];
      var seenUrls: set<string>, seenTitles: map<string, Article>, seenHashes: set<HexDigest> := {}, map[], {};
      found, removed := 0, removed0;
      assert prior + [] == prior;
      for i := 0 to |articles|
        invariant db.Valid()
        invariant found == |dups|
        invariant (db.articles, removed) == RemoveAll(arts0, prior + dups)
        invariant Flagged(articles, ScanFlags(md5, EmptyScan, articles))
               == dups + Flagged(articles[i..], ScanFlags(md5, ScanState(seenUrls, seenTitles, seenHashes), articles[i..]))
      {
        FlaggedStep(md5, ScanState(seenUrls, seenTitles, seenHashes), articles[i..]);
        assert articles[i..][1..] == articles[i + 1..];
        var isDup;
        seenUrls, seenTitles, seenHashes, isDup := ScanArticle(md5, seenUrls, seenTitles, seenHashes, articles[i]);
        ghost var mine := if isDup then [articles[i]] else [];
        if isDup {
          found := found + 1;
          removed := RemoveDuplicate(articles[i], arts0, prior + dups, removed);
          AppendAssoc(prior, dups, [articles[i]]);
        } else {
          assert dups + [] == dups;
        }
        AppendAssoc(dups, mine, Flagged(articles[i + 1..], ScanFlags(md5, ScanState(seenUrls, seenTitles, seenHashes), articles[i + 1..])));
        dups := dups + mine;
      }
      assert articles[|articles|..] == [];
      ghost var tail := Flagged(articles[|articles|..], ScanFlags(md5, ScanState(seenUrls, seenTitles, seenHashes), articles[|articles|..]));
      assert tail == [];
      assert dups + tail == dups;
    }

    /** A flagged article of the scan: `removed` grows when the row was
        there to delete. */
    method RemoveDuplicate(a: Article, ghost arts0: seq<Article>, ghost dups: seq<Article>, removed: nat)
      returns (removed': nat)
      requires db.Valid()
      requires (db.articles, removed) == RemoveAll(arts0, dups)
      modifies db`articles
      ensures db.Valid()
      ensures (db.articles, removed') == RemoveAll(arts0, dups + [a])
    {
      RemoveAllSnoc(arts0, dups, a);
      var ok := RemoveArticleFromDb(a.id);
      removed' := if ok then removed + 1 else removed;
    }
  }

  /** One article of the scan of `cleanup_duplicates`: the URL check, then
      the title check, then the content-hash check, each updating its
      memory as the source does. */
  method ScanArticle(md5: string -> HexDigest, urls: set<string>, titles: map<string, Article>, hashes: set<HexDigest>,
                     a: Article)
    returns (urls': set<string>, titles': map<string, Article>, hashes': set<HexDigest>, isDup: bool)
    ensures (ScanState(urls', titles', hashes'), isDup) == ScanStep(md5, ScanState(urls, titles, hashes), a)
  {
    urls', titles', hashes' := urls, titles, hashes;
    isDup := false;
    ghost var sc := ScanState(urls, titles, hashes);
    if a.url in urls {
      isDup := true;
      assert urls' == urls + {a.url};
    } else {
      urls' := urls + {a.url};
    }
    assert urls' == ScanStep(md5, sc, a).0.urls;
    if !isDup && a.title != [] {
      var key := Normalize(a.title);
      isDup := TitleSeen(titles, key, a);
      if !isDup {
        titles' := titles[key := a];
      }
    }
    if !isDup && Truthy(a.content) {
      var h := ContentHash(md5, a.content);
      if h.value in hashes {
        isDup := true;
      } else {
        hashes' := hashes + {h.value};
      }
    }
    assert titles' == ScanStep(md5, sc, a).0.titles;
    assert hashes' == ScanStep(md5, sc, a).0.hashes;
    assert isDup == ScanStep(md5, sc, a).1;
  }

  /** The loop over `seen_titles.items()`, stopping at the first clash. */
  method TitleSeen(titles: map<string, Article>, key: string, a: Article) returns (hit: bool)
    ensures hit == TitleClash(titles, key, a)
  {
    hit := false;
    var rest := titles.Keys;
    while rest != {} && !hit
      invariant rest <= titles.Keys
      invariant hit <==> exists t :: t in titles.Keys - rest && TitlesSimilar(key, t)
                                     && DatesClose(a.publishedDate, titles[t].publishedDate)
      decreases |rest|
    {
      var t :| t in rest;
      if TitlesSimilar(key, t) && DatesClose(a.publishedDate, titles[t].publishedDate) {
        hit := true;
      }
      rest := rest - {t};
    }
  }

  /** `articles_by_feed` of `generate_rss_briefing`: grouped by source
      (or one "All Feeds" list), capped, and sorted when asked. */
  method ArrangeGroups(cfg: BriefingConfig, rss: seq<Article>)
    returns (names: seq<string>, groups: map<string, seq<Article>>)
    ensures names == GroupNames(cfg, rss)
    ensures groups.Keys == GroupsOf(cfg, rss).Keys
    ensures forall k | k in groups :: groups[k] == GroupsOf(cfg, rss)[k]
  {
    if cfg.groupByFeed {
      var byFeed;
      names, byFeed := GroupBy(rss, SourceKey);
      groups := CapGroups(names, byFeed, cfg.maxArticlesPerFeed);
    } else {
      names, groups := [AllFeeds], map[AllFeeds := Take(rss, cfg.maxTotalArticles)];
    }
    if cfg.sortByPriority {
      groups := SortGroups(names, groups);
    }
  }

  lemma MapsEqual(m1: map<string, seq<Article>>, m2: map<string, seq<Article>>)
    requires m1.Keys == m2.Keys && forall k | k in m1 :: m1[k] == m2[k]
    ensures m1 == m2
  {
  }

  /** The loop of `generate_rss_briefing` that caps each feed's list. */
  method CapGroups(names: seq<string>, groups: map<string, seq<Article>>, cap: nat)
    returns (capped: map<string, seq<Article>>)
    requires Distinct(names) && groups.Keys == set k | k in names
    ensures capped.Keys == groups.Keys && forall k | k in groups :: capped[k] == Take(groups[k], cap)
  {
    capped := groups;
    for i := 0 to |names|
      invariant capped.Keys == groups.Keys
      invariant forall k | k in capped ::
        capped[k] == if k in names[..i] then Take(groups[k], cap) else groups[k]
    {
      assert names[..i + 1] == names[..i] + [names[i]];
      capped := capped[names[i] := Take(capped[names[i]], cap)];
    }
    assert names[..|names|] == names;
  }

  /** The loop of `generate_rss_briefing` that sorts each feed's list by
      priority and creation time, in descending order. */
  method SortGroups(names: seq<string>, groups: map<string, seq<Article>>)
    returns (sorted: map<string, seq<Article>>)
    requires Distinct(names) && groups.Keys == set k | k in names
    ensures sorted.Keys == groups.Keys && forall k | k in groups :: sorted[k] == SortDesc(groups[k], PriorityKey)
  {
    sorted := groups;
    for i := 0 to |names|
      invariant sorted.Keys == groups.Keys
      invariant forall k | k in sorted ::
        sorted[k] == if k in names[..i] then SortDesc(groups[k], PriorityKey) else groups[k]
    {
      assert names[..i + 1] == names[..i] + [names[i]];
      sorted := sorted[names[i] := SortDesc(sorted[names[i]], PriorityKey)];
    }
    assert names[..|names|] == names;
  }

  /** The two sums of the briefing's `stats`. */
  method SumStats(arts: seq<Article>) returns (readingTime: int, words: int)
    ensures readingTime == SumReadingTime(arts) && words == SumWords(arts)
  {
    readingTime, words := 0, 0;
    for i := 0 to |arts|
      invariant readingTime == SumReadingTime(arts[..i]) && words == SumWords(arts[..i])
    {
      assert arts[..i + 1][..i] == arts[..i];
      readingTime := readingTime + OrZero(arts[i].readingTime);
      words := words + OrZero(arts[i].wordCount);
    }
    assert arts[..|arts|] == arts;
  }

  /** `len([f for f in feeds if f.is_active])`. */
  method CountActive(feeds: seq<Feed>) returns (active: nat)
    ensures active == |ActiveFeeds(feeds)|
  {
    active := 0;
    for i := 0 to |feeds|
      invariant active == |ActiveFeeds(feeds[..i])|
    {
      ActiveFeedsAppend(feeds[..i], [feeds[i]]);
      assert feeds[..i + 1] == feeds[..i] + [feeds[i]];
      if feeds[i].isActive {
        active := active + 1;
      }
    }
    assert feeds[..|feeds|] == feeds;
  }

  /** Tier 2 of the duplicate test: the loop over the source's rows. */
  method TitleTier(rows: seq<Article>, a: Article) returns (hit: bool)
    requires a.title != []
    ensures hit == SimilarTitleNearby(rows, a)
  {
    var i := 0;
    while i < |rows|
      invariant 0 <= i <= |rows|
      invariant forall k :: 0 <= k < i ==> !TitleMatch(rows[k], a)
    {
      if rows[i].title != [] && TitlesSimilar(a.title, rows[i].title)
         && DatesClose(a.publishedDate, rows[i].publishedDate) {
        assert TitleMatch(rows[i], a);
        return true;
      }
      i := i + 1;
    }
    return false;
  }

  /** Tier 3 of the duplicate test: the loop over the source's rows. */
  method HashTier(md5: string -> HexDigest, rows: seq<Article>, a: Article) returns (hit: bool)
    requires Truthy(a.content)
    ensures hit == SameContentHash(md5, rows, a)
  {
    var h := ContentHash(md5, a.content);
    var i := 0;
    while i < |rows|
      invariant 0 <= i <= |rows|
      invariant forall k :: 0 <= k < i ==> !HashMatch(md5, rows[k], a)
    {
      if Truthy(rows[i].content) && ContentHash(md5, rows[i].content) == h {
        assert HashMatch(md5, rows[i], a);
        return true;
      }
      i := i + 1;
    }
    return false;
  }

  /** The test `search_feeds` applies to one feed, with the loop over its tags. */
  method MatchesQuery(f: Feed, q: string) returns (hit: bool)
    ensures hit == MatchKey(q)(f)
  {
    hit := IsSubstring(q, Lower(f.name))
      || (Truthy(f.description) && IsSubstring(q, Lower(f.description.value)));
    var j := 0;
    while j < |f.tags| && !hit
      invariant 0 <= j <= |f.tags|
      invariant hit ==> FeedMatches(f, q)
      invariant !hit ==> !IsSubstring(q, Lower(f.name))
      invariant !hit ==> !(Truthy(f.description) && IsSubstring(q, Lower(f.description.value)))
      invariant !hit ==> forall k :: 0 <= k < j ==> !IsSubstring(q, Lower(f.tags[k]))
    {
      hit := IsSubstring(q, Lower(f.tags[j]));
      assert f.tags[j] in f.tags;
      j := j + 1;
    }
  }

  /** Filling the dict with one more pair sets that pair's name. */
  lemma DictOfSnoc(ps: seq<(string, seq<Article>)>, p: (string, seq<Article>))
    ensures DictOf(ps + [p]) == DictOf(ps)[p.0 := p.1]
  {
    assert (ps + [p])[..|ps|] == ps;
  }
}
