/** What `generate_rss_briefing` returns (bucket/rss_manager.py:136-191), as a
    function of the store, the configuration and the current time. */
module Briefing {
  import opened Models
  import opened Seqs
  import opened Store

  /** `RSSBriefingConfig`. */
  datatype BriefingConfig = BriefingConfig(
    maxArticlesPerFeed: nat,
    maxTotalArticles: nat,
    daysBack: int,
    includeSummaries: bool,
    sortByPriority: bool,
    groupByFeed: bool)

  /** The configuration used when none is passed. */
  const DefaultConfig := BriefingConfig(5, 25, 7, true, true, true)

  /** The key all articles are listed under when grouping is off. */
  const AllFeeds := "All Feeds"

  /** `priority_order`: urgent 0, high 1, medium 2, low 3. */
  function Rank(p: ArticlePriority): int {
    match p
    case Urgent => 0
    case High => 1
    case Medium => 2
    case Low => 3
  }

  /** The sort key `(priority_order[a.priority], a.created_at)`. */
  function PriorityKey(a: Article): (int, int) { (Rank(a.priority), a.createdAt) }

  /** `[a for a in recent if a.source]`. */
  function RssSourced(arts: seq<Article>): seq<Article> {
    WithKey(arts, HasSource, true)
  }

  /** A list as it stands after the optional in-place sort with `reverse=True`. */
  function Arrange(cfg: BriefingConfig, g: seq<Article>): seq<Article> {
    if cfg.sortByPriority then SortDesc(g, PriorityKey) else g
  }

  /** The list kept for one feed when grouping: its articles in query order,
      capped at `max_articles_per_feed`, then arranged. */
  function FeedGroup(cfg: BriefingConfig, rss: seq<Article>, k: string): seq<Article> {
    Arrange(cfg, Take(WithKey(rss, SourceKey, k), cfg.maxArticlesPerFeed))
  }

  /** The keys of `articles_by_feed`, in dict order. */
  function GroupNames(cfg: BriefingConfig, rss: seq<Article>): seq<string> {
    if cfg.groupByFeed then Keys(rss, SourceKey) else [AllFeeds]
  }

  /** `articles_by_feed`. */
  function GroupsOf(cfg: BriefingConfig, rss: seq<Article>): map<string, seq<Article>> {
    if cfg.groupByFeed then map k | k in Keys(rss, SourceKey) :: FeedGroup(cfg, rss, k)
    else map[AllFeeds := Arrange(cfg, Take(rss, cfg.maxTotalArticles))]
  }

  /** `sum(a.reading_time or 0 for a in arts)`. */
  function SumReadingTime(arts: seq<Article>): int {
    if arts == [] then 0 else SumReadingTime(arts[..|arts| - 1]) + OrZero(arts[|arts| - 1].readingTime)
  }

  /** `sum(a.word_count or 0 for a in arts)`. */
  function SumWords(arts: seq<Article>): int {
    if arts == [] then 0 else SumWords(arts[..|arts| - 1]) + OrZero(arts[|arts| - 1].wordCount)
  }

  /** The `stats` entry; `date_range` is the text "Last {days_back} days", kept
      here as the number of days. */
  datatype BriefingStats = BriefingStats(
    totalArticles: nat,
    totalFeeds: nat,
    activeFeeds: nat,
    totalReadingTime: int,
    totalWords: int,
    daysBack: int,
    generatedAt: int)

  /** The returned dict: `articles_by_feed` (its keys in order, and the map),
      `feeds`, `stats` and `config`. */
  datatype Briefing = Briefing(
    feedNames: seq<string>,
    articlesByFeed: map<string, seq<Article>>,
    feeds: seq<Feed>,
    stats: BriefingStats,
    config: BriefingConfig)

  /** `get_articles_since(now - days_back days, limit=max_total_articles)`. */
  function Recent(st: StoreState, cfg: BriefingConfig, now: int): seq<Article> {
    ArticlesSince(st.articles, now - cfg.daysBack * 86400, cfg.maxTotalArticles)
  }

  function BriefingOf(st: StoreState, cfg: BriefingConfig, now: int): Briefing {
    var rss := RssSourced(Recent(st, cfg, now));
    var feeds := ActiveFeeds(st.feeds);
    var stats := BriefingStats(|rss|, |feeds|, |ActiveFeeds(feeds)|,
                               SumReadingTime(rss), SumWords(rss), cfg.daysBack, now);
    Briefing(GroupNames(cfg, rss), GroupsOf(cfg, rss), feeds, stats, cfg)
  }

  // ---------------------------------------------------------------------
  // Properties of the briefing.

  /** Every listed article is a stored article with a truthy source, created
      within the last `days_back` days.  One grouped by feed sits under its
      own source name; either way no list exceeds its cap. */
  lemma BriefingArticles(st: StoreState, cfg: BriefingConfig, now: int)
    ensures var b := BriefingOf(st, cfg, now);
      forall k | k in b.articlesByFeed ::
        (cfg.groupByFeed ==> |b.articlesByFeed[k]| <= cfg.maxArticlesPerFeed) &&
        |b.articlesByFeed[k]| <= cfg.maxTotalArticles &&
        forall a | a in b.articlesByFeed[k] ::
          a in st.articles && a.createdAt >= now - cfg.daysBack * 86400 && Truthy(a.source) &&
          (cfg.groupByFeed ==> a.source == Some(k))
  {
    var b := BriefingOf(st, cfg, now);
    forall k | k in b.articlesByFeed
      ensures (cfg.groupByFeed ==> |b.articlesByFeed[k]| <= cfg.maxArticlesPerFeed)
      ensures |b.articlesByFeed[k]| <= cfg.maxTotalArticles
      ensures forall a | a in b.articlesByFeed[k] ::
          a in st.articles && a.createdAt >= now - cfg.daysBack * 86400 && Truthy(a.source) &&
          (cfg.groupByFeed ==> a.source == Some(k))
    {
      var rss := RssSourced(Recent(st, cfg, now));
      assert b.articlesByFeed[k] == Arrange(cfg, GroupBase(cfg, rss, k));
      GroupArticles(st, cfg, now, k);
    }
  }

  /** The list a group is arranged from: the feed's articles capped per feed,
      or all of them capped in total. */
  function GroupBase(cfg: BriefingConfig, rss: seq<Article>, k: string): seq<Article> {
    if cfg.groupByFeed then Take(WithKey(rss, SourceKey, k), cfg.maxArticlesPerFeed)
    else Take(rss, cfg.maxTotalArticles)
  }

  /** `BriefingArticles` for one group's list. */
  lemma GroupArticles(st: StoreState, cfg: BriefingConfig, now: int, k: string)
    ensures var g := Arrange(cfg, GroupBase(cfg, RssSourced(Recent(st, cfg, now)), k));
      (cfg.groupByFeed ==> |g| <= cfg.maxArticlesPerFeed)
      && |g| <= cfg.maxTotalArticles
      && forall a | a in g ::
        a in st.articles && a.createdAt >= now - cfg.daysBack * 86400 && Truthy(a.source) &&
        (cfg.groupByFeed ==> a.source == Some(k))
  {
    var recent := Recent(st, cfg, now);
    var rss := RssSourced(recent);
    ArticlesSinceBasics(st.articles, now - cfg.daysBack * 86400, cfg.maxTotalArticles);
    WithKeyMembers(recent, HasSource, true);
    var base := GroupBase(cfg, rss, k);
    ArrangePermutes(cfg, base);
    WithKeyMembers(rss, SourceKey, k);
    forall a | a in Arrange(cfg, base)
      ensures a in st.articles && a.createdAt >= now - cfg.daysBack * 86400 && Truthy(a.source)
      ensures cfg.groupByFeed ==> a.source == Some(k)
    {
      assert a in multiset(base);
      assert a in rss;
    }
  }

  /** Arranging a list reorders it and nothing more. */
  lemma ArrangePermutes(cfg: BriefingConfig, g: seq<Article>)
    ensures multiset(Arrange(cfg, g)) == multiset(g)
    ensures |Arrange(cfg, g)| == |g|
    ensures cfg.sortByPriority ==> SortedDesc(Arrange(cfg, g), PriorityKey)
  {
    SortDescSortedPermutation(g, PriorityKey);
  }

  /** Each list holds exactly the articles selected for it (a permutation of
      the first `max_articles_per_feed` articles of its source, in query
      order), sorted by the priority key when asked, and articles with equal
      keys keep their query order. */
  lemma FeedGroupSpec(cfg: BriefingConfig, rss: seq<Article>, k: string)
    ensures multiset(FeedGroup(cfg, rss, k)) == multiset(Take(WithKey(rss, SourceKey, k), cfg.maxArticlesPerFeed))
    ensures cfg.sortByPriority ==> SortedDesc(FeedGroup(cfg, rss, k), PriorityKey)
    ensures forall kv :: WithKey(FeedGroup(cfg, rss, k), PriorityKey, kv)
                      == WithKey(Take(WithKey(rss, SourceKey, k), cfg.maxArticlesPerFeed), PriorityKey, kv)
  {
    var base := Take(WithKey(rss, SourceKey, k), cfg.maxArticlesPerFeed);
    ArrangePermutes(cfg, base);
    if cfg.sortByPriority {
      forall kv ensures WithKey(FeedGroup(cfg, rss, k), PriorityKey, kv) == WithKey(base, PriorityKey, kv) {
        SortDescStable(base, PriorityKey, kv);
      }
    }
  }

  /** Sorting on `(priority_order, created_at)` with `reverse=True` puts the
      highest rank number first: low-priority articles lead each list and
      urgent ones trail it. */
  lemma UrgentLast(cfg: BriefingConfig, g: seq<Article>)
    requires cfg.sortByPriority
    ensures var s := Arrange(cfg, g);
      forall i, j | 0 <= i < j < |s| :: s[i].priority == Urgent ==> s[j].priority == Urgent
    ensures var s := Arrange(cfg, g);
      forall i, j | 0 <= i < j < |s| :: s[j].priority == Low ==> s[i].priority == Low
  {
    ArrangePermutes(cfg, g);
    var s := Arrange(cfg, g);
    forall i, j | 0 <= i < j < |s|
      ensures s[i].priority == Urgent ==> s[j].priority == Urgent
      ensures s[j].priority == Low ==> s[i].priority == Low
    {
      assert KeyLe(PriorityKey(s[j]), PriorityKey(s[i]));
    }
  }

  /** The keys come in order of first appearance, once each; with grouping
      every article of the query has its source among them, and the fallback
      key "Unknown" never appears, since untagged articles were filtered out. */
  lemma BriefingNames(st: StoreState, cfg: BriefingConfig, now: int)
    ensures var b := BriefingOf(st, cfg, now);
      Distinct(b.feedNames) && (forall k :: k in b.articlesByFeed <==> k in b.feedNames)
    ensures var b := BriefingOf(st, cfg, now);
      cfg.groupByFeed ==>
        forall a | a in Recent(st, cfg, now) && Truthy(a.source) :: a.source.value in b.feedNames
    ensures var b := BriefingOf(st, cfg, now);
      cfg.groupByFeed && "Unknown" in b.feedNames ==>
        exists a :: a in Recent(st, cfg, now) && a.source == Some("Unknown")
  {
    var recent := Recent(st, cfg, now);
    var rss := RssSourced(recent);
    WithKeyMembers(recent, HasSource, true);
    if cfg.groupByFeed {
      forall a | a in recent && Truthy(a.source) ensures a.source.value in Keys(rss, SourceKey) {
        assert a in rss && SourceKey(a) == a.source.value;
      }
      if "Unknown" in Keys(rss, SourceKey) {
        var x :| x in rss && SourceKey(x) == "Unknown";
        assert x in recent && x.source == Some("Unknown");
      }
    }
  }

  /** The statistics: every article with a source among the at most
      `max_total_articles` recent ones is counted once; the two feed counts
      agree, since `feeds` already holds only active feeds. */
  lemma BriefingStatsSpec(st: StoreState, cfg: BriefingConfig, now: int)
    ensures var b := BriefingOf(st, cfg, now);
      b.stats.totalArticles <= cfg.maxTotalArticles
      && (forall a | a in Recent(st, cfg, now) && Truthy(a.source) ::
            multiset(RssSourced(Recent(st, cfg, now)))[a] == multiset(Recent(st, cfg, now))[a])
      && b.stats.activeFeeds == b.stats.totalFeeds == |b.feeds|
      && (forall f :: f in b.feeds <==> f in st.feeds && f.isActive)
  {
    var recent := Recent(st, cfg, now);
    ArticlesSinceBasics(st.articles, now - cfg.daysBack * 86400, cfg.maxTotalArticles);
    forall a | a in recent && Truthy(a.source)
      ensures multiset(RssSourced(recent))[a] == multiset(recent)[a]
    {
      WithKeyCount(recent, HasSource, true, a);
    }
    ActiveOfActive(ActiveFeeds(st.feeds));
  }

  /** Filtering by key keeps every copy of an element carrying the key. */
  lemma {:induction false} WithKeyCount<T(!new), K(!new)>(s: seq<T>, key: T -> K, k: K, x: T)
    requires key(x) == k
    ensures multiset(WithKey(s, key, k))[x] == multiset(s)[x]
    decreases |s|
  {
    if s != [] {
      var init := s[..|s| - 1];
      assert s == init + [s[|s| - 1]];
      WithKeyCount(init, key, k, x);
    }
  }

  lemma {:induction false} ActiveOfActive(feeds: seq<Feed>)
    requires forall i :: 0 <= i < |feeds| ==> feeds[i].isActive
    ensures ActiveFeeds(feeds) == feeds
  {
    if feeds != [] {
      ActiveOfActive(feeds[1..]);
    }
  }

  /** The summed counts split over concatenation. */
  lemma {:induction false} SumsAppend(a: seq<Article>, b: seq<Article>)
    ensures SumReadingTime(a + b) == SumReadingTime(a) + SumReadingTime(b)
    ensures SumWords(a + b) == SumWords(a) + SumWords(b)
    decreases |b|
  {
    if b != [] {
      var init := b[..|b| - 1];
      assert (a + b)[..|a + b| - 1] == a + init;
      SumsAppend(a, init);
    } else {
      assert a + b == a;
    }
  }

  /** With neither cap reached and grouping on, every recent article with a
      source is listed under its source name. */
  lemma NothingDroppedBelowCaps(st: StoreState, cfg: BriefingConfig, now: int, a: Article)
    requires cfg.groupByFeed
    requires a in Recent(st, cfg, now) && Truthy(a.source)
    requires |WithKey(RssSourced(Recent(st, cfg, now)), SourceKey, a.source.value)| <= cfg.maxArticlesPerFeed
    ensures var b := BriefingOf(st, cfg, now);
      a.source.value in b.articlesByFeed && a in b.articlesByFeed[a.source.value]
  {
    var recent := Recent(st, cfg, now);
    var rss := RssSourced(recent);
    var k := a.source.value;
    WithKeyMembers(recent, HasSource, true);
    WithKeyMembers(rss, SourceKey, k);
    assert a in rss && SourceKey(a) == k;
    ArrangePermutes(cfg, WithKey(rss, SourceKey, k));
    assert a in multiset(WithKey(rss, SourceKey, k));
  }
}
