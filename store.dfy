/** The persistence layer as the core sees it (bucket/database.py): the
    queries it issues, with their filters, orderings and limits, and an
    in-memory `Database` whose methods update the stored rows in place. */
module Store {
  import opened Models
  import opened Seqs

  function SourceOf(a: Article): Option<string> { a.source }

  /** `a.source` is truthy: the article came from a feed. */
  function HasSource(a: Article): bool { Truthy(a.source) }

  /** `a.source or "Unknown"`: the key articles are grouped under. */
  function SourceKey(a: Article): string {
    if Truthy(a.source) then a.source.value else "Unknown"
  }

  /** Sort key of `ORDER BY created_at DESC`. */
  function CreatedKey(a: Article): (int, int) { (a.createdAt, 0) }

  /** `get_articles_by_source(name)`: the rows whose source is exactly `name`,
      newest first (rows with equal `created_at` keep their stored order). */
  function ArticlesBySource(arts: seq<Article>, name: string): seq<Article> {
    SortDesc(WithKey(arts, SourceOf, Some(name)), CreatedKey)
  }

  lemma ArticlesBySourceMembers(arts: seq<Article>, name: string)
    ensures forall a :: a in ArticlesBySource(arts, name) <==> a in arts && a.source == Some(name)
    ensures SortedDesc(ArticlesBySource(arts, name), CreatedKey)
  {
    var g := WithKey(arts, SourceOf, Some(name));
    WithKeyMembers(arts, SourceOf, Some(name));
    SortDescSortedPermutation(g, CreatedKey);
    forall a ensures a in SortDesc(g, CreatedKey) <==> a in g {
      assert a in SortDesc(g, CreatedKey) <==> a in multiset(SortDesc(g, CreatedKey));
    }
  }

  /** The rows with `created_at >= cutoff`, in stored order. */
  function CreatedSince(arts: seq<Article>, cutoff: int): (r: seq<Article>)
    ensures |r| <= |arts|
  {
    if arts == [] then []
    else (if arts[0].createdAt >= cutoff then [arts[0]] else []) + CreatedSince(arts[1..], cutoff)
  }

  lemma {:induction false} CreatedSinceMembers(arts: seq<Article>, cutoff: int)
    ensures forall a :: a in CreatedSince(arts, cutoff) <==> a in arts && a.createdAt >= cutoff
  {
    if arts != [] {
      CreatedSinceMembers(arts[1..], cutoff);
      assert arts == [arts[0]] + arts[1..];
    }
  }

  /** `get_articles_since(cutoff, limit)`: rows created at or after `cutoff`,
      newest first, at most `limit` of them. */
  function ArticlesSince(arts: seq<Article>, cutoff: int, limit: nat): seq<Article> {
    Take(SortDesc(CreatedSince(arts, cutoff), CreatedKey), limit)
  }

  /** The rows returned are stored rows created at or after the cutoff, at
      most `limit` of them, newest first; when no more than `limit` rows
      qualify, all of them are returned, and otherwise exactly `limit` of
      them, none older than any qualifying row left out. */
  lemma ArticlesSinceSpec(arts: seq<Article>, cutoff: int, limit: nat)
    ensures |ArticlesSince(arts, cutoff, limit)| <= limit
    ensures forall a :: a in ArticlesSince(arts, cutoff, limit) ==> a in arts && a.createdAt >= cutoff
    ensures SortedDesc(ArticlesSince(arts, cutoff, limit), CreatedKey)
    ensures |CreatedSince(arts, cutoff)| <= limit ==>
      multiset(ArticlesSince(arts, cutoff, limit)) == multiset(CreatedSince(arts, cutoff))
    ensures |CreatedSince(arts, cutoff)| > limit ==> |ArticlesSince(arts, cutoff, limit)| == limit
    ensures multiset(ArticlesSince(arts, cutoff, limit)) <= multiset(CreatedSince(arts, cutoff))
    ensures forall a: Article, b: Article ::
      (a in multiset(CreatedSince(arts, cutoff)) - multiset(ArticlesSince(arts, cutoff, limit))
       && b in ArticlesSince(arts, cutoff, limit)) ==> a.createdAt <= b.createdAt
  {
    ArticlesSinceBasics(arts, cutoff, limit);
    var c := CreatedSince(arts, cutoff);
    SortDescSortedPermutation(c, CreatedKey);
    TakeNewest(SortDesc(c, CreatedKey), limit);
  }

  /** The stored, recent, newest-first part of `ArticlesSinceSpec`, which is
      what the briefing and the clean-up rely on. */
  lemma ArticlesSinceBasics(arts: seq<Article>, cutoff: int, limit: nat)
    ensures |ArticlesSince(arts, cutoff, limit)| <= limit
    ensures forall a :: a in ArticlesSince(arts, cutoff, limit) ==> a in arts && a.createdAt >= cutoff
    ensures SortedDesc(ArticlesSince(arts, cutoff, limit), CreatedKey)
    ensures |CreatedSince(arts, cutoff)| <= limit ==>
      multiset(ArticlesSince(arts, cutoff, limit)) == multiset(CreatedSince(arts, cutoff))
  {
    var c := CreatedSince(arts, cutoff);
    var s := SortDesc(c, CreatedKey);
    CreatedSinceMembers(arts, cutoff);
    SortDescSortedPermutation(c, CreatedKey);
    var r := Take(s, limit);
    forall a | a in r ensures a in arts && a.createdAt >= cutoff {
      assert a in s;
      assert a in multiset(s);
      assert a in c;
    }
  }

  /** The first `n` rows of a newest-first list, and the rows left out are
      none of them newer than a row kept. */
  lemma TakeNewest(s: seq<Article>, n: nat)
    requires SortedDesc(s, CreatedKey)
    ensures |s| > n ==> |Take(s, n)| == n
    ensures multiset(Take(s, n)) <= multiset(s)
    ensures forall a: Article, b: Article ::
      (a in multiset(s) - multiset(Take(s, n)) && b in Take(s, n)) ==> a.createdAt <= b.createdAt
  {
    var r := Take(s, n);
    var rest := s[|r|..];
    assert s == r + rest;
    assert multiset(s) - multiset(r) == multiset(rest);
    SortedSplit(s, |r|);
    assert r == s[..|r|];
    forall a: Article | a in multiset(rest) ensures a in rest {
    }
  }

  /** In a newest-first list, nothing after position `k` is newer than
      anything before it. */
  lemma SortedSplit(s: seq<Article>, k: nat)
    requires SortedDesc(s, CreatedKey) && k <= |s|
    ensures forall a, b :: a in s[k..] && b in s[..k] ==> a.createdAt <= b.createdAt
  {
    forall a, b | a in s[k..] && b in s[..k]
      ensures a.createdAt <= b.createdAt
    {
      var j :| 0 <= j < |s| - k && s[k..][j] == a;
      var i :| 0 <= i < k && s[..k][i] == b;
      assert KeyLe(CreatedKey(s[k + j]), CreatedKey(s[i]));
    }
  }

  /** `get_article_by_url(url)` finds a row: some stored URL is exactly `url`. */
  predicate UrlSeen(arts: seq<Article>, url: string) {
    exists i :: 0 <= i < |arts| && arts[i].url == url
  }

  /** Position of the row `get_feed(id)` returns. */
  function FeedIndex(feeds: seq<Feed>, id: int): (r: Option<nat>)
    ensures r.Some? ==> r.value < |feeds| && feeds[r.value].id == Some(id)
    ensures r.None? ==> forall i :: 0 <= i < |feeds| ==> feeds[i].id != Some(id)
  {
    if feeds == [] then None
    else if feeds[0].id == Some(id) then Some(0)
    else
      var r := FeedIndex(feeds[1..], id);
      if r.Some? then Some(r.value + 1) else None
  }

  /** `get_feed(id)`. */
  function FindFeed(feeds: seq<Feed>, id: int): Option<Feed> {
    var i := FeedIndex(feeds, id);
    if i.Some? then Some(feeds[i.value]) else None
  }

  /** `get_feeds()` with its default `active_only=True` (the name order of
      the query is not modelled: stored order is kept). */
  function ActiveFeeds(feeds: seq<Feed>): (r: seq<Feed>)
    ensures |r| <= |feeds|
    ensures forall f :: f in r <==> f in feeds && f.isActive
  {
    if feeds == [] then []
    else
      assert feeds == [feeds[0]] + feeds[1..];
      (if feeds[0].isActive then [feeds[0]] else []) + ActiveFeeds(feeds[1..])
  }

  lemma {:induction false} ActiveFeedsAppend(a: seq<Feed>, b: seq<Feed>)
    decreases |a|
    ensures ActiveFeeds(a + b) == ActiveFeeds(a) + ActiveFeeds(b)
  {
    if a != [] {
      var head := if a[0].isActive then [a[0]] else [];
      assert (a + b)[0] == a[0] && (a + b)[1..] == a[1..] + b;
      assert ActiveFeeds(a + b) == head + ActiveFeeds(a[1..] + b);
      assert ActiveFeeds(a) == head + ActiveFeeds(a[1..]);
      ActiveFeedsAppend(a[1..], b);
      AppendAssoc(head, ActiveFeeds(a[1..]), ActiveFeeds(b));
    } else {
      assert a + b == b;
    }
  }

  /** The columns `update_feed` is called with in the core. */
  datatype FeedUpdate = SetLastFetched(t: int) | SetActive(active: bool)

  function ApplyFeedUpdate(f: Feed, u: FeedUpdate): Feed {
    match u
    case SetLastFetched(t) => f.(lastFetched := Some(t))
    case SetActive(b) => f.(isActive := b)
  }

  /** The feeds after `update_feed(id, ...)`: the row `get_feed(id)` finds is
      updated, every other row is kept. */
  function UpdateFeedAt(feeds: seq<Feed>, id: int, u: FeedUpdate): (r: seq<Feed>)
    ensures |r| == |feeds|
    ensures forall i :: 0 <= i < |feeds| ==>
      r[i] == if FeedIndex(feeds, id) == Some(i) then ApplyFeedUpdate(feeds[i], u) else feeds[i]
  {
    var i := FeedIndex(feeds, id);
    if i.Some? then feeds[i.value := ApplyFeedUpdate(feeds[i.value], u)] else feeds
  }

  /** What the scheduler relies on: every feed's id and active flag. */
  function IdsAndFlags(feeds: seq<Feed>): (r: seq<(Option<int>, bool)>)
    ensures |r| == |feeds|
    ensures forall i :: 0 <= i < |feeds| ==> r[i] == (feeds[i].id, feeds[i].isActive)
  {
    if feeds == [] then [] else [(feeds[0].id, feeds[0].isActive)] + IdsAndFlags(feeds[1..])
  }

  /** Two feed lists that agree on ids and active flags give the same answer
      to `get_feed(id)` as far as presence and the active flag go. */
  lemma {:induction false} FindFeedByShape(a: seq<Feed>, b: seq<Feed>, id: int)
    requires IdsAndFlags(a) == IdsAndFlags(b)
    ensures FeedIndex(a, id) == FeedIndex(b, id)
    ensures FindFeed(a, id).Some? == FindFeed(b, id).Some?
    ensures FindFeed(a, id).Some? ==> FindFeed(a, id).value.isActive == FindFeed(b, id).value.isActive
  {
    if a != [] {
      assert IdsAndFlags(a)[0] == IdsAndFlags(b)[0];
      assert IdsAndFlags(a[1..]) == IdsAndFlags(b[1..]) by {
        forall i | 0 <= i < |a| - 1 ensures IdsAndFlags(a[1..])[i] == IdsAndFlags(b[1..])[i] {
          assert IdsAndFlags(a)[i + 1] == IdsAndFlags(b)[i + 1];
        }
      }
      FindFeedByShape(a[1..], b[1..], id);
    }
  }

  /** Stamping `last_fetched` changes no id and no active flag. */
  lemma LastFetchedKeepsShape(feeds: seq<Feed>, id: int, t: int)
    ensures IdsAndFlags(UpdateFeedAt(feeds, id, SetLastFetched(t))) == IdsAndFlags(feeds)
  {
  }

  /** Stored ids are present, strictly increasing in storage order and below
      the next id to be handed out (stated row by row from the newest). */
  predicate ValidIds(arts: seq<Article>, next: int)
    decreases |arts|
  {
    arts == [] ||
    (var last := arts[|arts| - 1];
     last.id.Some? && last.id.value < next && ValidIds(arts[..|arts| - 1], last.id.value))
  }

  lemma {:induction false} ValidIdsWeaken(arts: seq<Article>, next: int, next': int)
    requires ValidIds(arts, next) && next <= next'
    ensures ValidIds(arts, next')
  {
  }

  /** What the row-by-row statement means: every id is present and below
      the next id, and ids strictly increase, so no two rows share one. */
  lemma {:induction false} ValidIdsMeaning(arts: seq<Article>, next: int)
    requires ValidIds(arts, next)
    ensures forall i :: 0 <= i < |arts| ==> arts[i].id.Some? && arts[i].id.value < next
    ensures forall i, j :: 0 <= i < j < |arts| ==> arts[i].id.Some? && arts[j].id.Some? && arts[i].id.value < arts[j].id.value
    decreases |arts|
  {
    if arts != [] {
      var init, last := arts[..|arts| - 1], arts[|arts| - 1];
      ValidIdsMeaning(init, last.id.value);
      assert forall i :: 0 <= i < |init| ==> arts[i] == init[i];
    }
  }

  /** `SELECT ... WHERE id = id` finds a row. */
  predicate HasId(arts: seq<Article>, id: Option<int>) {
    id.Some? && exists i :: 0 <= i < |arts| && arts[i].id == id
  }

  /** The rows that remain after `DELETE ... WHERE id = id`. */
  function WithoutId(arts: seq<Article>, id: int): (r: seq<Article>)
    ensures |r| <= |arts|
    ensures forall a :: a in r <==> a in arts && a.id != Some(id)
  {
    if arts == [] then []
    else
      var init, last := arts[..|arts| - 1], arts[|arts| - 1];
      assert arts == init + [last];
      WithoutId(init, id) + (if last.id == Some(id) then [] else [last])
  }

  lemma {:induction false} WithoutIdKeepsValid(arts: seq<Article>, next: int, id: int)
    requires ValidIds(arts, next)
    ensures ValidIds(WithoutId(arts, id), next)
    decreases |arts|
  {
    if arts != [] {
      var init, last := arts[..|arts| - 1], arts[|arts| - 1];
      WithoutIdKeepsValid(init, last.id.value, id);
      var w := WithoutId(init, id);
      if last.id == Some(id) {
        assert WithoutId(arts, id) == w + [];
        ValidIdsWeaken(w, last.id.value, next);
        assert w + [] == w;
      } else {
        assert WithoutId(arts, id) == w + [last];
        assert (w + [last])[..|w|] == w;
      }
    }
  }

  /** A snapshot of the store, for stating how an operation changes it. */
  datatype StoreState = StoreState(articles: seq<Article>, feeds: seq<Feed>, nextId: int)

  /** The store: article and feed rows, and the id the next saved article
      gets (the autoincrement key). */
  class Database {
    var articles: seq<Article>
    var feeds: seq<Feed>
    var nextId: int

    function State(): StoreState
      reads this
    {
      StoreState(articles, feeds, nextId)
    }

    predicate Valid()
      reads this
    {
      ValidIds(articles, nextId)
    }

    constructor (initialFeeds: seq<Feed>)
      ensures Valid()
      ensures articles == [] && feeds == initialFeeds && nextId == 1
    {
      articles, feeds, nextId := [], initialFeeds, 1;
    }

    /** `save_article`: the row is stored with a fresh id, which is returned. */
    method SaveArticle(a: Article) returns (id: int)
      requires Valid()
      modifies this`articles, this`nextId
      ensures Valid()
      ensures id == old(nextId) && nextId == old(nextId) + 1
      ensures articles == old(articles) + [a.(id := Some(id))]
    {
      id := nextId;
      articles := articles + [a.(id := Some(id))];
      nextId := nextId + 1;
    }

    /** `update_feed(id, ...)`: `None` when no row has that id. */
    method UpdateFeed(id: int, u: FeedUpdate) returns (r: Option<Feed>)
      modifies this`feeds
      ensures feeds == UpdateFeedAt(old(feeds), id, u)
      ensures r == if FindFeed(old(feeds), id).Some?
        then Some(ApplyFeedUpdate(FindFeed(old(feeds), id).value, u)) else None
    {
      var i := FeedIndex(feeds, id);
      if i.Some? {
        r := Some(ApplyFeedUpdate(feeds[i.value], u));
        feeds := feeds[i.value := r.value];
      } else {
        r := None;
      }
    }

    /** Deleting the row with a given id: `false` when there is none. */
    method DeleteArticle(id: int) returns (found: bool)
      requires Valid()
      modifies this`articles
      ensures Valid()
      ensures found <==> exists i :: 0 <= i < |old(articles)| && old(articles)[i].id == Some(id)
      ensures articles == WithoutId(old(articles), id)
    {
      found := exists i :: 0 <= i < |articles| && articles[i].id == Some(id);
      WithoutIdKeepsValid(articles, nextId, id);
      articles := WithoutId(articles, id);
    }
  }
}
